/** The per-layer buffers `populateLayers` builds and the invariant that
    ties the layer list, the buffers and the current row together between
    events. */
module Buffers {
  import opened Util
  import opened LayerMetadata
  import opened Layers
  import opened Fields

  /** No two different listed layers share an identity. */
  predicate UniqueIds(layers: seq<Layer>)
  {
    forall i, j :: 0 <= i < |layers| && 0 <= j < |layers| && layers[i].id == layers[j].id ==> layers[i] == layers[j]
  }

  /** `layer.metadata()`: what was last written to the layer, or what it was
      loaded with. */
  function MetadataOfLayer(written: map<LayerId, Metadata>, l: Layer): Metadata
  {
    if l.id in written then written[l.id] else l.metadata
  }

  /** The field dictionaries `populateLayers` builds, row by row: every
      field of a vector layer included, nothing for a raster layer. */
  function InitialFieldBuffers(ls: seq<Layer>): map<LayerId, map<string, bool>>
  {
    if ls == [] then map[]
    else InitialFieldBuffers(ls[..|ls| - 1])[ls[|ls| - 1].id := InitialFields(ls[|ls| - 1])]
  }

  /** The metadata buffers `populateLayers` builds: a copy of each layer's
      metadata as it stands (`written` holds what was stored to layers). */
  function InitialMetadataBuffers(ls: seq<Layer>, written: map<LayerId, Metadata>): map<LayerId, Metadata>
  {
    if ls == [] then map[]
    else InitialMetadataBuffers(ls[..|ls| - 1], written)[ls[|ls| - 1].id := MetadataOfLayer(written, ls[|ls| - 1])]
  }

  /** Both buffers hold exactly the listed layers. */
  lemma {:induction false} InitialBuffersKeys(ls: seq<Layer>, written: map<LayerId, Metadata>)
    ensures InitialFieldBuffers(ls).Keys == set i | 0 <= i < |ls| :: ls[i].id
    ensures InitialMetadataBuffers(ls, written).Keys == set i | 0 <= i < |ls| :: ls[i].id
  {
    if ls != [] {
      var init := ls[..|ls| - 1];
      InitialBuffersKeys(init, written);
      assert forall i :: 0 <= i < |init| ==> init[i] == ls[i];
      assert (set i | 0 <= i < |ls| :: ls[i].id) == (set i | 0 <= i < |init| :: init[i].id) + {ls[|ls| - 1].id};
    }
  }

  /** With distinct identities, every listed layer's buffers hold its
      initial values. */
  lemma {:induction false} InitialBuffersEntries(ls: seq<Layer>, written: map<LayerId, Metadata>)
    requires UniqueIds(ls)
    ensures forall i :: 0 <= i < |ls| ==> ls[i].id in InitialFieldBuffers(ls) && InitialFieldBuffers(ls)[ls[i].id] == InitialFields(ls[i])
    ensures forall i :: 0 <= i < |ls| ==> ls[i].id in InitialMetadataBuffers(ls, written) && InitialMetadataBuffers(ls, written)[ls[i].id] == MetadataOfLayer(written, ls[i])
  {
    if ls != [] {
      var init, last := ls[..|ls| - 1], ls[|ls| - 1];
      assert forall i :: 0 <= i < |init| ==> init[i] == ls[i];
      InitialBuffersEntries(init, written);
      forall i | 0 <= i < |ls|
        ensures ls[i].id in InitialFieldBuffers(ls) && InitialFieldBuffers(ls)[ls[i].id] == InitialFields(ls[i])
        ensures ls[i].id in InitialMetadataBuffers(ls, written) && InitialMetadataBuffers(ls, written)[ls[i].id] == MetadataOfLayer(written, ls[i])
      {
        if ls[i].id == last.id {
          assert ls[i] == last;
        } else {
          assert init[i] == ls[i];
        }
      }
    }
  }

  /** A vector layer's field dictionary is keyed by exactly its fields; any
      other layer's dictionary is empty. */
  predicate FieldsExact(l: Layer, included: map<string, bool>)
  {
    if l.kind == VectorLayer then (forall f :: f in included ==> f in l.fields) && (forall f :: f in l.fields ==> f in included)
    else included == map[]
  }

  /** What holds of the widget between events: every row has a check box,
      the listed layers have distinct identities, every listed
      layer has a field dictionary and a metadata buffer, a vector layer's
      dictionary is keyed by exactly its fields and any other layer's is
      empty, and the current row, the current layer and the fields table
      agree. */
  ghost predicate SessionInvariant(layers: seq<Layer>, checked: seq<bool>,
                                   fieldsToPublish: map<LayerId, map<string, bool>>, metadata: map<LayerId, Metadata>,
                                   currentRow: Option<nat>, currentLayer: Option<Layer>, fieldRows: seq<FieldRow>)
  {
    && |checked| == |layers|
    && UniqueIds(layers)
    && (forall i :: 0 <= i < |layers| ==> layers[i].id in fieldsToPublish && layers[i].id in metadata)
    && (forall i :: 0 <= i < |layers| ==> FieldsExact(layers[i], fieldsToPublish[layers[i].id]))
    && (currentRow.Some? <==> currentLayer.Some?)
    && (currentRow.Some? ==> currentRow.value < |layers| && currentLayer.value == layers[currentRow.value])
    && (currentLayer.Some? && currentLayer.value.kind == VectorLayer ==> RowNames(fieldRows) == currentLayer.value.fields)
  }

  /** The freshly populated list, before any row is current, satisfies the
      invariant. */
  lemma {:induction false} PopulatedInvariant(ls: seq<Layer>, checked: seq<bool>, written: map<LayerId, Metadata>, fieldRows: seq<FieldRow>)
    requires UniqueIds(ls) && |checked| == |ls|
    ensures SessionInvariant(ls, checked, InitialFieldBuffers(ls), InitialMetadataBuffers(ls, written), None, None, fieldRows)
  {
    InitialBuffersEntries(ls, written);
    forall k | 0 <= k < |ls|
      ensures FieldsExact(ls[k], InitialFieldBuffers(ls)[ls[k].id])
    {
      assert InitialFieldBuffers(ls)[ls[k].id] == InitialFields(ls[k]);
      InitialFieldsEntries(ls[k]);
    }
  }

  /** Committing the fields table to the current vector layer keeps the
      invariant: the stored dictionary is keyed by the names in the table,
      which are that layer's fields. */
  lemma {:induction false} CommitFieldsKeepsInvariant(layers: seq<Layer>, checked: seq<bool>,
                                                      fieldsToPublish: map<LayerId, map<string, bool>>, metadata: map<LayerId, Metadata>,
                                                      currentRow: Option<nat>, currentLayer: Option<Layer>, fieldRows: seq<FieldRow>)
    requires SessionInvariant(layers, checked, fieldsToPublish, metadata, currentRow, currentLayer, fieldRows)
    requires currentLayer.Some? && currentLayer.value.kind == VectorLayer
    ensures SessionInvariant(layers, checked, fieldsToPublish[currentLayer.value.id := RowsToMap(fieldRows)], metadata,
                             currentRow, currentLayer, fieldRows)
  {
    var current := currentLayer.value;
    var stored := fieldsToPublish[current.id := RowsToMap(fieldRows)];
    RowsToMapKeys(fieldRows);
    assert FieldsExact(current, RowsToMap(fieldRows)) by {
      forall f
        ensures f in RowsToMap(fieldRows) <==> f in current.fields
      {
        if f in current.fields {
          var k :| 0 <= k < |current.fields| && current.fields[k] == f;
          assert fieldRows[k].0 == f;
        }
        if f in RowsToMap(fieldRows) {
          var k :| 0 <= k < |fieldRows| && fieldRows[k].0 == f;
          assert current.fields[k] == f;
        }
      }
    }
    forall i | 0 <= i < |layers|
      ensures FieldsExact(layers[i], stored[layers[i].id])
    {
      if layers[i].id == current.id {
        assert layers[i] == current;
      }
    }
  }

  /** Writing a layer's metadata buffer keeps the invariant. */
  lemma {:induction false} CommitMetadataKeepsInvariant(layers: seq<Layer>, checked: seq<bool>,
                                                        fieldsToPublish: map<LayerId, map<string, bool>>, metadata: map<LayerId, Metadata>,
                                                        currentRow: Option<nat>, currentLayer: Option<Layer>, fieldRows: seq<FieldRow>,
                                                        id: LayerId, m: Metadata)
    requires SessionInvariant(layers, checked, fieldsToPublish, metadata, currentRow, currentLayer, fieldRows)
    ensures SessionInvariant(layers, checked, fieldsToPublish, metadata[id := m], currentRow, currentLayer, fieldRows)
  {
  }

  /** Making row `row` current and showing its buffers keeps the invariant:
      a vector layer's table lists its fields in order. */
  lemma {:induction false} SwitchKeepsInvariant(layers: seq<Layer>, checked: seq<bool>,
                                                fieldsToPublish: map<LayerId, map<string, bool>>, metadata: map<LayerId, Metadata>,
                                                currentRow: Option<nat>, currentLayer: Option<Layer>, fieldRows: seq<FieldRow>,
                                                row: nat)
    requires SessionInvariant(layers, checked, fieldsToPublish, metadata, currentRow, currentLayer, fieldRows)
    requires row < |layers|
    ensures layers[row].kind == VectorLayer ==>
              forall f :: f in fieldsToPublish[layers[row].id] <==> f in layers[row].fields
    ensures SessionInvariant(layers, checked, fieldsToPublish, metadata, Some(row), Some(layers[row]),
                             if layers[row].kind == VectorLayer
                             then FieldRows(layers[row].fields, fieldsToPublish[layers[row].id])
                             else fieldRows)
  {
  }

  /** Committing a fields table that was shown and not edited changes no
      dictionary: switching away from a layer without touching its check
      boxes keeps its fields as they were. */
  lemma {:induction false} UneditedCommitKeepsFields(layers: seq<Layer>, checked: seq<bool>,
                                                     fieldsToPublish: map<LayerId, map<string, bool>>, metadata: map<LayerId, Metadata>,
                                                     currentRow: Option<nat>, currentLayer: Option<Layer>, fieldRows: seq<FieldRow>)
    requires SessionInvariant(layers, checked, fieldsToPublish, metadata, currentRow, currentLayer, fieldRows)
    requires currentLayer.Some? && currentLayer.value.kind == VectorLayer
    requires fieldRows == FieldRows(currentLayer.value.fields, fieldsToPublish[currentLayer.value.id])
    ensures fieldsToPublish[currentLayer.value.id := RowsToMap(fieldRows)] == fieldsToPublish
  {
    var l := currentLayer.value;
    var i := currentRow.value;
    assert layers[i] == l;
    assert FieldsExact(layers[i], fieldsToPublish[layers[i].id]);
    FieldRowsRoundTrip(l.fields, fieldsToPublish[l.id]);
  }

  /** The row loop of `populateLayers`, over the publishable layers `all`:
      each layer gets an unchecked row, its field dictionary and a copy of
      its metadata as its buffer. */
  method PopulateRows(all: seq<Layer>, written: map<LayerId, Metadata>)
    returns (layers: seq<Layer>, checked: seq<bool>,
             fieldsToPublish: map<LayerId, map<string, bool>>, metadata: map<LayerId, Metadata>)
    ensures layers == all && |checked| == |all|
    ensures forall i :: 0 <= i < |checked| ==> !checked[i]
    ensures fieldsToPublish == InitialFieldBuffers(all) && metadata == InitialMetadataBuffers(all, written)
  {
    layers, checked, fieldsToPublish, metadata := [], [], map[], map[];
    var i := 0;
    while i < |all|
      invariant 0 <= i <= |all|
      invariant layers == all[..i] && |checked| == i
      invariant forall j :: 0 <= j < i ==> !checked[j]
      invariant fieldsToPublish == InitialFieldBuffers(all[..i])
      invariant metadata == InitialMetadataBuffers(all[..i], written)
    {
      var layer := all[i];
      assert all[..i + 1] == all[..i] + [layer];
      assert all[..i + 1][..i] == all[..i];
      fieldsToPublish := fieldsToPublish[layer.id := InitialFields(layer)];
      metadata := metadata[layer.id := MetadataOfLayer(written, layer)];
      layers := layers + [layer];
      checked := checked + [false];
      i := i + 1;
    }
    assert all[..i] == all;
  }
}
