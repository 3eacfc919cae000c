/** The per-layer "publish this field" dictionaries: their initial value
    (`populateLayers`), the table rows shown for a vector layer
    (`populateLayerFields`) and the dictionary read back from those rows
    (`storeFieldsToPublish`). */
module Fields {
  import opened Layers

  /** A row of the fields table: the field name and its check box. */
  type FieldRow = (string, bool)

  /** `{f: True for f in fields}` for a vector layer, `{}` otherwise. */
  function InitialFields(l: Layer): map<string, bool>
  {
    if l.kind == VectorLayer then map f | f in l.fields :: true else map[]
  }

  /** A vector layer starts with exactly its fields, all included; any other
      layer with none. */
  lemma {:induction false} InitialFieldsEntries(l: Layer)
    ensures l.kind == VectorLayer ==> forall f :: f in InitialFields(l) <==> f in l.fields
    ensures forall f :: f in InitialFields(l) ==> InitialFields(l)[f]
    ensures l.kind != VectorLayer ==> InitialFields(l) == map[]
  {
  }

  /** The rows `populateLayerFields` puts in the table: one per field, in
      field order, checked as the dictionary says. */
  function FieldRows(fields: seq<string>, included: map<string, bool>): (r: seq<FieldRow>)
    requires forall f :: f in fields ==> f in included
    ensures |r| == |fields|
    ensures forall i :: 0 <= i < |fields| ==> r[i] == (fields[i], included[fields[i]])
  {
    if fields == [] then []
    else [(fields[0], included[fields[0]])] + FieldRows(fields[1..], included)
  }

  /** The loop of `populateLayerFields` that fills the table: row `i` shows
      field `i` and its check box as the dictionary says. */
  method ShowFieldRows(fields: seq<string>, included: map<string, bool>) returns (rows: seq<FieldRow>)
    requires forall f :: f in fields ==> f in included
    ensures rows == FieldRows(fields, included)
  {
    rows := [];
    var i := 0;
    while i < |fields|
      invariant 0 <= i <= |fields| && |rows| == i
      invariant forall j :: 0 <= j < i ==> rows[j] == (fields[j], included[fields[j]])
    {
      rows := rows + [(fields[i], included[fields[i]])];
      i := i + 1;
    }
  }

  /** The names in a run of rows. */
  function RowNames(rows: seq<FieldRow>): (r: seq<string>)
    ensures |r| == |rows|
    ensures forall i :: 0 <= i < |rows| ==> r[i] == rows[i].0
  {
    if rows == [] then [] else [rows[0].0] + RowNames(rows[1..])
  }

  /** The dictionary `storeFieldsToPublish` builds from the rows, assigning
      row by row (a later row with the same name wins). */
  function RowsToMap(rows: seq<FieldRow>): map<string, bool>
  {
    if rows == [] then map[]
    else RowsToMap(rows[..|rows| - 1])[rows[|rows| - 1].0 := rows[|rows| - 1].1]
  }

  /** The dictionary is keyed by exactly the names in the rows. */
  lemma {:induction false} RowsToMapKeys(rows: seq<FieldRow>)
    ensures forall f :: f in RowsToMap(rows) <==> exists i :: 0 <= i < |rows| && rows[i].0 == f
  {
    if rows != [] {
      var init := rows[..|rows| - 1];
      RowsToMapKeys(init);
      assert forall i :: 0 <= i < |init| ==> init[i] == rows[i];
    }
  }

  /** Each field is stored with the check box of its last row. */
  lemma {:induction false} RowsToMapLastRowWins(rows: seq<FieldRow>, i: nat)
    requires i < |rows|
    requires forall j :: i < j < |rows| ==> rows[j].0 != rows[i].0
    ensures rows[i].0 in RowsToMap(rows)
    ensures RowsToMap(rows)[rows[i].0] == rows[i].1
  {
    RowsToMapKeys(rows);
    if i < |rows| - 1 {
      var init := rows[..|rows| - 1];
      RowsToMapLastRowWins(init, i);
    }
  }

  /** Commit-on-switch loses nothing: the dictionary read back from the rows
      holds exactly the fields shown, each with its check box as displayed. */
  lemma {:induction false} RowsToMapShowsRows(rows: seq<FieldRow>)
    requires forall i, j :: 0 <= i < j < |rows| ==> rows[i].0 != rows[j].0
    ensures forall i :: 0 <= i < |rows| ==> rows[i].0 in RowsToMap(rows) && RowsToMap(rows)[rows[i].0] == rows[i].1
  {
    forall i | 0 <= i < |rows|
      ensures rows[i].0 in RowsToMap(rows) && RowsToMap(rows)[rows[i].0] == rows[i].1
    {
      RowsToMapLastRowWins(rows, i);
    }
  }

  /** Showing a layer's dictionary and reading it straight back gives the
      dictionary again, when it is keyed by exactly the layer's fields: a
      switch with no edit changes nothing. */
  lemma {:induction false} FieldRowsRoundTrip(fields: seq<string>, included: map<string, bool>)
    requires forall f :: f in included <==> f in fields
    ensures RowsToMap(FieldRows(fields, included)) == included
  {
    var rows := FieldRows(fields, included);
    var r := RowsToMap(rows);
    RowsToMapKeys(rows);
    forall f | f in r
      ensures r[f] == included[f]
    {
      var i :| 0 <= i < |rows| && rows[i].0 == f;
      var last := LastIndexOfName(rows, f, i);
      RowsToMapLastRowWins(rows, last);
    }
    forall f | f in included
      ensures f in r
    {
      var i :| 0 <= i < |fields| && fields[i] == f;
      assert rows[i].0 == f;
    }
    assert r.Keys == included.Keys;
  }

  /** The last row with name `f` at or after row `i`. */
  lemma {:induction false} LastIndexOfName(rows: seq<FieldRow>, f: string, i: nat) returns (last: nat)
    requires i < |rows| && rows[i].0 == f
    ensures i <= last < |rows| && rows[last].0 == f
    ensures forall j :: last < j < |rows| ==> rows[j].0 != f
    decreases |rows| - i
  {
    if exists j :: i < j < |rows| && rows[j].0 == f {
      var j :| i < j < |rows| && rows[j].0 == f;
      last := LastIndexOfName(rows, f, j);
    } else {
      last := i;
    }
  }

  /** A freshly populated vector layer shows every field checked. */
  lemma {:induction false} InitialFieldsShowAllChecked(l: Layer)
    requires l.kind == VectorLayer
    ensures forall f :: f in l.fields ==> f in InitialFields(l)
    ensures forall i :: 0 <= i < |l.fields| ==> FieldRows(l.fields, InitialFields(l))[i] == (l.fields[i], true)
  {
    InitialFieldsEntries(l);
  }
}
