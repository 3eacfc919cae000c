/** The project's layer tree and the list of layers the widget offers for
    publication (`publishableLayers` with its inner `_layersFromTree`), and
    the lookup of a layer by name (`layerFromName`). */
module Layers {
  import opened Util
  import opened LayerMetadata

  /** A layer's object identity: the widget keys its field and metadata
      dictionaries by layer object, not by name. */
  type LayerId = nat

  /** `layer.type()`: vector, raster, or any other kind (mesh, plugin, ...). */
  datatype LayerKind = VectorLayer | RasterLayer | OtherLayer

  /** A map layer as the widget sees it: its name, kind, data provider name,
      field names (vector layers only), data source path and the metadata
      the layer held when the project was loaded. */
  datatype Layer = Layer(
    id: LayerId,
    name: string,
    kind: LayerKind,
    provider: string,
    fields: seq<string>,
    source: string,
    metadata: Metadata)

  /** A node of the layer tree: a layer leaf or a group of child nodes. */
  datatype TreeNode = LayerNode(layer: Layer) | Group(children: seq<TreeNode>)

  /** The provider whose layers are themselves served remotely. */
  const WmsProvider: string := "wms"

  /** `_layersFromTree` applied to a group's children: every layer leaf,
      depth first, in child order. */
  function LayersFromTree(children: seq<TreeNode>): seq<Layer>
  {
    if children == [] then []
    else
      (match children[0]
       case LayerNode(l) => [l]
       case Group(cs) => LayersFromTree(cs))
      + LayersFromTree(children[1..])
  }

  /** Independent statement of "layer `l` is a leaf somewhere below". */
  ghost predicate OccursIn(l: Layer, children: seq<TreeNode>)
  {
    exists i :: 0 <= i < |children| && OccursAt(l, children[i])
  }

  ghost predicate OccursAt(l: Layer, node: TreeNode)
  {
    match node
    case LayerNode(m) => m == l
    case Group(cs) => OccursIn(l, cs)
  }

  /** Flattening loses no leaf and invents none. */
  lemma {:induction false} LayersFromTreeMembers(children: seq<TreeNode>, l: Layer)
    ensures l in LayersFromTree(children) <==> OccursIn(l, children)
  {
    if children != [] {
      LayersFromTreeMembers(children[1..], l);
      match children[0]
      case LayerNode(m) =>
      case Group(cs) => LayersFromTreeMembers(cs, l);
      assert forall i :: 1 <= i < |children| ==> children[i] == children[1..][i - 1];
      if OccursIn(l, children) {
        var i :| 0 <= i < |children| && OccursAt(l, children[i]);
        if i > 0 {
          assert OccursAt(l, children[1..][i - 1]);
        }
      }
      if OccursIn(l, children[1..]) {
        var j :| 0 <= j < |children[1..]| && OccursAt(l, children[1..][j]);
        assert OccursAt(l, children[j + 1]);
      }
    }
  }

  /** Depth-first child order: the layers of two runs of siblings are the
      layers of the first run followed by those of the second. */
  lemma {:induction false} LayersFromTreeAppend(a: seq<TreeNode>, b: seq<TreeNode>)
    ensures LayersFromTree(a + b) == LayersFromTree(a) + LayersFromTree(b)
  {
    if a == [] {
      assert a + b == b;
    } else {
      assert (a + b)[0] == a[0];
      assert (a + b)[1..] == a[1..] + b;
      LayersFromTreeAppend(a[1..], b);
    }
  }

  /** The filter of `publishableLayers`: vector or raster, not WMS-backed. */
  predicate IsPublishable(l: Layer)
  {
    (l.kind == VectorLayer || l.kind == RasterLayer) && l.provider != WmsProvider
  }

  /** The list comprehension of `publishableLayers`. */
  function FilterPublishable(ls: seq<Layer>): seq<Layer>
  {
    if ls == [] then []
    else (if IsPublishable(ls[0]) then [ls[0]] else []) + FilterPublishable(ls[1..])
  }

  /** The filter keeps exactly the publishable layers, and no more of them
      than it was given. */
  lemma {:induction false} FilterPublishableMembers(ls: seq<Layer>)
    ensures |FilterPublishable(ls)| <= |ls|
    ensures forall l :: l in FilterPublishable(ls) <==> l in ls && IsPublishable(l)
  {
    if ls != [] {
      FilterPublishableMembers(ls[1..]);
      assert forall l :: l in ls <==> l == ls[0] || l in ls[1..];
    }
  }

  /** The filter keeps the relative order of the layers it keeps. */
  lemma {:induction false} FilterPublishableAppend(a: seq<Layer>, b: seq<Layer>)
    ensures FilterPublishable(a + b) == FilterPublishable(a) + FilterPublishable(b)
  {
    if a == [] {
      assert a + b == b;
    } else {
      assert (a + b)[0] == a[0];
      assert (a + b)[1..] == a[1..] + b;
      FilterPublishableAppend(a[1..], b);
    }
  }

  /** `publishableLayers()` for the project's root group. */
  function PublishableLayers(root: seq<TreeNode>): seq<Layer>
  {
    FilterPublishable(LayersFromTree(root))
  }

  /** A layer is offered exactly when it is a leaf of the tree, is a vector
      or raster layer, and is not itself served by WMS. */
  lemma PublishableLayersMembers(root: seq<TreeNode>, l: Layer)
    ensures l in PublishableLayers(root) <==> OccursIn(l, root) && IsPublishable(l)
  {
    FilterPublishableMembers(LayersFromTree(root));
    LayersFromTreeMembers(root, l);
  }

  /** The layers offered from two runs of siblings are those of the first run
      followed by those of the second. */
  lemma PublishableLayersAppend(a: seq<TreeNode>, b: seq<TreeNode>)
    ensures PublishableLayers(a + b) == PublishableLayers(a) + PublishableLayers(b)
  {
    LayersFromTreeAppend(a, b);
    FilterPublishableAppend(LayersFromTree(a), LayersFromTree(b));
  }

  /** `layerFromName`: the first layer of the list with that name, or
      nothing (the source falls off the loop and returns None). */
  function LayerFromName(layers: seq<Layer>, name: string): Option<Layer>
  {
    if layers == [] then None
    else if layers[0].name == name then Some(layers[0])
    else LayerFromName(layers[1..], name)
  }

  /** Nothing is found exactly when no layer has the name; otherwise the
      result is the first layer that has it. */
  lemma {:induction false} LayerFromNameFirst(layers: seq<Layer>, name: string)
    ensures LayerFromName(layers, name).None? <==> forall i :: 0 <= i < |layers| ==> layers[i].name != name
    ensures LayerFromName(layers, name).Some? ==>
              exists i :: 0 <= i < |layers| && layers[i] == LayerFromName(layers, name).value && layers[i].name == name
                          && forall j :: 0 <= j < i ==> layers[j].name != name
  {
    if layers != [] && layers[0].name != name {
      LayerFromNameFirst(layers[1..], name);
      assert forall i :: 1 <= i < |layers| ==> layers[i] == layers[1..][i - 1];
      if LayerFromName(layers, name).Some? {
        var k :| 0 <= k < |layers[1..]| && layers[1..][k] == LayerFromName(layers, name).value && layers[1..][k].name == name
                 && forall j :: 0 <= j < k ==> layers[1..][j].name != name;
        assert layers[k + 1] == layers[1..][k];
      }
    } else if layers != [] {
      assert layers[0] == LayerFromName(layers, name).value;
    }
  }
}
