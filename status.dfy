/** What the publication-status dictionaries become when a role is
    refreshed (`updateLayersPublicationStatus`), and the two existence
    queries it makes per layer (`isDataOnServer`, `isMetadataOnServer`). */
module Status {
  import opened Util
  import opened Layers
  import opened Servers

  /** The names shown in the layer list, row by row. */
  function LayerNames(layers: seq<Layer>): (r: seq<string>)
    ensures |r| == |layers|
    ensures forall i :: 0 <= i < |layers| ==> r[i] == layers[i].name
  {
    if layers == [] then [] else [layers[0].name] + LayerNames(layers[1..])
  }

  /** `isDataOnServer(name)`: whether the selected geodata server reports the
      layer; false when the selection does not resolve or the query raises. */
  function IsDataOnServer(env: Env, reg: Registry, combo: Combo, name: string): bool
  {
    match Resolve(reg.geodata, combo)
    case None => false
    case Some(s) => env.LayerExists(s, name) == Ok(true)
  }

  /** `isMetadataOnServer(name)`: whether the selected metadata server holds
      a record with the UUID of the first listed layer of that name; false
      when the selection does not resolve, no layer has the name, or the UUID
      derivation or the query raises. */
  function IsMetadataOnServer(env: Env, reg: Registry, combo: Combo, layers: seq<Layer>, name: string): bool
  {
    match Resolve(reg.metadata, combo)
    case None => false
    case Some(s) =>
      match LayerFromName(layers, name)
      case None => false
      case Some(l) =>
        match env.UuidForLayer(l)
        case Raised(_) => false
        case Ok(uuid) => env.MetadataExists(s, uuid) == Ok(true)
  }

  /** The two queries never let a failure through: they answer true only
      when a resolved server positively reports the resource. */
  lemma {:induction false} QueriesTrueOnlyOnPositiveAnswer(env: Env, reg: Registry, combo: Combo, layers: seq<Layer>, name: string)
    ensures IsDataOnServer(env, reg, combo, name) <==>
              Resolve(reg.geodata, combo).Some? && env.LayerExists(Resolve(reg.geodata, combo).value, name) == Ok(true)
    ensures IsMetadataOnServer(env, reg, combo, layers, name) ==>
              && Resolve(reg.metadata, combo).Some?
              && LayerFromName(layers, name).Some?
              && env.UuidForLayer(LayerFromName(layers, name).value).Ok?
              && env.MetadataExists(Resolve(reg.metadata, combo).value,
                                    env.UuidForLayer(LayerFromName(layers, name).value).value) == Ok(true)
  {
  }

  /** The per-row question a refresh asks of one role's server. */
  datatype Query =
    | DataQuery(env: Env, reg: Registry, combo: Combo)
    | MetadataQuery(env: Env, reg: Registry, combo: Combo, layers: seq<Layer>)

  function Answer(q: Query, name: string): bool
  {
    match q
    case DataQuery(env, reg, combo) => IsDataOnServer(env, reg, combo, name)
    case MetadataQuery(env, reg, combo, layers) => IsMetadataOnServer(env, reg, combo, layers, name)
  }

  /** The dictionary `m` after the row loop wrote the answer to `query` for every
      name of `names`, in order. */
  function Refreshed(m: map<string, bool>, names: seq<string>, query: Query): map<string, bool>
  {
    if names == [] then m
    else Refreshed(m, names[..|names| - 1], query)[names[|names| - 1] := Answer(query, names[|names| - 1])]
  }

  /** What the row loop leaves: the listed names are added as keys, each
      holds its query's answer, and every other entry is untouched. */
  lemma {:induction false} RefreshedEntries(m: map<string, bool>, names: seq<string>, query: Query)
    ensures Refreshed(m, names, query).Keys == m.Keys + (set i | 0 <= i < |names| :: names[i])
    ensures forall k :: k in names ==> k in Refreshed(m, names, query) && Refreshed(m, names, query)[k] == Answer(query, k)
    ensures forall k :: k in m && k !in names ==> Refreshed(m, names, query)[k] == m[k]
  {
    if names != [] {
      var init := names[..|names| - 1];
      var last := names[|names| - 1];
      RefreshedEntries(m, init, query);
      assert forall k :: k in names ==> k in init || k == last;
      assert forall i :: 0 <= i < |init| ==> init[i] == names[i];
      assert (set i | 0 <= i < |names| :: names[i]) == (set i | 0 <= i < |init| :: init[i]) + {last};
    }
  }

  /** The row loop one row further: the next name gets its answer on top of
      what the earlier rows wrote. */
  lemma {:induction false} RefreshedStep(m: map<string, bool>, names: seq<string>, i: nat, query: Query)
    requires i < |names|
    ensures Refreshed(m, names[..i + 1], query) == Refreshed(m, names[..i], query)[names[i] := Answer(query, names[i])]
  {
    assert names[..i + 1][..i] == names[..i];
  }

  /** The row loop of `updateLayersPublicationStatus`: for each listed name,
      in order, each role that has a usable server (a query here) gets its
      server's answer; a role without one keeps its dictionary. */
  method RefreshRows(data: map<string, bool>, metadata: map<string, bool>, names: seq<string>,
                     dataQuery: Option<Query>, metadataQuery: Option<Query>)
    returns (data': map<string, bool>, metadata': map<string, bool>)
    ensures data' == if dataQuery.Some? then Refreshed(data, names, dataQuery.value) else data
    ensures metadata' == if metadataQuery.Some? then Refreshed(metadata, names, metadataQuery.value) else metadata
  {
    data', metadata' := data, metadata;
    var i := 0;
    while i < |names|
      invariant 0 <= i <= |names|
      invariant data' == if dataQuery.Some? then Refreshed(data, names[..i], dataQuery.value) else data
      invariant metadata' == if metadataQuery.Some? then Refreshed(metadata, names[..i], metadataQuery.value) else metadata
    {
      var name := names[i];
      if dataQuery.Some? {
        RefreshedStep(data, names, i, dataQuery.value);
        data' := data'[name := Answer(dataQuery.value, name)];
      }
      if metadataQuery.Some? {
        RefreshedStep(metadata, names, i, metadataQuery.value);
        metadata' := metadata'[name := Answer(metadataQuery.value, name)];
      }
      i := i + 1;
    }
    assert names[..i] == names;
  }

  /** The geodata dictionary after `updateLayersPublicationStatus(True, _)`:
      every listed name gets its `isDataOnServer` answer when the selected
      server resolves and connects; otherwise the dictionary is unchanged. */
  function RefreshData(m: map<string, bool>, layers: seq<Layer>, reg: Registry, combo: Combo, env: Env): map<string, bool>
  {
    if UsableServer(reg.geodata, combo, env).Some? then
      Refreshed(m, LayerNames(layers), DataQuery(env, reg, combo))
    else m
  }

  /** The metadata dictionary after `updateLayersPublicationStatus(_, True)`. */
  function RefreshMetadata(m: map<string, bool>, layers: seq<Layer>, reg: Registry, combo: Combo, env: Env): map<string, bool>
  {
    if UsableServer(reg.metadata, combo, env).Some? then
      Refreshed(m, LayerNames(layers), MetadataQuery(env, reg, combo, layers))
    else m
  }

  /** Refreshing a role whose server is usable: every listed layer's entry is
      its server's answer, and no other entry changes. */
  lemma {:induction false} RefreshDataEntries(m: map<string, bool>, layers: seq<Layer>, reg: Registry, combo: Combo, env: Env, k: string)
    requires UsableServer(reg.geodata, combo, env).Some?
    ensures var r := RefreshData(m, layers, reg, combo, env);
            && (k in r <==> k in m || k in LayerNames(layers))
            && (k in LayerNames(layers) ==> r[k] == IsDataOnServer(env, reg, combo, k))
            && (k in m && k !in LayerNames(layers) ==> r[k] == m[k])
  {
    var names := LayerNames(layers);
    var r := RefreshData(m, layers, reg, combo, env);
    RefreshedEntries(m, names, DataQuery(env, reg, combo));
    if k in r && k !in m {
      var i :| 0 <= i < |names| && names[i] == k;
    }
  }

  /** Refreshing the same names against the same answers twice is the same
      as once. */
  lemma {:induction false} RefreshedTwice(m: map<string, bool>, names: seq<string>, query: Query)
    ensures Refreshed(Refreshed(m, names, query), names, query) == Refreshed(m, names, query)
  {
    var once := Refreshed(m, names, query);
    RefreshedEntries(m, names, query);
    RefreshedEntries(once, names, query);
    var twice := Refreshed(once, names, query);
    assert twice.Keys == once.Keys;
    forall k | k in twice
      ensures twice[k] == once[k]
    {
    }
  }

  /** `_setupUi` refreshes the metadata role twice (in `populateLayers` and
      in `metadataServerChanged`); with nothing changed in between, the
      second refresh changes nothing. */
  lemma {:induction false} RefreshMetadataTwice(m: map<string, bool>, layers: seq<Layer>, reg: Registry, combo: Combo, env: Env)
    ensures RefreshMetadata(RefreshMetadata(m, layers, reg, combo, env), layers, reg, combo, env)
            == RefreshMetadata(m, layers, reg, combo, env)
  {
    if UsableServer(reg.metadata, combo, env).Some? {
      RefreshedTwice(m, LayerNames(layers), MetadataQuery(env, reg, combo, layers));
    }
  }

  /** Refreshing a role whose server is not selected, stale or unreachable
      changes nothing: the dictionary keeps its previous answers. */
  lemma {:induction false} RefreshWithoutServerKeepsStatus(m: map<string, bool>, m': map<string, bool>, layers: seq<Layer>, reg: Registry,
                                                            data: Combo, meta: Combo, env: Env)
    requires UsableServer(reg.geodata, data, env).None?
    requires UsableServer(reg.metadata, meta, env).None?
    ensures RefreshData(m, layers, reg, data, env) == m
    ensures RefreshMetadata(m', layers, reg, meta, env) == m'
  {
  }

  /** The publish gate computed by `updateLayersPublicationStatus(data,
      metadata)`: both refreshed roles allow it and the list is not empty. */
  predicate PublishGate(data: bool, metadata: bool, layers: seq<Layer>, reg: Registry, dataCombo: Combo, metaCombo: Combo, env: Env)
  {
    && RoleAllowsPublish(data, reg.geodata, dataCombo, env)
    && RoleAllowsPublish(metadata, reg.metadata, metaCombo, env)
    && |layers| > 0
  }

  /** The gate is closed with no layers, and closed by any refreshed role
      whose selected server does not connect; a role that is not refreshed
      cannot close it. */
  lemma {:induction false} PublishGateCases(data: bool, metadata: bool, layers: seq<Layer>, reg: Registry, dataCombo: Combo, metaCombo: Combo, env: Env)
    ensures |layers| == 0 ==> !PublishGate(data, metadata, layers, reg, dataCombo, metaCombo, env)
    ensures data && Resolve(reg.geodata, dataCombo).Some? && !env.TestConnection(Resolve(reg.geodata, dataCombo).value)
            ==> !PublishGate(data, metadata, layers, reg, dataCombo, metaCombo, env)
    ensures metadata && Resolve(reg.metadata, metaCombo).Some? && !env.TestConnection(Resolve(reg.metadata, metaCombo).value)
            ==> !PublishGate(data, metadata, layers, reg, dataCombo, metaCombo, env)
    ensures !data && !metadata ==> (PublishGate(data, metadata, layers, reg, dataCombo, metaCombo, env) <==> |layers| > 0)
  {
  }

  /** How `unpublishData(name)` ends: KeyError when the selection does not
      resolve, else the first failure of `deleteLayer` then `deleteStyle`.
      The status entry is written only when both deletions pass. */
  function DataDeletion(env: Env, reg: Registry, combo: Combo, name: string): (r: Outcome)
    ensures Resolve(reg.geodata, combo).None? ==> r == Fail(KeyError)
    ensures r.Pass? <==> Resolve(reg.geodata, combo).Some?
                         && env.DeleteLayer(Resolve(reg.geodata, combo).value, name).Pass?
                         && env.DeleteStyle(Resolve(reg.geodata, combo).value, name).Pass?
  {
    match Resolve(reg.geodata, combo)
    case None => Fail(KeyError)
    case Some(s) =>
      if env.DeleteLayer(s, name).Fail? then env.DeleteLayer(s, name)
      else env.DeleteStyle(s, name)
  }

  /** How `unpublishMetadata(name)` ends: KeyError when the selection does
      not resolve; a failure when no listed layer has the name (the UUID of
      None cannot be derived), when the UUID derivation raises, or when
      `deleteMetadata` raises. */
  function MetadataDeletion(env: Env, reg: Registry, combo: Combo, layers: seq<Layer>, name: string): (r: Outcome)
    ensures Resolve(reg.metadata, combo).None? ==> r == Fail(KeyError)
    ensures r.Pass? <==> && Resolve(reg.metadata, combo).Some?
                         && LayerFromName(layers, name).Some?
                         && env.UuidForLayer(LayerFromName(layers, name).value).Ok?
                         && env.DeleteMetadata(Resolve(reg.metadata, combo).value,
                                               env.UuidForLayer(LayerFromName(layers, name).value).value).Pass?
  {
    match Resolve(reg.metadata, combo)
    case None => Fail(KeyError)
    case Some(s) =>
      match LayerFromName(layers, name)
      case None => Fail(OtherError)
      case Some(l) =>
        match env.UuidForLayer(l)
        case Raised(e) => Fail(e)
        case Ok(uuid) => env.DeleteMetadata(s, uuid)
  }

  /** What the servers answer after `unpublishData(name)`: once
      `deleteLayer` has succeeded the layer is gone from the selected
      server, whether or not `deleteStyle` then raises. */
  function EnvAfterDataDeletion(env: Env, reg: Registry, combo: Combo, name: string): (r: Env)
    ensures OnlyDeletions(env, r)
  {
    match Resolve(reg.geodata, combo)
    case None => OnlyDeletionsSteps(env, env, env, 0, name); env
    case Some(s) =>
      OnlyDeletionsSteps(env, env, env, s, name);
      if env.DeleteLayer(s, name).Pass? then env.AfterLayerDeleted(s, name) else env
  }

  /** What the servers answer after `unpublishMetadata(name)`: once
      `deleteMetadata` has succeeded the record is gone. */
  function EnvAfterMetadataDeletion(env: Env, reg: Registry, combo: Combo, layers: seq<Layer>, name: string): (r: Env)
    ensures OnlyDeletions(env, r)
  {
    OnlyDeletionsSteps(env, env, env, 0, name);
    match Resolve(reg.metadata, combo)
    case None => env
    case Some(s) =>
      match LayerFromName(layers, name)
      case None => env
      case Some(l) =>
        match env.UuidForLayer(l)
        case Raised(_) => env
        case Ok(uuid) =>
          OnlyDeletionsSteps(env, env, env, s, uuid);
          if env.DeleteMetadata(s, uuid).Pass? then env.AfterMetadataDeleted(s, uuid) else env
  }

  /** After a successful `unpublishData(name)` a refresh finds the layer
      absent, and the other names' answers are as before. */
  lemma {:induction false} DataDeletionForgetsLayer(env: Env, reg: Registry, combo: Combo, name: string)
    requires DataDeletion(env, reg, combo, name).Pass?
    ensures !IsDataOnServer(EnvAfterDataDeletion(env, reg, combo, name), reg, combo, name)
    ensures forall other :: other != name ==>
              IsDataOnServer(EnvAfterDataDeletion(env, reg, combo, name), reg, combo, other) == IsDataOnServer(env, reg, combo, other)
  {
    var s := Resolve(reg.geodata, combo).value;
    var after := env.AfterLayerDeleted(s, name);
    assert EnvAfterDataDeletion(env, reg, combo, name) == after;
    forall other | other != name
      ensures IsDataOnServer(after, reg, combo, other) == IsDataOnServer(env, reg, combo, other)
    {
      assert after.LayerExists(s, other) == env.LayerExists(s, other);
    }
  }

  /** After a successful `unpublishMetadata(name)` a refresh finds no
      record for that name. */
  lemma {:induction false} MetadataDeletionForgetsRecord(env: Env, reg: Registry, combo: Combo, layers: seq<Layer>, name: string)
    requires MetadataDeletion(env, reg, combo, layers, name).Pass?
    ensures !IsMetadataOnServer(EnvAfterMetadataDeletion(env, reg, combo, layers, name), reg, combo, layers, name)
  {
    var s := Resolve(reg.metadata, combo).value;
    var l := LayerFromName(layers, name).value;
    var uuid := env.UuidForLayer(l).value;
    var after := env.AfterMetadataDeleted(s, uuid);
    assert EnvAfterMetadataDeletion(env, reg, combo, layers, name) == after;
    assert after.UuidForLayer(l) == Ok(uuid);
  }
}
