/** The configured servers and everything the widget asks of them. Servers
    are opaque identifiers; what they answer is given by `Env`, whose
    members stand for the server classes' methods and the metadata
    helpers, none of which is part of this model. */
module Servers {
  import opened Util
  import opened Layers

  /** An opaque reference to a configured server object. */
  type ServerId = nat

  /** The foreign behaviour the widget relies on, as the answers the servers
      and the metadata helpers give. Each dictionary records the answers
      that differ from the default named beside it, so any finite behaviour
      can be described. A query that raises gives `Raised`; a command that
      raises gives `Fail`. `testConnection` reports failure as `false` and
      never raises. The validate hooks receive the error set and may change
      it in any way (they are not assumed to only add to it). */
  datatype Env = Env(
    connected: set<ServerId>,
    layerAnswers: map<(ServerId, string), Result<bool>>,
    layerDeleteFailures: map<(ServerId, string), Exc>,
    styleDeleteFailures: map<(ServerId, string), Exc>,
    metadataAnswers: map<(ServerId, string), Result<bool>>,
    metadataDeleteFailures: map<(ServerId, string), Exc>,
    geodataChecks: map<(ServerId, set<string>, seq<string>), set<string>>,
    metadataChecks: map<(ServerId, set<string>), set<string>>,
    uuids: map<Layer, Result<string>>)
  {
    /** `server.TestConnection()` */
    predicate TestConnection(s: ServerId)
    {
      s in connected
    }

    /** `server.LayerExists(name)`; by default the layer is absent. */
    function LayerExists(s: ServerId, name: string): Result<bool>
    {
      if (s, name) in layerAnswers then layerAnswers[(s, name)] else Ok(false)
    }

    /** `server.DeleteLayer(name)`; by default it succeeds. */
    function DeleteLayer(s: ServerId, name: string): Outcome
    {
      if (s, name) in layerDeleteFailures then Fail(layerDeleteFailures[(s, name)]) else Pass
    }

    /** `server.DeleteStyle(name)`; by default it succeeds. */
    function DeleteStyle(s: ServerId, name: string): Outcome
    {
      if (s, name) in styleDeleteFailures then Fail(styleDeleteFailures[(s, name)]) else Pass
    }

    /** `server.MetadataExists(uuid)`; by default the record is absent. */
    function MetadataExists(s: ServerId, uuid: string): Result<bool>
    {
      if (s, uuid) in metadataAnswers then metadataAnswers[(s, uuid)] else Ok(false)
    }

    /** `server.DeleteMetadata(uuid)`; by default it succeeds. */
    function DeleteMetadata(s: ServerId, uuid: string): Outcome
    {
      if (s, uuid) in metadataDeleteFailures then Fail(metadataDeleteFailures[(s, uuid)]) else Pass
    }

    /** `server.validateGeodataBeforePublication(errors, toPublish)`; by
        default the errors are left as they are. */
    function ValidateGeodata(s: ServerId, errors: set<string>, toPublish: seq<string>): set<string>
    {
      if (s, errors, toPublish) in geodataChecks then geodataChecks[(s, errors, toPublish)] else errors
    }

    /** `server.validateMetadataBeforePublication(errors)`; by default the
        errors are left as they are. */
    function ValidateMetadata(s: ServerId, errors: set<string>): set<string>
    {
      if (s, errors) in metadataChecks then metadataChecks[(s, errors)] else errors
    }

    /** What the servers answer once `deleteLayer(name)` has succeeded on
        `s`: that server no longer has the layer, and nothing else changes. */
    function AfterLayerDeleted(s: ServerId, name: string): (r: Env)
      ensures r.LayerExists(s, name) == Ok(false)
      ensures forall s': ServerId, name': string :: (s', name') != (s, name) ==> r.LayerExists(s', name') == LayerExists(s', name')
      ensures r.(layerAnswers := layerAnswers) == this
    {
      this.(layerAnswers := layerAnswers[(s, name) := Ok(false)])
    }

    /** What the servers answer once `deleteMetadata(uuid)` has succeeded on
        `s`: that server no longer has the record, and nothing else changes. */
    function AfterMetadataDeleted(s: ServerId, uuid: string): (r: Env)
      ensures r.MetadataExists(s, uuid) == Ok(false)
      ensures forall s': ServerId, uuid': string :: (s', uuid') != (s, uuid) ==> r.MetadataExists(s', uuid') == MetadataExists(s', uuid')
      ensures r.(metadataAnswers := metadataAnswers) == this
    {
      this.(metadataAnswers := metadataAnswers[(s, uuid) := Ok(false)])
    }

    /** `uuidForLayer(layer)`; by default the derivation raises. */
    function UuidForLayer(l: Layer): Result<string>
    {
      if l in uuids then uuids[l] else Raised(OtherError)
    }
  }

  /** `after` answers like `before` except that some layers or records may
      have been deleted: every existence query answers as before or answers
      that the resource is absent, and no other behaviour differs. */
  ghost predicate OnlyDeletions(before: Env, after: Env)
  {
    && after.(layerAnswers := before.layerAnswers, metadataAnswers := before.metadataAnswers) == before
    && (forall s: ServerId, name: string :: after.LayerExists(s, name) == before.LayerExists(s, name) || after.LayerExists(s, name) == Ok(false))
    && (forall s: ServerId, uuid: string :: after.MetadataExists(s, uuid) == before.MetadataExists(s, uuid) || after.MetadataExists(s, uuid) == Ok(false))
  }

  /** Deletions compose: deleting more after some deletions is still only
      deletions, and a single successful delete is one. */
  lemma {:induction false} OnlyDeletionsSteps(e0: Env, e1: Env, e2: Env, s: ServerId, key: string)
    ensures OnlyDeletions(e0, e0)
    ensures OnlyDeletions(e0, e1) && OnlyDeletions(e1, e2) ==> OnlyDeletions(e0, e2)
    ensures OnlyDeletions(e0, e0.AfterLayerDeleted(s, key))
    ensures OnlyDeletions(e0, e0.AfterMetadataDeleted(s, key))
  {
    if OnlyDeletions(e0, e1) && OnlyDeletions(e1, e2) {
      assert e2.(layerAnswers := e0.layerAnswers, metadataAnswers := e0.metadataAnswers)
          == e1.(layerAnswers := e0.layerAnswers, metadataAnswers := e0.metadataAnswers);
    }
  }

  /** `geodataServers()` and `metadataServers()`: per role, the server names
      in the registry's order and the name -> server dictionary. */
  datatype Registry = Registry(
    geodataNames: seq<string>,
    geodata: map<string, ServerId>,
    metadataNames: seq<string>,
    metadata: map<string, ServerId>)

  /** A server combo box: its item texts and its current index. */
  datatype Combo = Combo(items: seq<string>, index: int)
  {
    /** `currentText()`: the empty string when no item is current. */
    function CurrentText(): string
    {
      if 0 <= index < |items| then items[index] else ""
    }
  }

  /** The item at index 0 of each combo. */
  const NoGeodataLabel: string := "Do not publish data"
  const NoMetadataLabel: string := "Do not publish metadata"

  /** `populatecomboGeodataServer`: the "do not publish" item, then the
      registry's server names; the first item is current. */
  function GeodataCombo(reg: Registry): (c: Combo)
    ensures |c.items| == |reg.geodataNames| + 1 && c.index == 0
    ensures c.CurrentText() == NoGeodataLabel
    ensures forall i :: 0 <= i < |reg.geodataNames| ==> c.items[i + 1] == reg.geodataNames[i]
  {
    Combo([NoGeodataLabel] + reg.geodataNames, 0)
  }

  /** `populatecomboMetadataServer`. */
  function MetadataCombo(reg: Registry): (c: Combo)
    ensures |c.items| == |reg.metadataNames| + 1 && c.index == 0
    ensures c.CurrentText() == NoMetadataLabel
    ensures forall i :: 0 <= i < |reg.metadataNames| ==> c.items[i + 1] == reg.metadataNames[i]
  {
    Combo([NoMetadataLabel] + reg.metadataNames, 0)
  }

  /** `servers[combo.currentText()]`, with the KeyError as `None`. */
  function Resolve(servers: map<string, ServerId>, combo: Combo): (r: Option<ServerId>)
    ensures r.Some? <==> combo.CurrentText() in servers
    ensures r.Some? ==> r.value == servers[combo.CurrentText()]
  {
    if combo.CurrentText() in servers then Some(servers[combo.CurrentText()]) else None
  }

  /** The server of a role as `updateLayersPublicationStatus` ends up with:
      the selected server if it resolves and `testConnection` succeeds. */
  function UsableServer(servers: map<string, ServerId>, combo: Combo, env: Env): (r: Option<ServerId>)
    ensures r.Some? <==> Resolve(servers, combo).Some? && env.TestConnection(Resolve(servers, combo).value)
    ensures r.Some? ==> r == Resolve(servers, combo)
  {
    match Resolve(servers, combo)
    case None => None
    case Some(s) => if env.TestConnection(s) then Some(s) else None
  }

  /** Lines 429-454 for one role: the role keeps the publish gate open unless
      it is refreshed and its selected server resolves but does not connect.
      A selection that does not resolve (a KeyError, which includes the
      "do not publish" item) leaves the gate open. */
  predicate RoleAllowsPublish(refreshed: bool, servers: map<string, ServerId>, combo: Combo, env: Env)
  {
    !refreshed || Resolve(servers, combo).None? || env.TestConnection(Resolve(servers, combo).value)
  }

  /** One role's block in `updateLayersPublicationStatus`, run only when
      the role is refreshed: look the selected name up and test the
      connection. The server is kept only if both succeed; `connected` is
      false only when the role is refreshed and its selection resolves but
      does not connect. */
  method CheckServer(refresh: bool, servers: map<string, ServerId>, combo: Combo, env: Env)
    returns (server: Option<ServerId>, connected: bool)
    ensures server == if refresh then UsableServer(servers, combo, env) else None
    ensures connected == RoleAllowsPublish(refresh, servers, combo, env)
  {
    server, connected := None, true;
    if refresh {
      server := Resolve(servers, combo);
      if server.Some? && !env.TestConnection(server.value) {
        server, connected := None, false;
      }
    }
  }

  /** The "do not publish" item resolves to no server (unless a configured
      server bears exactly that label) and so never closes the gate. */
  lemma {:induction false} NoSelectionKeepsGateOpen(servers: map<string, ServerId>, combo: Combo, env: Env, refreshed: bool)
    requires combo.CurrentText() !in servers
    ensures UsableServer(servers, combo, env).None?
    ensures RoleAllowsPublish(refreshed, servers, combo, env)
  {
  }

  /** A selected server that fails `testConnection` is never used and closes
      the gate whenever its role is refreshed. */
  lemma {:induction false} UnreachableServerClosesGate(servers: map<string, ServerId>, combo: Combo, env: Env)
    requires combo.CurrentText() in servers
    requires !env.TestConnection(servers[combo.CurrentText()])
    ensures UsableServer(servers, combo, env).None?
    ensures !RoleAllowsPublish(true, servers, combo, env)
  {
  }
}
