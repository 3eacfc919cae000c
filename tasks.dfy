/** `getPublishTask`: which unit of work a publish request builds, and how
    `publish` classifies the way a run ended. */
module Tasks {
  import opened Util
  import opened Layers
  import opened Servers
  import Validation

  /** The work handed to the publishing code: a publication to the selected
      servers (either may be absent) or an export to a folder. `fields` is
      the per-layer field-inclusion dictionary. */
  datatype Task =
    | PublishTask(names: seq<string>, fields: map<LayerId, map<string, bool>>, onlySymbology: bool,
                  geodata: Option<ServerId>, metadata: Option<ServerId>)
    | ExportTask(folder: string, names: seq<string>, fields: map<LayerId, map<string, bool>>,
                 exportData: bool, exportMetadata: bool, exportSymbology: bool)

  /** The state of the widgets `getPublishTask` reads besides the server
      combos: the online/offline tab, the "only symbology" box, the export
      folder and the three export boxes. */
  datatype TaskOptions = TaskOptions(onOfflineTab: int, onlySymbology: bool, exportFolder: string,
                                     exportData: bool, exportMetadata: bool, exportSymbology: bool)

  /** The server of one role for the task: none at combo index 0, otherwise
      the registry's server for the combo text, or KeyError. */
  function SelectedServer(servers: map<string, ServerId>, combo: Combo): (r: Result<Option<ServerId>>)
    ensures combo.index == 0 <==> r == Ok(None)
    ensures r.Raised? ==> r.exc == KeyError
    ensures combo.index != 0 ==> (r.Raised? <==> Resolve(servers, combo).None?) && (r.Ok? ==> r.value == Resolve(servers, combo))
  {
    if combo.index != 0 then
      match Resolve(servers, combo)
      case None => Raised(KeyError)
      case Some(s) => Ok(Some(s))
    else Ok(None)
  }

  /** Every role whose combo is not at index 0 names a configured server,
      so that `getPublishTask` can look both up. */
  predicate SelectionsResolve(reg: Registry, dataCombo: Combo, metaCombo: Combo)
  {
    SelectedServer(reg.geodata, dataCombo).Ok? && SelectedServer(reg.metadata, metaCombo).Ok?
  }

  /** Lines 612-630 after the stores: tab 0 builds a PublishTask, any other
      tab an ExportTask, both over the checked names. */
  function BuildTask(opts: TaskOptions, reg: Registry, dataCombo: Combo, metaCombo: Combo,
                     names: seq<string>, fields: map<LayerId, map<string, bool>>): (r: Result<Task>)
    ensures r.Ok? ==> r.value.names == names && r.value.fields == fields
    ensures r.Ok? ==> (r.value.PublishTask? <==> opts.onOfflineTab == 0)
    ensures r.Raised? ==> r.exc == KeyError
    ensures r.Ok? <==> opts.onOfflineTab != 0 || SelectionsResolve(reg, dataCombo, metaCombo)
  {
    if opts.onOfflineTab == 0 then
      match SelectedServer(reg.geodata, dataCombo)
      case Raised(e) => Raised(e)
      case Ok(geodata) =>
        match SelectedServer(reg.metadata, metaCombo)
        case Raised(e) => Raised(e)
        case Ok(metadata) => Ok(PublishTask(names, fields, opts.onlySymbology, geodata, metadata))
    else
      Ok(ExportTask(opts.exportFolder, names, fields, opts.exportData, opts.exportMetadata, opts.exportSymbology))
  }

  /** A PublishTask names a server for a role exactly when that role's combo
      is not at index 0, and that server is the one its text resolves to. */
  lemma {:induction false} PublishTaskServers(opts: TaskOptions, reg: Registry, dataCombo: Combo, metaCombo: Combo,
                                              names: seq<string>, fields: map<LayerId, map<string, bool>>)
    requires opts.onOfflineTab == 0
    requires BuildTask(opts, reg, dataCombo, metaCombo, names, fields).Ok?
    ensures var t := BuildTask(opts, reg, dataCombo, metaCombo, names, fields).value;
            && t.PublishTask?
            && (t.geodata.None? <==> dataCombo.index == 0)
            && (t.metadata.None? <==> metaCombo.index == 0)
            && (t.geodata.Some? ==> Resolve(reg.geodata, dataCombo) == t.geodata)
            && (t.metadata.Some? ==> Resolve(reg.metadata, metaCombo) == t.metadata)
  {
  }

  /** Any tab but the first builds an export, which never fails and names
      no server. */
  lemma {:induction false} OfflineBuildsExport(opts: TaskOptions, reg: Registry, dataCombo: Combo, metaCombo: Combo,
                                               names: seq<string>, fields: map<LayerId, map<string, bool>>)
    requires opts.onOfflineTab != 0
    ensures BuildTask(opts, reg, dataCombo, metaCombo, names, fields)
            == Ok(ExportTask(opts.exportFolder, names, fields, opts.exportData, opts.exportMetadata, opts.exportSymbology))
  {
  }

  /** Once validation has answered (rather than raised), every selected
      server resolves: validation looked up the same server names first. */
  lemma {:induction false} ValidationResolvesSelections(reg: Registry, dataCombo: Combo, metaCombo: Combo, env: Env,
                                                        names: seq<string>, toPublish: seq<string>)
    requires Validation.Validate(names, toPublish, dataCombo, metaCombo, reg, env).Ok?
    ensures SelectionsResolve(reg, dataCombo, metaCombo)
  {
    if dataCombo.index != 0 {
      assert Resolve(reg.geodata, dataCombo).Some?;
    }
    if metaCombo.index != 0 {
      var errors := Validation.NameErrors(names);
      var afterData := if dataCombo.index != 0 then env.ValidateGeodata(Resolve(reg.geodata, dataCombo).value, errors, toPublish) else errors;
      assert Validation.MetadataValidation(afterData, metaCombo, reg, env).Ok?;
      assert Resolve(reg.metadata, metaCombo).Some?;
    }
  }

  /** What `publish` tells the user after a run. */
  datatype Notice =
    | NoNotice
    | ServerUnavailable   // "Connection error. Server unavailable."
    | SeeLog              // "Error while publishing: see QGIS log for details"

  /** Lines 538-545: a connection error gets the "server unavailable"
      warning, any other exception the generic message. */
  function NoticeFor(exception: Option<Exc>): (r: Notice)
    ensures r == NoNotice <==> exception.None?
    ensures r == ServerUnavailable <==> exception == Some(ConnectionError)
  {
    match exception
    case None => NoNotice
    case Some(e) => if e == ConnectionError then ServerUnavailable else SeeLog
  }
}
