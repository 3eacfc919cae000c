/** The publish widget's state and the operations that change it: the
    layer list and its check boxes, the two server selections, the
    publication-status dictionaries, the per-layer field and metadata
    buffers with commit-on-switch, and the publish and unpublish actions. */
module Session {
  import opened Util
  import opened LayerMetadata
  import opened Layers
  import opened Paths
  import opened Servers
  import opened Status
  import opened Fields
  import opened Validation
  import opened Tasks
  import opened Buffers

  /** How a run of a task ended (`task.exception`), and what the servers
      answer once it is over. */
  datatype TaskRun = TaskRun(exception: Option<Exc>, envAfter: Env)

  /** What `publish` did: a lookup raised before anything happened, the
      validation refused with these errors, or a task was built and run. */
  datatype PublishReport =
    | Aborted(exc: Exc)
    | Refused(errors: set<string>)
    | Ran(task: Task, notice: Notice)

  /** What `importMetadata` did. */
  datatype ImportReport = NoCurrentLayer | NoFile | ConversionFailed | Imported(file: string)

  class PublishSession {
    /** The children of the project's layer-tree root. */
    const tree: seq<TreeNode>
    /** The configured servers. */
    const registry: Registry
    /** What the servers and the metadata helpers answer. */
    var env: Env
    /** The tab and check boxes `getPublishTask` reads. */
    const options: TaskOptions
    /** The items of the language combo (`QgsMetadataWidget.parseLanguages()`). */
    const languages: seq<string>

    /** The layer list: one row per publishable layer, and its check boxes. */
    var layers: seq<Layer>
    var checked: seq<bool>

    var dataCombo: Combo
    var metaCombo: Combo

    /** `isDataPublished` / `isMetadataPublished`, keyed by layer name. */
    var isDataPublished: map<string, bool>
    var isMetadataPublished: map<string, bool>
    /** Whether the publish buttons are enabled. */
    var canPublish: bool

    /** `fieldsToPublish` and `metadata`, keyed by layer. */
    var fieldsToPublish: map<LayerId, map<string, bool>>
    var metadata: map<LayerId, Metadata>
    /** The metadata written back to the layers themselves (`setMetadata`,
        `loadMetadataFromXml`). */
    var layerMetadata: map<LayerId, Metadata>

    var currentRow: Option<nat>
    var currentLayer: Option<Layer>
    /** The fields table and the metadata text fields, as displayed. */
    var fieldRows: seq<FieldRow>
    var view: MetadataView

    ghost predicate Valid()
      reads this`layers, this`checked, this`fieldsToPublish, this`metadata, this`currentRow, this`currentLayer, this`fieldRows
    {
      SessionInvariant(layers, checked, fieldsToPublish, metadata, currentRow, currentLayer, fieldRows)
    }

    /** The field dictionaries once the table is committed to the current
        layer (what `storeFieldsToPublish` leaves). */
    ghost function CommittedFields(): map<LayerId, map<string, bool>>
      reads this`currentLayer, this`fieldsToPublish, this`fieldRows
    {
      if currentLayer.Some? && currentLayer.value.kind == VectorLayer
      then fieldsToPublish[currentLayer.value.id := RowsToMap(fieldRows)]
      else fieldsToPublish
    }

    /** Committing a fields table that still shows the current layer's
        dictionary, unedited, changes no dictionary. */
    lemma UneditedCommitChangesNothing()
      requires Valid() && currentLayer.Some? && currentLayer.value.kind == VectorLayer
      requires fieldRows == FieldRows(currentLayer.value.fields, fieldsToPublish[currentLayer.value.id])
      ensures CommittedFields() == fieldsToPublish
    {
      UneditedCommitKeepsFields(layers, checked, fieldsToPublish, metadata, currentRow, currentLayer, fieldRows);
    }

    /** The metadata buffers once the text fields are committed to the
        current layer's buffer (what `storeMetadata` leaves). */
    ghost function CommittedMetadata(): map<LayerId, Metadata>
      reads this`layers, this`checked, this`fieldsToPublish, this`metadata, this`currentRow, this`currentLayer, this`fieldRows, this`view
      requires Valid()
    {
      if currentLayer.Some?
      then metadata[currentLayer.value.id := StoreView(metadata[currentLayer.value.id], view)]
      else metadata
    }

    /** The layers' own metadata after `storeMetadata`'s `setMetadata`. */
    ghost function CommittedLayerMetadata(): map<LayerId, Metadata>
      reads this`layers, this`checked, this`fieldsToPublish, this`metadata, this`currentRow, this`currentLayer, this`fieldRows, this`view, this`layerMetadata
      requires Valid()
    {
      if currentLayer.Some?
      then layerMetadata[currentLayer.value.id := StoreView(metadata[currentLayer.value.id], view)]
      else layerMetadata
    }

    /** `__init__`: empty dictionaries, no current row; the combos and the
        layer list are still empty. */
    constructor (tree: seq<TreeNode>, registry: Registry, env: Env, options: TaskOptions, languages: seq<string>)
      ensures this.tree == tree && this.registry == registry && this.env == env && this.options == options
      ensures this.languages == languages
      ensures Blank()
      ensures isDataPublished == map[] && isMetadataPublished == map[]
    {
      this.tree := tree;
      this.registry := registry;
      this.env := env;
      this.options := options;
      this.languages := languages;
      layers, checked := [], [];
      dataCombo, metaCombo := Combo([], -1), Combo([], -1);
      isDataPublished, isMetadataPublished := map[], map[];
      canPublish := false;
      fieldsToPublish, metadata, layerMetadata := map[], map[], map[];
      currentRow, currentLayer := None, None;
      fieldRows, view := [], EmptyView;
    }

    /** `_setupUi` without its widgets: fill the combos, `populateLayers`,
        then show the list (`ShowLayers`). */
    method SetupUi()
      requires Blank() && UniqueIds(PublishableLayers(tree))
      modifies this`dataCombo, this`metaCombo, this`layers, this`checked, this`fieldsToPublish, this`metadata,
               this`layerMetadata, this`isDataPublished, this`isMetadataPublished, this`canPublish,
               this`currentRow, this`currentLayer, this`view, this`fieldRows
      ensures Valid()
      ensures dataCombo == GeodataCombo(registry) && metaCombo == MetadataCombo(registry)
      ensures layers == PublishableLayers(tree)
      ensures |checked| == |layers| && forall i :: 0 <= i < |checked| ==> checked[i]
      ensures currentRow == if |layers| > 0 then Some(0) else None
      ensures fieldsToPublish == InitialFieldBuffers(layers) && metadata == InitialMetadataBuffers(layers, old(layerMetadata))
      ensures isDataPublished == RefreshData(old(isDataPublished), layers, registry, dataCombo, env)
      ensures isMetadataPublished == RefreshMetadata(old(isMetadataPublished), layers, registry, metaCombo, env)
      ensures canPublish == PublishGate(false, true, layers, registry, dataCombo, metaCombo, env)
    {
      PopulateComboBoxes();
      PopulateLayers();
      ShowLayers();
      RefreshMetadataTwice(old(isMetadataPublished), layers, registry, metaCombo, env);
    }

    /** `populateComboBoxes`: both server combos list their role's servers
        after the "none" item, with the first item selected; the language
        combo lists `languages` and shows the first of them. */
    method PopulateComboBoxes()
      modifies this`dataCombo, this`metaCombo, this`view
      ensures dataCombo == GeodataCombo(registry) && metaCombo == MetadataCombo(registry)
      ensures view == old(view).(language := FilledLanguageCombo(languages))
    {
      metaCombo := MetadataCombo(registry);
      dataCombo := GeodataCombo(registry);
      view := view.(language := FilledLanguageCombo(languages));
    }

    /** The end of `_setupUi`, once the list is populated: the first row, if
        any, becomes current; `metadataServerChanged` refreshes the metadata
        role; `selectLabelClicked("all")` checks every row. */
    method ShowLayers()
      requires Valid() && currentRow.None?
      modifies this`checked, this`isDataPublished, this`isMetadataPublished, this`canPublish,
               this`currentRow, this`currentLayer, this`fieldsToPublish, this`metadata, this`layerMetadata,
               this`view, this`fieldRows
      ensures Valid()
      ensures |checked| == |layers| && forall i :: 0 <= i < |checked| ==> checked[i]
      ensures currentRow == if |layers| > 0 then Some(0) else None
      ensures fieldsToPublish == old(fieldsToPublish) && metadata == old(metadata) && layerMetadata == old(layerMetadata)
      ensures isDataPublished == old(isDataPublished)
      ensures isMetadataPublished == RefreshMetadata(old(isMetadataPublished), layers, registry, metaCombo, env)
      ensures canPublish == PublishGate(false, true, layers, registry, dataCombo, metaCombo, env)
    {
      ShowFirstLayer();
      UpdateLayersPublicationStatus(false, true);
      SelectLabelClicked("all");
    }

    /** The list part of `_setupUi`: the first row, if there is one, becomes
        current through `currentRowChanged(0)`; as no row was current before,
        no buffer is committed. */
    method ShowFirstLayer()
      requires Valid() && currentRow.None?
      modifies this`currentRow, this`currentLayer, this`fieldsToPublish, this`metadata, this`layerMetadata,
               this`view, this`fieldRows
      ensures Valid()
      ensures currentRow == if |layers| > 0 then Some(0) else None
      ensures fieldsToPublish == old(fieldsToPublish) && metadata == old(metadata) && layerMetadata == old(layerMetadata)
    {
      if |layers| > 0 {
        CurrentRowChanged(0);
      }
    }

    /** Nothing is listed or buffered yet. */
    ghost predicate Blank()
      reads this`layers, this`checked, this`fieldsToPublish, this`metadata, this`layerMetadata, this`currentRow, this`currentLayer
    {
      && layers == [] && checked == []
      && fieldsToPublish == map[] && metadata == map[] && layerMetadata == map[]
      && currentRow.None? && currentLayer.None?
    }

    /** `populateLayers`: list the publishable layers with their buffers
        (`AddLayerRows`), then refresh both roles' status. */
    method PopulateLayers()
      requires Blank() && UniqueIds(PublishableLayers(tree))
      modifies this`layers, this`checked, this`fieldsToPublish, this`metadata,
               this`isDataPublished, this`isMetadataPublished, this`canPublish
      ensures Valid()
      ensures layers == PublishableLayers(tree) && |checked| == |layers|
      ensures forall i :: 0 <= i < |checked| ==> !checked[i]
      ensures fieldsToPublish == InitialFieldBuffers(layers) && metadata == InitialMetadataBuffers(layers, old(layerMetadata))
      ensures isDataPublished == RefreshData(old(isDataPublished), layers, registry, dataCombo, env)
      ensures isMetadataPublished == RefreshMetadata(old(isMetadataPublished), layers, registry, metaCombo, env)
      ensures canPublish == PublishGate(true, true, layers, registry, dataCombo, metaCombo, env)
    {
      AddLayerRows();
      UpdateLayersPublicationStatus(true, true);
    }

    /** The loop of `populateLayers`: one row per publishable layer
        (unchecked), every field of a vector layer included, an empty
        dictionary for a raster layer, a copy of each layer's metadata as its
        buffer. */
    method AddLayerRows()
      requires Blank() && UniqueIds(PublishableLayers(tree))
      modifies this`layers, this`checked, this`fieldsToPublish, this`metadata
      ensures Valid()
      ensures layers == PublishableLayers(tree) && |checked| == |layers|
      ensures forall i :: 0 <= i < |checked| ==> !checked[i]
      ensures fieldsToPublish == InitialFieldBuffers(layers) && metadata == InitialMetadataBuffers(layers, layerMetadata)
    {
      layers, checked, fieldsToPublish, metadata := PopulateRows(PublishableLayers(tree), layerMetadata);
      PopulatedInvariant(layers, checked, layerMetadata, fieldRows);
    }

    /** `selectLabelClicked(url)`: "none" unchecks every row, anything else
        checks every row. */
    method SelectLabelClicked(url: string)
      requires Valid()
      modifies this`checked
      ensures Valid()
      ensures |checked| == |old(checked)|
      ensures forall i :: 0 <= i < |checked| ==> checked[i] == (url != "none")
    {
      var state := url != "none";
      var i := 0;
      while i < |checked|
        invariant 0 <= i <= |checked| == |old(checked)|
        invariant forall j :: 0 <= j < i ==> checked[j] == state
      {
        checked := checked[i := state];
        i := i + 1;
      }
    }

    /** The user ticks or unticks the check box of row `i` of the fields
        table. */
    method SetFieldChecked(i: nat, included: bool)
      requires Valid() && i < |fieldRows|
      modifies this`fieldRows
      ensures Valid()
      ensures fieldRows == old(fieldRows)[i := (old(fieldRows)[i].0, included)]
    {
      fieldRows := fieldRows[i := (fieldRows[i].0, included)];
      assert RowNames(fieldRows) == RowNames(old(fieldRows));
    }

    /** `updateLayersPublicationStatus(data, metadata)`: for each role asked
        for whose selected server resolves and connects, every listed layer's
        entry becomes that server's answer; a role whose server does not
        resolve or does not connect keeps its entries. The publish buttons
        are enabled unless a refreshed role's server failed to connect or the
        list is empty. */
    method UpdateLayersPublicationStatus(refreshData: bool, refreshMetadata: bool)
      modifies this`isDataPublished, this`isMetadataPublished, this`canPublish
      ensures isDataPublished == if refreshData then RefreshData(old(isDataPublished), layers, registry, dataCombo, env)
                                 else old(isDataPublished)
      ensures isMetadataPublished == if refreshMetadata then RefreshMetadata(old(isMetadataPublished), layers, registry, metaCombo, env)
                                     else old(isMetadataPublished)
      ensures canPublish == PublishGate(refreshData, refreshMetadata, layers, registry, dataCombo, metaCombo, env)
    {
      var dataServer, dataConnected := CheckServer(refreshData, registry.geodata, dataCombo, env);
      var metadataServer, metadataConnected := CheckServer(refreshMetadata, registry.metadata, metaCombo, env);
      var dataQuery := if dataServer.Some? then Some(DataQuery(env, registry, dataCombo)) else None;
      var metadataQuery := if metadataServer.Some? then Some(MetadataQuery(env, registry, metaCombo, layers)) else None;
      isDataPublished, isMetadataPublished :=
        RefreshRows(isDataPublished, isMetadataPublished, LayerNames(layers), dataQuery, metadataQuery);
      canPublish := dataConnected && metadataConnected && |layers| > 0;
    }

    /** The user picks item `index` of the geodata combo; Qt signals a change
        of index only, and `geodataServerChanged` refreshes the data role. */
    method SelectGeodataServer(index: int)
      requires 0 <= index < |dataCombo.items| && Valid()
      modifies this`dataCombo, this`isDataPublished, this`isMetadataPublished, this`canPublish
      ensures Valid()
      ensures dataCombo == old(dataCombo).(index := index) && isMetadataPublished == old(isMetadataPublished)
      ensures index == old(dataCombo.index) ==> isDataPublished == old(isDataPublished) && canPublish == old(canPublish)
      ensures index != old(dataCombo.index) ==>
                && isDataPublished == RefreshData(old(isDataPublished), layers, registry, dataCombo, env)
                && canPublish == PublishGate(true, false, layers, registry, dataCombo, metaCombo, env)
    {
      if index != dataCombo.index {
        dataCombo := dataCombo.(index := index);
        UpdateLayersPublicationStatus(true, false);
      }
    }

    /** The user picks item `index` of the metadata combo;
        `metadataServerChanged` refreshes the metadata role. */
    method SelectMetadataServer(index: int)
      requires 0 <= index < |metaCombo.items| && Valid()
      modifies this`metaCombo, this`isDataPublished, this`isMetadataPublished, this`canPublish
      ensures Valid()
      ensures metaCombo == old(metaCombo).(index := index) && isDataPublished == old(isDataPublished)
      ensures index == old(metaCombo.index) ==> isMetadataPublished == old(isMetadataPublished) && canPublish == old(canPublish)
      ensures index != old(metaCombo.index) ==>
                && isMetadataPublished == RefreshMetadata(old(isMetadataPublished), layers, registry, metaCombo, env)
                && canPublish == PublishGate(false, true, layers, registry, dataCombo, metaCombo, env)
    {
      if index != metaCombo.index {
        metaCombo := metaCombo.(index := index);
        UpdateLayersPublicationStatus(false, true);
      }
    }

    /** `storeFieldsToPublish`: for a current vector layer, its dictionary
        becomes the table's rows read back; otherwise nothing changes. */
    method StoreFieldsToPublish()
      requires Valid()
      modifies this`fieldsToPublish
      ensures Valid()
      ensures fieldsToPublish == old(CommittedFields())
    {
      if currentLayer.Some? && currentLayer.value.kind == VectorLayer {
        var layer := currentLayer.value;
        var stored: map<string, bool> := map[];
        var i := 0;
        while i < |layer.fields|
          invariant 0 <= i <= |layer.fields| == |fieldRows|
          invariant stored == RowsToMap(fieldRows[..i])
        {
          assert fieldRows[..i + 1][..i] == fieldRows[..i];
          stored := stored[fieldRows[i].0 := fieldRows[i].1];
          i := i + 1;
        }
        assert fieldRows[..i] == fieldRows;
        CommitFieldsKeepsInvariant(layers, checked, fieldsToPublish, metadata, currentRow, currentLayer, fieldRows);
        fieldsToPublish := fieldsToPublish[layer.id := stored];
      }
    }

    /** `storeMetadata`: the current layer's buffer takes the title, abstract
        and language shown, and is written to the layer. */
    method StoreMetadata()
      requires Valid()
      modifies this`metadata, this`layerMetadata
      ensures Valid()
      ensures metadata == old(CommittedMetadata())
      ensures layerMetadata == old(CommittedLayerMetadata())
    {
      if currentLayer.Some? {
        var id := currentLayer.value.id;
        var m := StoreView(metadata[id], view);
        CommitMetadataKeepsInvariant(layers, checked, fieldsToPublish, metadata, currentRow, currentLayer, fieldRows, id, m);
        metadata := metadata[id := m];
        layerMetadata := layerMetadata[id := m];
      }
    }

    /** `currentRowChanged(row)`: nothing when `row` is already current;
        otherwise the previous layer's table and text fields are committed
        first, then `row`'s layer becomes current and its buffers are shown
        (the table only for a vector layer). */
    method CurrentRowChanged(row: nat)
      requires Valid() && row < |layers|
      modifies this`currentRow, this`currentLayer, this`fieldsToPublish, this`metadata, this`layerMetadata,
               this`view, this`fieldRows
      ensures Valid()
      ensures old(currentRow) == Some(row) ==>
                && currentRow == old(currentRow) && currentLayer == old(currentLayer)
                && fieldsToPublish == old(fieldsToPublish) && metadata == old(metadata)
                && layerMetadata == old(layerMetadata) && view == old(view) && fieldRows == old(fieldRows)
      ensures old(currentRow) != Some(row) ==>
                && currentRow == Some(row) && currentLayer == Some(layers[row])
                && fieldsToPublish == old(CommittedFields())
                && metadata == old(CommittedMetadata())
                && layerMetadata == old(CommittedLayerMetadata())
                && view == PopulateView(metadata[layers[row].id], old(view), languages)
                && fieldRows == if layers[row].kind == VectorLayer
                                then FieldRows(layers[row].fields, fieldsToPublish[layers[row].id])
                                else old(fieldRows)
    {
      if currentRow == Some(row) {
        return;
      }
      StoreFieldsToPublish();
      StoreMetadata();
      ShowLayer(row);
    }

    /** The part of `currentRowChanged` after the buffers are stored: the row
        and layer become current, `populateLayerMetadata` fills the view from
        the layer's buffer and `populateLayerFields` lists a vector layer's
        fields with their flags (other layers keep the old table). */
    method ShowLayer(row: nat)
      requires Valid() && row < |layers|
      modifies this`currentRow, this`currentLayer, this`view, this`fieldRows
      ensures Valid()
      ensures currentRow == Some(row) && currentLayer == Some(layers[row])
      ensures view == PopulateView(metadata[layers[row].id], old(view), languages)
      ensures fieldRows == if layers[row].kind == VectorLayer
                           then FieldRows(layers[row].fields, fieldsToPublish[layers[row].id])
                           else old(fieldRows)
    {
      var layer := layers[row];
      SwitchKeepsInvariant(layers, checked, fieldsToPublish, metadata, currentRow, currentLayer, fieldRows, row);
      currentRow := Some(row);
      currentLayer := Some(layer);
      view := PopulateView(metadata[layer.id], view, languages);
      if layer.kind == VectorLayer {
        fieldRows := ShowFieldRows(layer.fields, fieldsToPublish[layer.id]);
      }
    }

    /** `updateLayerIsDataPublished(name, value)` (its icon aside). */
    method UpdateLayerIsDataPublished(name: string, value: bool)
      modifies this`isDataPublished
      ensures isDataPublished == old(isDataPublished)[name := value]
    {
      isDataPublished := isDataPublished[name := value];
    }

    /** `updateLayerIsMetadataPublished(name, value)` (its icon aside). */
    method UpdateLayerIsMetadataPublished(name: string, value: bool)
      modifies this`isMetadataPublished
      ensures isMetadataPublished == old(isMetadataPublished)[name := value]
    {
      isMetadataPublished := isMetadataPublished[name := value];
    }

    /** `unpublishData(name)`: delete the layer and then its style from the
        selected geodata server; only when both succeed does the entry
        become false. A raised exception leaves the dictionary as it was. */
    method UnpublishData(name: string) returns (outcome: Outcome)
      modifies this`isDataPublished, this`env
      ensures outcome == DataDeletion(old(env), registry, dataCombo, name)
      ensures env == EnvAfterDataDeletion(old(env), registry, dataCombo, name)
      ensures isDataPublished == if outcome.Pass? then old(isDataPublished)[name := false] else old(isDataPublished)
    {
      var server := Resolve(registry.geodata, dataCombo);
      if server.None? {
        return Fail(KeyError);
      }
      outcome := env.DeleteLayer(server.value, name);
      if outcome.Fail? {
        return;
      }
      env := env.AfterLayerDeleted(server.value, name);
      outcome := env.DeleteStyle(server.value, name);
      if outcome.Fail? {
        return;
      }
      UpdateLayerIsDataPublished(name, false);
    }

    /** `unpublishMetadata(name)`: delete the record with the UUID of the
        layer of that name from the selected metadata server; only then does
        the entry become false. */
    method UnpublishMetadata(name: string) returns (outcome: Outcome)
      modifies this`isMetadataPublished, this`env
      ensures outcome == MetadataDeletion(old(env), registry, metaCombo, layers, name)
      ensures env == EnvAfterMetadataDeletion(old(env), registry, metaCombo, layers, name)
      ensures isMetadataPublished == if outcome.Pass? then old(isMetadataPublished)[name := false] else old(isMetadataPublished)
    {
      var server := Resolve(registry.metadata, metaCombo);
      if server.None? {
        return Fail(KeyError);
      }
      var layer := LayerFromName(layers, name);
      if layer.None? {
        return Fail(OtherError);
      }
      var uuid := env.UuidForLayer(layer.value);
      if uuid.Raised? {
        return Fail(uuid.exc);
      }
      outcome := env.DeleteMetadata(server.value, uuid.value);
      if outcome.Fail? {
        return;
      }
      env := env.AfterMetadataDeleted(server.value, uuid.value);
      UpdateLayerIsMetadataPublished(name, false);
    }

    /** `unpublishAll`: for every name that is a key of `isDataPublished`,
        unpublish its data if that entry is true and its metadata if its
        `isMetadataPublished` entry is true. The first exception stops the
        walk. Entries are only ever cleared, never added; a metadata entry is
        cleared only for a name that is a data key. */
    method UnpublishAll() returns (outcome: Outcome)
      modifies this`isDataPublished, this`isMetadataPublished, this`env
      ensures OnlyDeletions(old(env), env)
      ensures isDataPublished.Keys == old(isDataPublished).Keys
      ensures isMetadataPublished.Keys == old(isMetadataPublished).Keys
      ensures forall k :: k in isDataPublished && isDataPublished[k] ==> old(isDataPublished)[k]
      ensures forall k :: k in isMetadataPublished && isMetadataPublished[k] != old(isMetadataPublished)[k] ==>
                k in old(isDataPublished) && !isMetadataPublished[k]
      ensures outcome.Pass? ==> forall k :: k in isDataPublished ==> !isDataPublished[k]
      ensures outcome.Pass? ==> forall k :: k in isMetadataPublished ==>
                isMetadataPublished[k] == (old(isMetadataPublished)[k] && k !in old(isDataPublished))
    {
      outcome := Pass;
      var remaining := isDataPublished.Keys;
      while remaining != {}
        invariant remaining <= isDataPublished.Keys == old(isDataPublished).Keys
        invariant isMetadataPublished.Keys == old(isMetadataPublished).Keys
        invariant forall k :: k in remaining ==> isDataPublished[k] == old(isDataPublished)[k]
        invariant forall k :: k in isDataPublished && k !in remaining ==> !isDataPublished[k]
        invariant forall k :: k in isMetadataPublished ==>
                    isMetadataPublished[k] == (old(isMetadataPublished)[k] && !(k in old(isDataPublished) && k !in remaining))
        invariant outcome == Pass
        invariant OnlyDeletions(old(env), env)
        decreases remaining
      {
        var name :| name in remaining;
        ghost var before := env;
        outcome := UnpublishName(name);
        OnlyDeletionsSteps(old(env), before, env, 0, name);
        if outcome.Fail? {
          return;
        }
        remaining := remaining - {name};
      }
    }

    /** One round of `unpublishAll`'s loop, for the key `name`: its data if
        the data entry is true, then its metadata if the metadata entry is
        true. Only `name`'s entries can change, and only from true to false;
        a pass leaves both of them false. */
    method UnpublishName(name: string) returns (outcome: Outcome)
      requires name in isDataPublished
      modifies this`isDataPublished, this`isMetadataPublished, this`env
      ensures OnlyDeletions(old(env), env)
      ensures var afterData := if old(isDataPublished)[name] then EnvAfterDataDeletion(old(env), registry, dataCombo, name) else old(env);
              var dataFailed := old(isDataPublished)[name] && DataDeletion(old(env), registry, dataCombo, name).Fail?;
              env == if !dataFailed && name in old(isMetadataPublished) && old(isMetadataPublished)[name]
                     then EnvAfterMetadataDeletion(afterData, registry, metaCombo, layers, name)
                     else afterData
      ensures name in isDataPublished && isDataPublished == old(isDataPublished)[name := isDataPublished[name]]
      ensures isDataPublished[name] ==> old(isDataPublished)[name]
      ensures outcome.Pass? ==> !isDataPublished[name]
      ensures name !in old(isMetadataPublished) ==> isMetadataPublished == old(isMetadataPublished)
      ensures name in old(isMetadataPublished) ==>
                && name in isMetadataPublished
                && isMetadataPublished == old(isMetadataPublished)[name := isMetadataPublished[name]]
                && (isMetadataPublished[name] ==> old(isMetadataPublished)[name])
                && (outcome.Pass? ==> !isMetadataPublished[name])
    {
      outcome := Pass;
      ghost var start := env;
      if isDataPublished[name] {
        outcome := UnpublishData(name);
        if outcome.Fail? {
          return;
        }
      }
      ghost var afterData := env;
      if name in isMetadataPublished && isMetadataPublished[name] {
        outcome := UnpublishMetadata(name);
      }
      OnlyDeletionsSteps(start, afterData, env, 0, name);
    }

    /** `validateBeforePublication(toPublish)` without its dialog. */
    method ValidateBeforePublication(toPublish: seq<string>) returns (v: Result<set<string>>)
      requires |checked| == |layers|
      ensures v == Validate(CheckedNames(layers, checked), toPublish, dataCombo, metaCombo, registry, env)
    {
      var errors := CollectNameErrors(CheckedNames(layers, checked));
      if dataCombo.index != 0 {
        var server := Resolve(registry.geodata, dataCombo);
        if server.None? {
          return Raised(KeyError);
        }
        errors := env.ValidateGeodata(server.value, errors, toPublish);
      }
      if metaCombo.index != 0 {
        var server := Resolve(registry.metadata, metaCombo);
        if server.None? {
          return Raised(KeyError);
        }
        errors := env.ValidateMetadata(server.value, errors);
      }
      v := Ok(errors);
    }

    /** `getPublishTask`: commit the current layer's buffers, then build the
        task for the checked names over the committed field dictionaries. */
    method GetPublishTask() returns (t: Result<Task>)
      requires Valid()
      modifies this`fieldsToPublish, this`metadata, this`layerMetadata
      ensures Valid()
      ensures fieldsToPublish == old(CommittedFields())
      ensures metadata == old(CommittedMetadata()) && layerMetadata == old(CommittedLayerMetadata())
      ensures t == BuildTask(options, registry, dataCombo, metaCombo, CheckedNames(layers, checked), fieldsToPublish)
    {
      StoreMetadata();
      StoreFieldsToPublish();
      var toPublish := ToPublish(layers, checked);
      t := BuildTask(options, registry, dataCombo, metaCombo, toPublish, fieldsToPublish);
    }

    /** `publish`: validate the checked names; if that refuses or raises,
        nothing changes. Otherwise the task is built and run
        (`RunPublishTask`). */
    method Publish(run: Task -> TaskRun) returns (report: PublishReport)
      requires Valid()
      modifies this`fieldsToPublish, this`metadata, this`layerMetadata, this`env,
               this`isDataPublished, this`isMetadataPublished, this`canPublish
      ensures Valid()
      ensures var v := old(Validate(CheckedNames(layers, checked), CheckedNames(layers, checked), dataCombo, metaCombo, registry, env));
              && (v.Raised? ==> report == Aborted(v.exc))
              && (v.Ok? && v.value != {} ==> report == Refused(v.value))
              && (v == Ok({}) ==> report.Ran?)
      ensures !report.Ran? ==>
                && fieldsToPublish == old(fieldsToPublish) && metadata == old(metadata) && layerMetadata == old(layerMetadata)
                && env == old(env) && isDataPublished == old(isDataPublished)
                && isMetadataPublished == old(isMetadataPublished) && canPublish == old(canPublish)
      ensures report.Ran? ==>
                && fieldsToPublish == old(CommittedFields())
                && metadata == old(CommittedMetadata()) && layerMetadata == old(CommittedLayerMetadata())
                && Ok(report.task) == BuildTask(options, registry, dataCombo, metaCombo, CheckedNames(layers, checked), fieldsToPublish)
                && report.notice == NoticeFor(run(report.task).exception)
                && AfterRun(report.task, run, old(isDataPublished), old(isMetadataPublished), old(canPublish))
    {
      var toPublish := ToPublish(layers, checked);
      var v := ValidateBeforePublication(toPublish);
      if v.Raised? {
        return Aborted(v.exc);
      }
      if v.value != {} {
        return Refused(v.value);
      }
      ValidationResolvesSelections(registry, dataCombo, metaCombo, env, toPublish, toPublish);
      report := RunPublishTask(run);
    }

    /** The rest of `publish` once validation has passed: build the task
        (which commits the current layer's buffers), run it, report how it
        ended, and for a PublishTask refresh the status of exactly the roles
        the task had a server for. Validation having passed, every server
        lookup in `getPublishTask` succeeds. */
    method RunPublishTask(run: Task -> TaskRun) returns (report: PublishReport)
      requires Valid()
      requires SelectionsResolve(registry, dataCombo, metaCombo)
      modifies this`fieldsToPublish, this`metadata, this`layerMetadata, this`env,
               this`isDataPublished, this`isMetadataPublished, this`canPublish
      ensures Valid()
      ensures report.Ran? && report.notice == NoticeFor(run(report.task).exception)
      ensures fieldsToPublish == old(CommittedFields())
      ensures metadata == old(CommittedMetadata()) && layerMetadata == old(CommittedLayerMetadata())
      ensures Ok(report.task) == BuildTask(options, registry, dataCombo, metaCombo, CheckedNames(layers, checked), fieldsToPublish)
      ensures AfterRun(report.task, run, old(isDataPublished), old(isMetadataPublished), old(canPublish))
    {
      var t := GetPublishTask();
      assert t.Ok?;
      report := RunTask(t.value, run);
    }

    /** What running `task` leaves behind, given the status dictionaries
        and the publish gate before the run: the servers answer as they do
        once the run is over, and for a PublishTask the status of exactly
        the roles the task had a server for is refreshed from them; an
        ExportTask leaves the status alone. */
    ghost predicate AfterRun(task: Task, run: Task -> TaskRun, data: map<string, bool>, meta: map<string, bool>, gate: bool)
      reads this`env, this`layers, this`dataCombo, this`metaCombo, this`isDataPublished, this`isMetadataPublished, this`canPublish
    {
      && env == run(task).envAfter
      && (task.PublishTask? ==>
            && isDataPublished == (if task.geodata.Some? then RefreshData(data, layers, registry, dataCombo, env) else data)
            && isMetadataPublished == (if task.metadata.Some? then RefreshMetadata(meta, layers, registry, metaCombo, env) else meta)
            && canPublish == PublishGate(task.geodata.Some?, task.metadata.Some?, layers, registry, dataCombo, metaCombo, env))
      && (task.ExportTask? ==> isDataPublished == data && isMetadataPublished == meta && canPublish == gate)
    }

    /** Running a built task: `execute(task.run)`, the notice for how it
        ended, and for a PublishTask `updateLayersPublicationStatus` for the
        roles the task had a server for. */
    method RunTask(task: Task, run: Task -> TaskRun) returns (report: PublishReport)
      requires Valid()
      ensures Valid()
      modifies this`env, this`isDataPublished, this`isMetadataPublished, this`canPublish
      ensures report == Ran(task, NoticeFor(run(task).exception))
      ensures AfterRun(task, run, old(isDataPublished), old(isMetadataPublished), old(canPublish))
    {
      var result := run(task);
      env := result.envAfter;
      report := Ran(task, NoticeFor(result.exception));
      if task.PublishTask? {
        UpdateLayersPublicationStatus(task.geodata.Some?, task.metadata.Some?);
      }
    }

    /** `importMetadata`: with a current layer, load the conventional
        metadata file next to its source (or the one the user picks); on
        success the layer and its buffer take the loaded metadata and the
        text fields show it, discarding unstored edits; a file that cannot be
        converted changes nothing. */
    method ImportMetadata(fileExists: string -> bool, manualChoice: Option<string>, load: (Layer, string) -> Result<Metadata>)
      returns (report: ImportReport)
      requires Valid()
      modifies this`metadata, this`layerMetadata, this`view
      ensures Valid()
      ensures old(currentLayer).None? ==> report == NoCurrentLayer
      ensures report.Imported? ==>
                && var l := currentLayer.value;
                && Some(report.file) == ChooseMetadataFile(l.source, fileExists, manualChoice)
                && load(l, report.file).Ok?
                && metadata == old(metadata)[l.id := load(l, report.file).value]
                && layerMetadata == old(layerMetadata)[l.id := load(l, report.file).value]
                && view == PopulateView(load(l, report.file).value, old(view), languages)
      ensures !report.Imported? ==> metadata == old(metadata) && layerMetadata == old(layerMetadata) && view == old(view)
      ensures currentLayer.Some? ==>
                (report.Imported? <==> && ChooseMetadataFile(currentLayer.value.source, fileExists, manualChoice).Some?
                                       && load(currentLayer.value, ChooseMetadataFile(currentLayer.value.source, fileExists, manualChoice).value).Ok?)
    {
      if currentLayer.None? {
        return NoCurrentLayer;
      }
      var layer := currentLayer.value;
      var file := ChooseMetadataFile(layer.source, fileExists, manualChoice);
      if file.None? {
        return NoFile;
      }
      var loaded := load(layer, file.value);
      if loaded.Raised? {
        return ConversionFailed;
      }
      layerMetadata := layerMetadata[layer.id := loaded.value];
      metadata := metadata[layer.id := loaded.value];
      view := PopulateView(loaded.value, view, languages);
      report := Imported(file.value);
    }
  }
}
