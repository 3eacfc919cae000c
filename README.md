# GeoCat Bridge publish widget: the orchestration core

This project models, in Dafny, the logic inside the GeoCat Bridge QGIS
plugin's publish widget (`geocatbridge/ui/publishwidget.py`) once its Qt
presentation is stripped away:

- the list of publishable layers, built by flattening the project's layer
  tree (`publishableLayers`, `_layersFromTree`), and the lookup by name
  (`layerFromName`);
- the two server selections (geodata and metadata combos, item 0 meaning
  "do not publish"), and the publication-status dictionaries
  `isDataPublished` / `isMetadataPublished` with the publish gate, as
  `updateLayersPublicationStatus`, the single-entry updates and
  `unpublishData` / `unpublishMetadata` / `unpublishAll` write them;
- the per-layer edit buffers (`fieldsToPublish`, `metadata`) with
  commit-on-switch (`populateLayers`, `currentRowChanged`,
  `storeFieldsToPublish`, `storeMetadata`, `populateLayerFields`,
  `populateLayerMetadata`);
- pre-publication validation of the checked names
  (`validateBeforePublication`, `_toPublish`), task construction
  (`getPublishTask`) and what `publish` does after a run;
- the metadata-file fallback of `importMetadata`, and the keyword
  flattening of `populateLayerMetadata`.

The widget itself is the class `Session.PublishSession`. Its fields are the
widget's state. Each of its methods is one of the widget's methods, or one
stage of one. The pure parts are functions and lemmas in the other modules:

| module | file | contents |
|---|---|---|
| `Util` | util.dfy | Option/Result/Outcome, the exception kinds, `",".join` and its inverse |
| `Paths` | paths.dfy | `os.path.splitext` and the `.xml` candidates of `importMetadata` |
| `LayerMetadata` | metadata.dfy | metadata buffers, the metadata text fields, keyword flattening |
| `Layers` | layers.dfy | layers, the layer tree, `publishableLayers`, `layerFromName` |
| `Servers` | servers.dfy | server registry, combos, the servers' answers (`Env`), connection checks |
| `Status` | status.dfy | `isDataOnServer` / `isMetadataOnServer`, status refresh, publish gate, deletions |
| `Fields` | fields.dfy | field dictionaries and the fields table |
| `Validation` | validation.dfy | `_toPublish` and `validateBeforePublication` |
| `Buffers` | buffers.dfy | the initial buffers and the invariant between events |
| `Tasks` | tasks.dfy | `getPublishTask`'s task, the post-run notice |
| `Session` | session.dfy | the widget class |

Foreign behaviour is modelled as data, not as code:
- Servers are opaque identifiers.
- The answers of the server methods (`testConnection`, `layerExists`,
  `metadataExists`, `deleteLayer`, `deleteStyle`, `deleteMetadata`, the two
  validation hooks) and of `uuidForLayer` are a value `Servers.Env`. It
  holds finite maps of the answers that differ from a default.
- A task run is a function from the task to how it ended and what the
  servers answer afterwards.
- `importMetadata`'s file-existence test, its dialogs and
  `loadMetadataFromXml` are parameters.
- The widget's Python dictionaries keyed by layer object are keyed by a
  layer identity (`Layers.LayerId`).

Where the code and an idealised reading of the widget differ, the model
follows the code:
- A role whose selected server does not resolve or does not connect keeps
  its status entries. They are not reset to "not published".
- `unpublishData` stops at a failing `deleteStyle` and does not mark the
  layer unpublished.
- `unpublishAll` walks only the keys of `isDataPublished` and stops at the
  first exception.
- `validateBeforePublication` raises `KeyError` for a stale server name.
  Because the hooks may change the error set in any way, the model does
  not assume they only add errors.

## Model

| member | source | states |
|---|---|---|
| Util.Join | geocatbridge/ui/publishwidget.py:184-189 | joining a single part gives that part |
| Util.SplitJoin | geocatbridge/ui/publishwidget.py:184-189 | the comma-joined text splits back into exactly the parts when no part holds a comma |
| Paths.SplitExt | geocatbridge/ui/publishwidget.py:343 | root + extension is the path; the extension is empty or a '.' with no further '.' or '/'; it is non-empty iff the last '.' follows the last '/' with a non-'.' character before it in the file name, and then the root ends just before that '.' |
| Paths.SplitExtShapefile | geocatbridge/ui/publishwidget.py:343 | a shapefile path splits into its root and `.shp` |
| Paths.SplitExtHiddenFile | geocatbridge/ui/publishwidget.py:343 | a hidden file's leading dot is no extension |
| Paths.SplitExtDottedDirectory | geocatbridge/ui/publishwidget.py:343 | a dot in a directory name is no extension |
| Paths.MetadataFileFor | geocatbridge/ui/publishwidget.py:343-347 | the candidate is the source with its extension replaced by `.xml` if that exists, else source + `.xml` if that exists, else none; a candidate always exists on disk |
| Paths.XmlBesideSourceSplits | geocatbridge/ui/publishwidget.py:343 | the first candidate splits into the source's root and the extension `.xml` |
| Paths.ChooseMetadataFile | geocatbridge/ui/publishwidget.py:343-357 | a conventional candidate wins over the user's choice; without one, a non-empty manual pick is loaded; a cancelled or declined choice (empty or none) loads nothing |
| LayerMetadata.KeywordGroupFirst | geocatbridge/ui/publishwidget.py:183 | `keywords().get(v, [])` is the first entry of the vocabulary, or empty when it is absent |
| LayerMetadata.FlattenKeywordsMembers | geocatbridge/ui/publishwidget.py:185-187 | a keyword is shown iff some vocabulary holds it |
| LayerMetadata.FlattenKeywordsAppend | geocatbridge/ui/publishwidget.py:185-187 | flattening goes vocabulary by vocabulary, in order |
| LayerMetadata.CollectKeywords | geocatbridge/ui/publishwidget.py:185-187 | the `extend` loop yields every vocabulary's keywords in order |
| LayerMetadata.TopicsAmongKeywords | geocatbridge/ui/publishwidget.py:183-188 | every ISO topic shown is also among the keywords shown |
| LayerMetadata.KeywordsTextRoundTrip | geocatbridge/ui/publishwidget.py:185-188 | the keywords text loses no keyword when none holds a comma |
| LayerMetadata.FilledLanguageCombo | geocatbridge/ui/publishwidget.py:290-292 | after `addItems(parseLanguages())` the combo's selection is one of the languages (the first) |
| LayerMetadata.PopulateView | geocatbridge/ui/publishwidget.py:179-198 | title and abstract show the buffer's; both contact fields show the first contact, or keep their text when there is none; access constraints show the first licence or ""; the language combo shows the buffer's language iff it is one of the listed languages, and otherwise keeps its selection |
| LayerMetadata.StoreView | geocatbridge/ui/publishwidget.py:218-224 | storing writes only title, abstract and language; keywords, contacts, fees and licences are kept |
| LayerMetadata.ViewRoundTrip | geocatbridge/ui/publishwidget.py:179-224 | storing unedited fields leaves the buffer unchanged when its language is listed in the combo (or already selected); an unlisted language is overwritten by the combo's selection; stored title, abstract and a listed language show again after a repopulate |
| Layers.LayersFromTreeMembers | geocatbridge/ui/publishwidget.py:255-263 | flattening the tree loses no layer leaf and invents none |
| Layers.LayersFromTreeAppend | geocatbridge/ui/publishwidget.py:255-263 | flattening is depth first in child order |
| Layers.FilterPublishableMembers | geocatbridge/ui/publishwidget.py:265-267 | the filter keeps exactly the vector/raster layers not served by WMS |
| Layers.FilterPublishableAppend | geocatbridge/ui/publishwidget.py:265-267 | the filter keeps the order of the layers it keeps |
| Layers.PublishableLayersMembers | geocatbridge/ui/publishwidget.py:254-268 | a layer is offered iff it is a leaf of the tree and publishable |
| Layers.PublishableLayersAppend | geocatbridge/ui/publishwidget.py:254-268 | the offered layers of sibling runs concatenate in order |
| Layers.LayerFromNameFirst | geocatbridge/ui/publishwidget.py:633-637 | the result is the first layer with the name, and none iff no layer has it |
| Servers.GeodataCombo | geocatbridge/ui/publishwidget.py:294-297 | the geodata combo is "Do not publish data" then the server names in order, item 0 current |
| Servers.MetadataCombo | geocatbridge/ui/publishwidget.py:299-302 | the metadata combo is "Do not publish metadata" then the server names in order, item 0 current |
| Servers.Resolve | geocatbridge/ui/publishwidget.py:432 | the lookup by current text succeeds iff the text is a configured name, giving that server |
| Servers.Env.AfterLayerDeleted | geocatbridge/ui/publishwidget.py:400 | after a successful `deleteLayer` that server reports the layer absent; every other answer is unchanged |
| Servers.Env.AfterMetadataDeleted | geocatbridge/ui/publishwidget.py:407 | after a successful `deleteMetadata` that server reports the record absent; every other answer is unchanged |
| Servers.OnlyDeletionsSteps | geocatbridge/ui/publishwidget.py:398-408 | "only deletions" is reflexive and transitive, and each single delete is one |
| Servers.UsableServer | geocatbridge/ui/publishwidget.py:431-441 | a role's server is used iff it resolves and passes `testConnection` |
| Servers.CheckServer | geocatbridge/ui/publishwidget.py:430-454 | one role's block yields the usable server when refreshed, and reports a failure only for a resolved server that does not connect |
| Servers.NoSelectionKeepsGateOpen | geocatbridge/ui/publishwidget.py:439-441 | a selection that raises KeyError gives no server and never closes the gate |
| Servers.UnreachableServerClosesGate | geocatbridge/ui/publishwidget.py:433-438 | a resolved server that fails `testConnection` is not used and closes the gate |
| Status.LayerNames | geocatbridge/ui/publishwidget.py:456-459 | row i of the list carries layer i's name |
| Status.QueriesTrueOnlyOnPositiveAnswer | geocatbridge/ui/publishwidget.py:321-338 | the two existence queries are true only on a positive answer from a resolved server; lookup failures and raised queries give false |
| Status.RefreshedEntries | geocatbridge/ui/publishwidget.py:456-470 | after the row loop every listed name holds its answer, other entries are untouched, and only listed names are added |
| Status.RefreshedStep | geocatbridge/ui/publishwidget.py:456-470 | the row loop advances one row by writing that row's answer |
| Status.RefreshRows | geocatbridge/ui/publishwidget.py:456-471 | the loop writes each role with a usable server and leaves the other role's dictionary alone |
| Status.RefreshDataEntries | geocatbridge/ui/publishwidget.py:460-464 | with a usable geodata server each listed entry is `isDataOnServer(name)` and every other entry is unchanged |
| Status.RefreshedTwice | geocatbridge/ui/publishwidget.py:456-470 | refreshing twice against the same answers is the same as once |
| Status.RefreshMetadataTwice | geocatbridge/ui/publishwidget.py:84-131 | the second metadata refresh of `_setupUi` changes nothing |
| Status.RefreshWithoutServerKeepsStatus | geocatbridge/ui/publishwidget.py:460-470 | a role without a usable server keeps its dictionary |
| Status.PublishGateCases | geocatbridge/ui/publishwidget.py:428-475 | the gate is closed with no layers or when a refreshed role's server fails to connect; with no role refreshed it is open iff there are layers |
| Status.DataDeletion | geocatbridge/ui/publishwidget.py:398-402 | unpublishing data raises KeyError for a stale selection, and passes iff the layer and then its style are deleted |
| Status.MetadataDeletion | geocatbridge/ui/publishwidget.py:404-408 | unpublishing metadata raises KeyError for a stale selection, and passes iff the server resolves, a layer has that name, its UUID is derived and `deleteMetadata` passes |
| Status.EnvAfterDataDeletion | geocatbridge/ui/publishwidget.py:398-402 | the servers after `unpublishData` differ from before only by deletions |
| Status.EnvAfterMetadataDeletion | geocatbridge/ui/publishwidget.py:404-408 | the servers after `unpublishMetadata` differ from before only by deletions |
| Status.DataDeletionForgetsLayer | geocatbridge/ui/publishwidget.py:398-402 | after a successful data deletion `isDataOnServer` is false for that name and unchanged for every other name |
| Status.MetadataDeletionForgetsRecord | geocatbridge/ui/publishwidget.py:404-408 | after a successful metadata deletion `isMetadataOnServer` is false for that name |
| Fields.InitialFieldsEntries | geocatbridge/ui/publishwidget.py:273-274 | a vector layer starts with exactly its fields, all true; any other layer with an empty dictionary |
| Fields.FieldRows | geocatbridge/ui/publishwidget.py:201-216 | one table row per field, in field order, checked as the dictionary says |
| Fields.ShowFieldRows | geocatbridge/ui/publishwidget.py:204-213 | the loop filling the table builds exactly those rows |
| Fields.RowsToMapKeys | geocatbridge/ui/publishwidget.py:226-235 | the stored dictionary is keyed by exactly the names in the table |
| Fields.RowsToMapLastRowWins | geocatbridge/ui/publishwidget.py:230-234 | a name is stored with the check state of its last row |
| Fields.RowsToMapShowsRows | geocatbridge/ui/publishwidget.py:226-235 | with distinct names every row is stored as displayed |
| Fields.FieldRowsRoundTrip | geocatbridge/ui/publishwidget.py:201-235 | showing a layer's dictionary and storing it back with no edit gives the same dictionary |
| Fields.InitialFieldsShowAllChecked | geocatbridge/ui/publishwidget.py:272-274 | a freshly listed vector layer shows every field checked |
| Validation.UnsupportedCharMessage | geocatbridge/ui/publishwidget.py:571 | the message ends with the offending character |
| Validation.CheckedNamesMembers | geocatbridge/ui/publishwidget.py:598-606 | the names to publish are exactly those of checked rows |
| Validation.CheckedNamesSnoc | geocatbridge/ui/publishwidget.py:598-606 | one more row appends its name iff it is checked |
| Validation.ToPublish | geocatbridge/ui/publishwidget.py:598-606 | the loop yields the checked names in list order |
| Validation.NameErrorsStep | geocatbridge/ui/publishwidget.py:564-574 | one more name adds its character messages, plus the duplicate message if seen before |
| Validation.CollectNameErrors | geocatbridge/ui/publishwidget.py:562-574 | the accumulating loop yields the name errors of the whole list |
| Validation.MessagesDistinct | geocatbridge/ui/publishwidget.py:571-573 | different characters give different messages, never the duplicate message |
| Validation.NameErrorsForChar | geocatbridge/ui/publishwidget.py:569-571 | a forbidden character has a message iff some checked name holds it; no other character ever has one |
| Validation.NameErrorsDuplicate | geocatbridge/ui/publishwidget.py:572-574 | the duplicate message is present iff some name repeats |
| Validation.NameErrorsBounded | geocatbridge/ui/publishwidget.py:564-574 | the name checks give at most five messages, one per character and one for duplicates |
| Validation.ValidateWithoutServers | geocatbridge/ui/publishwidget.py:576-596 | with both combos at index 0 only the name checks decide: publishing may go ahead iff no name repeats or holds a forbidden character |
| Validation.BadNameRefusedWithoutServers | geocatbridge/ui/publishwidget.py:569-596 | with no server selected, a forbidden character refuses publication and its message is reported |
| Buffers.InitialBuffersKeys | geocatbridge/ui/publishwidget.py:272-275 | both buffers are keyed by exactly the listed layers |
| Buffers.InitialBuffersEntries | geocatbridge/ui/publishwidget.py:272-275 | each listed layer's buffers hold its initial fields and a copy of its metadata |
| Buffers.PopulatedInvariant | geocatbridge/ui/publishwidget.py:270-277 | the freshly populated widget satisfies the invariant between events |
| Buffers.CommitFieldsKeepsInvariant | geocatbridge/ui/publishwidget.py:226-235 | committing the fields table keeps every vector layer's dictionary keyed by exactly its fields and every other layer's empty |
| Buffers.UneditedCommitKeepsFields | geocatbridge/ui/publishwidget.py:226-235 | committing a vector layer's table with no edit leaves every dictionary as it was |
| Buffers.CommitMetadataKeepsInvariant | geocatbridge/ui/publishwidget.py:218-224 | writing a metadata buffer keeps the invariant |
| Buffers.SwitchKeepsInvariant | geocatbridge/ui/publishwidget.py:165-216 | making a row current and showing its fields keeps the invariant; a vector layer's dictionary is keyed by exactly its fields |
| Buffers.PopulateRows | geocatbridge/ui/publishwidget.py:271-276 | the loop lists every publishable layer unchecked, with its initial buffers |
| Tasks.SelectedServer | geocatbridge/ui/publishwidget.py:615-623 | index 0 means no server; otherwise KeyError iff the text does not resolve, and the resolved server when it does |
| Tasks.BuildTask | geocatbridge/ui/publishwidget.py:612-630 | tab 0 gives a PublishTask and any other tab an ExportTask, over the checked names and committed fields; it fails only with KeyError, and only on tab 0 with a stale selection |
| Tasks.PublishTaskServers | geocatbridge/ui/publishwidget.py:614-627 | a PublishTask lacks a role's server iff that combo is at index 0; otherwise the server is the one the combo's text resolves to |
| Tasks.OfflineBuildsExport | geocatbridge/ui/publishwidget.py:628-630 | any tab but the first builds the export with the export options |
| Tasks.ValidationResolvesSelections | geocatbridge/ui/publishwidget.py:576-584 | once validation returns, the task lookups of both roles succeed |
| Tasks.NoticeFor | geocatbridge/ui/publishwidget.py:538-545 | no notice iff no exception; "server unavailable" iff a connection error |
| Session.PublishSession.constructor | geocatbridge/ui/publishwidget.py:72-82 | empty dictionaries, no current row or layer, the given language list |
| Session.PublishSession.SetupUi | geocatbridge/ui/publishwidget.py:84-132 | combos filled; every publishable layer listed and checked; first row current; initial buffers; data status refreshed once; metadata status refreshed (twice, same as once); the gate as the last refresh leaves it |
| Session.PublishSession.PopulateComboBoxes | geocatbridge/ui/publishwidget.py:287-302 | both combos list their role's servers after the "do not publish" item; the language combo selects the first listed language |
| Session.PublishSession.ShowLayers | geocatbridge/ui/publishwidget.py:120-132 | first row current, metadata role refreshed, every row checked, buffers untouched |
| Session.PublishSession.ShowFirstLayer | geocatbridge/ui/publishwidget.py:120-123 | the first row (if any) becomes current without committing any buffer |
| Session.PublishSession.PopulateLayers | geocatbridge/ui/publishwidget.py:270-277 | the publishable layers with initial buffers, then both roles refreshed and the gate recomputed |
| Session.PublishSession.AddLayerRows | geocatbridge/ui/publishwidget.py:271-276 | one unchecked row per publishable layer with its initial buffers; the invariant holds |
| Session.PublishSession.SelectLabelClicked | geocatbridge/ui/publishwidget.py:159-163 | "none" unchecks every row, anything else checks every row |
| Session.PublishSession.SetFieldChecked | geocatbridge/ui/publishwidget.py:209-211 | ticking one table row changes only that row's check state |
| Session.PublishSession.UpdateLayersPublicationStatus | geocatbridge/ui/publishwidget.py:428-475 | only the roles asked for are refreshed, each only when its server is usable; the gate is `PublishGate` |
| Session.PublishSession.SelectGeodataServer | geocatbridge/ui/publishwidget.py:139-140 | changing the geodata selection refreshes the data role only; reselecting the same item does nothing |
| Session.PublishSession.SelectMetadataServer | geocatbridge/ui/publishwidget.py:142-143 | changing the metadata selection refreshes the metadata role only |
| Session.PublishSession.StoreFieldsToPublish | geocatbridge/ui/publishwidget.py:226-235 | a current vector layer's dictionary becomes the table read back; otherwise nothing changes |
| Session.PublishSession.UneditedCommitChangesNothing | geocatbridge/ui/publishwidget.py:165-235 | switching rows without editing the table leaves `fieldsToPublish` unchanged |
| Session.PublishSession.StoreMetadata | geocatbridge/ui/publishwidget.py:218-224 | the current layer's buffer and the layer itself take the edited fields |
| Session.PublishSession.CurrentRowChanged | geocatbridge/ui/publishwidget.py:165-177 | the current row again changes nothing; otherwise both buffers are committed before the switch, and the new layer's buffers are shown |
| Session.PublishSession.ShowLayer | geocatbridge/ui/publishwidget.py:179-216 | the row and layer become current; the text fields show its buffer; a vector layer's table shows its fields |
| Session.PublishSession.UpdateLayerIsDataPublished | geocatbridge/ui/publishwidget.py:419-426 | exactly that name's data entry is set |
| Session.PublishSession.UpdateLayerIsMetadataPublished | geocatbridge/ui/publishwidget.py:410-417 | exactly that name's metadata entry is set |
| Session.PublishSession.UnpublishData | geocatbridge/ui/publishwidget.py:398-402 | on success exactly that name's entry becomes false; on an exception the entry is unchanged; the servers then answer as `EnvAfterDataDeletion` says |
| Session.PublishSession.UnpublishMetadata | geocatbridge/ui/publishwidget.py:404-408 | on success exactly that name's entry becomes false; on an exception the entry is unchanged; the servers then answer as `EnvAfterMetadataDeletion` says |
| Session.PublishSession.UnpublishName | geocatbridge/ui/publishwidget.py:478-482 | one round changes only that name's entries, only from true to false, and a pass leaves both false; the servers change only by deletions |
| Session.PublishSession.UnpublishAll | geocatbridge/ui/publishwidget.py:477-482 | keys never change and entries only go true to false; on success every data entry is false, and a metadata entry is false iff it was false or its name is a data key; the servers change only by deletions |
| Session.PublishSession.ValidateBeforePublication | geocatbridge/ui/publishwidget.py:561-596 | the loop and hooks compute `Validate` over the checked names |
| Session.PublishSession.GetPublishTask | geocatbridge/ui/publishwidget.py:608-630 | both buffers are committed, then the task is built over the committed fields |
| Session.PublishSession.Publish | geocatbridge/ui/publishwidget.py:524-547 | a raised validation aborts and a non-empty error set refuses, both changing nothing; otherwise the task is built, run and classified, and the status of exactly its roles is refreshed |
| Session.PublishSession.RunPublishTask | geocatbridge/ui/publishwidget.py:528-547 | after validation passed, building the task cannot fail; the run and the refresh follow |
| Session.PublishSession.RunTask | geocatbridge/ui/publishwidget.py:534-547 | the notice follows the exception; a PublishTask refreshes exactly the roles it had a server for; an ExportTask leaves the status alone |
| Session.PublishSession.ImportMetadata | geocatbridge/ui/publishwidget.py:340-368 | with a current layer and a file that loads, the layer, its buffer and the text fields take the loaded metadata; otherwise nothing changes |

## Left out

- Qt and QGIS presentation is not modelled: list items, icons, style sheets, the message bar, dialogs, the progress dialog, and `print` calls. The icons set by `updateLayerIs*Published` and `updateLayersPublicationStatus` are left out, but their dictionary writes are modelled.
- `publishOnBackground` (lines 549-559): background execution through the QGIS task manager. As written it also calls `validateBeforePublication()` without its argument.
- `viewWms`, `viewAllWms`, `viewMetadata`, `previewMetadata` and the context menu: floating-point bounding boxes, reprojection and preview windows on the server.
- `validateMetadata` and `openMetadataEditor`: QGIS's metadata validator and the metadata dialog are library code.
- `selectExportFolder`: the export folder is part of `Tasks.TaskOptions`.
- The metadata-profile tabs of `metadataServerChanged` (lines 144-157).
- `parseLanguages()` is library code: the language list it returns is the session's `languages` parameter.
- `updateServers` (lines 304-319): combo repopulation with signal wiring.
- Server implementations, `uuidForLayer` and `loadMetadataFromXml` are not part of this model. Their answers are `Servers.Env` or parameters.
- Session.PublishSession.UnpublishAll: the key order of a Python dictionary is not modelled; the walk takes the keys in any order, so after a failure the contract says only which entries may have changed.
- Session.PublishSession.UnpublishData: the "repeat is a no-op" property is not a separate lemma. On the status dictionary it follows from the contract whatever the second call's outcome: the second call either writes `[name := false]` again, which gives the same map, or changes nothing. What the servers answer to the repeated delete is theirs to decide and is not constrained.
- Session.PublishSession.UnpublishData: a successful `deleteStyle` is not reflected in the servers' answers, because no modelled operation queries styles.
- Session.PublishSession.UnpublishMetadata: same as UnpublishData for the repeat.
- Session.PublishSession.UnpublishAll: the servers' answers afterwards are stated only as `OnlyDeletions` of the answers before, not exactly, because the key order is not modelled.
- Session.PublishSession.CurrentRowChanged: the source sets `currentRow` before it stores the buffers; the model stores first. The stores read only `currentLayer`, so the result is the same.
- Session.PublishSession.SetupUi: `setCurrentItem` also emits `currentRowChanged(0)` before line 123 calls it. The second call finds row 0 already current and does nothing, so the model makes one call.
- Session.PublishSession.ValidateBeforePublication: the hooks change the error set in place; the model passes the set and takes the new one back.
- Validation.NameErrorsBounded: only an upper bound on the number of messages; which ones occur is stated by NameErrorsForChar and NameErrorsDuplicate.
- Util.Join: its own contract covers only a single part. The round trip with `Util.Split` is `Util.SplitJoin`.
- Paths: paths are POSIX paths ('/' separator, as `posixpath`); Windows separators, drive letters and `ntpath.splitext` are not modelled.
- `QgsMessageLog.logMessage` (line 545): logging the traceback is I/O and is not modelled; the notice it accompanies is.
