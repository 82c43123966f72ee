# DataCore / Tsepamo data pipeline — a Dafny model

This project models the data-shaping core of the DataCore/Tsepamo Django
application. That core is the pipeline through which clinical-research
records enter and leave the Tsepamo database, plus a handful of account rules.

- **CSV ingestion** (`LoadCSVData`) decodes REDCap "checkbox" columns
  (`base___option`) into one ", "-joined field. It coerces every field
  by its declared type and inserts a record only when no row with its
  `record_id` exists yet (`choice.dfy`, `ingest.dfy`).
- **The export engine** (`prepare_export_data_task` and helpers) projects
  the requested fields and reads every model page by page. It merges the
  rows of all models by `record_id`, with the later model winning
  (`export_engine.dfy`).
- **The export job** covers the `ExportFile` record, the timestamped file
  name, the default model list and start condition of `GenerateDataExports`,
  the writer chosen per type, the completion update of `send_email_task`,
  and the `extension`, size unit, status and action of an export file
  (`export_job.dfy`). The template filters `sizify`, `construct_table_id`
  and `render_datatable` are in `template_tags.dfy`.
- **The catalog** is made of `Projects`, `InstrumentsMeta` and their
  uniqueness constraints. It includes the idempotent seeding command
  `load_instruments_meta` (`catalog.dfy`) and the dashboard helpers of
  `views/data_exports.py` (`catalog_views.dfy`).
- **The `migrate_data` command** drops `id`, renames keys through a
  mapping and merges in the formatted target fields (`migration.dfy`).
- **The `pull_tsepamo_redcap_data` command** selects projects and
  dispatches them in map order (`pull_command.dfy`).
- **The account rules** cover user initials and `set_email_as_primary`
  (`accounts.dfy`), and the case-insensitive email lookups
  (`account_lookups.dfy`). They also cover the allauth adapter's
  `confirm_email`, `clean_username`, `validate_unique_email`,
  `should_send_confirmation_mail` and `pre_login` (`account_adapter.dfy`),
  and `EmailConfirmationHMAC.from_key`/`confirm` (`email_confirmation.dfy`).

## How the model is built

The ORM is an abstract store (`store.dfy`):
- `Registry` is the app's model declarations. Each declaration has a
  lower-case name, a verbose name and its fields in declaration order.
- `Db` maps each model name to its rows in table order. A row maps field
  names to values.

Python's string operations are written out exactly in `text.dfy`:
- `str.split` with a Join round trip, `str.strip` with Python's whitespace
  set, and an ASCII `str.lower`.

The result and error types are in `wrappers.dfy`. Generic sequence helpers
are in `seqs.dfy`.

The model's boundary works as follows:
- An exception the modelled code raises or lets escape becomes an error
  value naming it. Where earlier writes persist, the error comes with the
  state left behind (`Saved`, `Outcome`, `Loaded`, `Created`).
- Clocks, database-assigned keys, validators, signing and calls into
  libraries that are not part of this model become parameters.

## Model

| member | source | states |
|---|---|---|
| Text.Split | tsepamo/utils.py:13-14 | `str.split(sep)`: joining the pieces with `sep` gives the input back; no piece contains `sep`; there is more than one piece iff `sep` occurs; the first piece is the text before the first occurrence |
| Text.SplitLeftmost | tsepamo/utils.py:13-14 | each separator between two pieces is the leftmost occurrence after the piece before it: `sep` starts nowhere inside that piece, even overlapping into the separator, so with the join the pieces are fixed |
| Text.NoSepReachingFirst | tsepamo/utils.py:13-14 | no occurrence of the separator starts before the first one, even one overlapping into it |
| Text.SplitAppendJoin | tsepamo/utils.py:20-22 | splitting on ", ", appending a label and joining again is the old value + ", " + label |
| Text.Strip | tsepamo/utils.py:16 | `str.strip()`: the result is the infix left after the leading whitespace run, only whitespace follows it, and it neither starts nor ends with whitespace |
| Text.Lower | authentication/adapter.py:37-41 | `str.lower()` on ASCII: same length, each letter A–Z mapped to its lower-case form and every other character kept |
| Text.LowerIdempotent | authentication/utils.py:10 | lower-casing twice equals lower-casing once, so the `iexact` comparison treats a string and its lower-case form alike |
| Store.GetModel | tsepamo/export_utils.py:78 | the model lookup of `apps.get_model` inside one app's registry: a found model is in the registry under the lower-cased name; not found means no model has that name (`LookupError`) |
| Store.FieldNames | tsepamo/export_utils.py:199 | the model's field names, one per field, in declaration order |
| Choice.MapChoiceData | tsepamo/utils.py:12-24 | returns true iff the key contains `___`; a plain key leaves the record unchanged; a checkbox key changes only the `base` entry: a first column sets it to its option label (or `None`), a later ticked label is appended after ", " only when the current value is non-empty and different |
| Choice.MergeOption | tsepamo/utils.py:17-22 | `setdefault` followed by the conditional append: `base` is present afterwards, no other key changes, and the new value is the label when `base` was absent, otherwise current + ", " + label exactly when both are non-empty and differ |
| Choice.SplitSecondIsLabel | tsepamo/utils.py:13-16 | for a key containing `___`, `split('___')[0]` is the text before the first `___` and `split('___')[1]` is the option label up to the next `___` |
| Choice.ReadCsvData | tsepamo/utils.py:26-37 | one record per input row, in row order, each the record the column loop builds from that row |
| Choice.StepFrame | tsepamo/utils.py:32-35 | a column whose key is neither `key` nor a checkbox column of base `key` leaves entry `key` (present or absent) as it was |
| Choice.PlainColumnVerbatim | tsepamo/utils.py:32-35 | a plain column that no later column touches is copied into the record verbatim |
| Choice.UnselectedFirstOptionPins | tsepamo/utils.py:16-19 | when the first checkbox column of a question is not ticked, the question decodes to that first contribution (`None`) whatever later columns hold |
| Choice.SelectedOptionsJoined | tsepamo/utils.py:12-23 | when the first checkbox column of a question is ticked and the ticked labels are distinct and comma-free, the question decodes to the ticked labels in column order joined with ", " |
| Choice.JoinedAtOwnColumn | tsepamo/utils.py:17-22 | the inductive step of the previous row when the last column belongs to the question: its ticked label is appended to the joined prefix |
| Choice.AppendStep | tsepamo/utils.py:19-22 | applied to a value that is the join of earlier labels, a ticked new comma-free label is appended and an unticked one changes nothing |
| Choice.ShortChoiceKey | tsepamo/utils.py:13-16 | a header `b___o` is a checkbox column with base `b` and stripped label `o` |
| Choice.ExampleStep1 | tsepamo/utils.py:15-17 | the ticked first column `v___a` sets `v` to "a" |
| Choice.ExampleStep2 | tsepamo/utils.py:16-19 | the unticked column `v___b` ("0") leaves `v` at "a" |
| Choice.ExampleStep3 | tsepamo/utils.py:19-22 | the ticked column `v___c` turns `v` = "a" into "a, c" |
| Choice.CheckboxExample | tsepamo/utils.py:12-23 | the row `v___a`="1", `v___b`="0", `v___c`="1" decodes to `v` = "a, c" |
| Ingest.Coerce | tsepamo/utils.py:51-65 | an empty or missing cell becomes NULL; a plain field keeps the text; a typed field holds its parser's result, and a failed parse is an error rather than NULL; a converted value always fits the field's type |
| Ingest.FormatRecord | tsepamo/utils.py:45-65 | a failure is a conversion error naming the model being loaded |
| Ingest.FormatRecordSucceeds | tsepamo/utils.py:47-65 | formatting a record succeeds iff every non-`record_id` field's cell converts |
| Ingest.FormatRecordKeys | tsepamo/utils.py:47-50 | the formatted record has exactly one entry per model field other than `record_id`, missing cells included |
| Ingest.FormatRecordValues | tsepamo/utils.py:48-65 | each formatted entry is the coercion of that field's cell by the field's type |
| Ingest.LoadRecord | tsepamo/utils.py:45-75 | loading succeeds iff the record formats and the model has `record_id`, and a formatting error is passed on unchanged; an existing `record_id` leaves the rows unchanged; otherwise exactly one row is appended: the formatted record plus the raw `record_id`, so with distinct field names each field holds the coercion of its cell; afterwards the `record_id` is present |
| Ingest.LoadRecordKeepsIdsUnique | tsepamo/utils.py:67-75 | insert-if-absent never creates a second row for a `record_id` |
| Ingest.LoadRecords | tsepamo/utils.py:45-75 | loading a batch only appends rows (existing rows are never modified), error or not; it never raises an unknown-model error |
| Ingest.LoadRecordsKeepsIdsUnique | tsepamo/utils.py:45-75 | a table whose `record_id`s are unique keeps them unique after a batch load |
| Ingest.LoadRecordsFilesAll | tsepamo/utils.py:45-75 | after a successful batch, every record of the batch has a row with its `record_id` |
| Ingest.LoadRecordsSaturated | tsepamo/utils.py:67-69 | when every record already has a row, the batch changes nothing |
| Ingest.LoadRecordsIdempotent | tsepamo/utils.py:45-75 | loading the same data twice leaves the table as the first load did |
| Ingest.LoadModel | tsepamo/utils.py:40-45 | an unknown model name is `LookupError` with the store unchanged, and only an unknown name gives that error; otherwise only that model's table changes, by appending |
| Ingest.LoadModelData | tsepamo/utils.py:39-75 | a `LookupError` names one of the listed models, and one that does not resolve |
| Ingest.LoadModelDataExtends | tsepamo/utils.py:39-75 | `load_model_data` only appends: every table before is a prefix of the same table after |
| Ingest.LoadModelSaturates | tsepamo/utils.py:40-75 | after a successful load of a model every record is filed there, and models already saturated stay saturated |
| Ingest.SuccessfulLoadSaturates | tsepamo/utils.py:39-75 | after a successful `load_model_data` every record is filed in every listed model |
| Ingest.LoadModelDataSaturated | tsepamo/utils.py:67-69 | when every record is already filed in every listed model, the load changes nothing |
| Ingest.LoadModelDataIdempotent | tsepamo/utils.py:39-75 | reloading the same data into the same models creates nothing, so counts stay unchanged |
| Ingest.LoadAllExtends | tsepamo/utils.py:77-80 | `load_model_data_all` only appends rows to every table |
| Ingest.LoadAll | tsepamo/utils.py:77-80 | a `LookupError` names a model listed for one of the files, and one that does not resolve |
| ExportEngine.RelatedFields | tsepamo/export_utils.py:192-203 | with no requested fields, all field names in declaration order; otherwise a requested name is kept iff it is a model field, and everything kept was requested |
| ExportEngine.RelatedFieldsAppend | tsepamo/export_utils.py:200-203 | for non-empty requests `a` and `b`, the selection for `a + b` is the selection for `a` followed by the one for `b`, so request order and repeats are kept |
| ExportEngine.RelatedFieldsSingle | tsepamo/export_utils.py:200-203 | a single requested name comes back iff it is a field of the model |
| ExportEngine.RelatedFieldsKeepsRequest | tsepamo/export_utils.py:200-203 | when every requested name is a model field, the request comes back unchanged, in request order |
| ExportEngine.Project | tsepamo/export_utils.py:167 | `values(*fields)` yields exactly the listed keys, or every field when the list is empty; each value is the row's value, or NULL when the row lacks the field |
| ExportEngine.ProjectAll | tsepamo/export_utils.py:167 | one projected row per table row, in table order |
| ExportEngine.Page | tsepamo/export_utils.py:167 | `[offset:offset + limit]`: empty past the end, otherwise `limit` rows or the rest, each the row at `offset + i` |
| ExportEngine.PagesCover | tsepamo/export_utils.py:76-88 | paging by `chunk` from `offset` until the first empty page visits every row once: the pages concatenate to the rows from `offset` on |
| ExportEngine.FetchModelData | tsepamo/export_utils.py:165-167 | a fetch is the page of the projection onto the related fields |
| ExportEngine.Absorb | tsepamo/export_utils.py:84-87 | merging one record adds exactly its `record_id` to the merged ids and keeps the earlier id order as a prefix |
| ExportEngine.AbsorbSpec | tsepamo/export_utils.py:84-87 | merging one record keeps the state valid, adds its `record_id`, sets each of its fields, keeps the id's other fields, adds nothing else and leaves other ids alone |
| ExportEngine.AbsorbAll | tsepamo/export_utils.py:84-88 | merging a batch keeps the earlier id order as a prefix |
| ExportEngine.AbsorbAllValid | tsepamo/export_utils.py:74-88 | the merge state stays valid: ids distinct and in first-seen order, one entry per id, no `record_id` inside an entry |
| ExportEngine.AbsorbAllAppend | tsepamo/export_utils.py:77-88 | merging `a + b` is merging `a` then `b`, so paging does not change the result |
| ExportEngine.Dedup | tsepamo/export_utils.py:90-94 | first-seen order: the result starts with the earlier ids, has no repeats and contains exactly the ids seen |
| ExportEngine.AbsorbAllOrder | tsepamo/export_utils.py:84-94 | the merged ids are the distinct `record_id`s in first-seen order |
| ExportEngine.AbsorbAllIds | tsepamo/export_utils.py:84-87 | an id is merged iff it was merged before or some record carries it |
| ExportEngine.AbsorbAllLast | tsepamo/export_utils.py:84-87 | the last record of an id that carries a field gives that field its value |
| ExportEngine.AbsorbAllKept | tsepamo/export_utils.py:84-87 | without a record of the id carrying the field, the field is as before the merge, and absent for an id the merge added |
| ExportEngine.AbsorbAllField | tsepamo/export_utils.py:84-87 | an id is present iff some record carries it; each field holds the value of the LAST record of that id that has the field (even NULL); a field no record of the id has is absent |
| ExportEngine.Merged | tsepamo/export_utils.py:90-94 | one output row per merged id, in order, each carrying its `record_id` |
| ExportEngine.MergeModel | tsepamo/export_utils.py:80-88 | a model with rows whose projection lacks `record_id` fails at `pop`, naming the model; otherwise every fetched row carries `record_id` and the merge state stays valid |
| ExportEngine.MergeModels | tsepamo/export_utils.py:75-88 | a successful merge leaves a valid state and every model name resolved; a `LookupError` names a listed model that does not resolve |
| ExportEngine.MergeExport | tsepamo/export_utils.py:74-94 | the exported rows have distinct `record_id`s and each carries one |
| ExportEngine.MergeModelsErrSticks | tsepamo/export_utils.py:75-88 | the first failing model aborts the whole merge |
| ExportEngine.MergeModelsIsAbsorbAll | tsepamo/export_utils.py:77-88 | the model-by-model merge equals merging all projected rows of all models in model order |
| ExportEngine.AllRecordIdsAreUnique | tsepamo/export_utils.py:107-113 | the ids the merge sees are exactly the union `get_unique_record_ids` computes |
| ExportEngine.UniqueRecordIds | tsepamo/export_utils.py:107-113 | on success every name resolved to a model with a `record_id` field; a `LookupError` names a listed model that does not resolve |
| ExportEngine.ProjectedIdsAreRowIds | tsepamo/export_utils.py:111-112 | the `record_id`s of the projected rows are the table's `record_id`s |
| ExportEngine.ExportRowsAreUniqueIds | tsepamo/export_utils.py:90-94 | the export has one row per distinct `record_id`, in first-seen order, and its id set equals `get_unique_record_ids` |
| ExportEngine.ExportRowFields | tsepamo/export_utils.py:84-94 | each exported row has a field iff some model record of that id has it, with the later model's value |
| ExportEngine.AbsorbPage | tsepamo/export_utils.py:84-87 | the per-page loop fails iff a record lacks `record_id`, and otherwise equals the recursive merge of the page |
| ExportEngine.MergeModelPaged | tsepamo/export_utils.py:78-88 | the offset/limit loop that stops at the first empty page computes the same merge as the whole table at once |
| ExportEngine.PrepareExport | tsepamo/export_utils.py:74-94 | the merged rows of `prepare_export_data_task` equal the reference merge of all models |
| ExportJob.NumeralOfDigits | tsepamo/export_utils.py:224 | the unpadded decimal numeral `%Y` prints reads back as the year |
| ExportJob.FourDigitYear | tsepamo/export_utils.py:224 | years 1000–9999 print with exactly four digits |
| ExportJob.ShortYear | tsepamo/export_utils.py:224 | years below 1000 print with fewer than four digits, as glibc's `%Y` does |
| ExportJob.NumeralOfPad2 | tsepamo/export_utils.py:224 | a two-digit zero-padded field reads back as its number |
| ExportJob.FormatStamp | tsepamo/export_utils.py:224 | the stamp holds only digits, `-` and `_` |
| ExportJob.ParseFormatStamp | tsepamo/export_utils.py:223-224 | `%Y-%m-%d_%H_%M` is 16 characters for a four-digit year and parses back to the same minute |
| ExportJob.ExportFilename | tsepamo/export_utils.py:222-226 | the name starts with the export name and `-`; the rest holds only digits, `-` and `_` |
| ExportJob.ExportFilenameRoundTrip | tsepamo/export_utils.py:222-226 | the file name is the export name, "-", then the stamp, and both parts can be read back |
| ExportJob.CreateExportRecord | tsepamo/export_utils.py:61-67 | adds exactly one record, leaves the others, names it `<name>-<stamp>.<type>`, files it under `documents/` and leaves it not complete |
| ExportJob.SendEmailTask | tsepamo/export_utils.py:170-189 | fails iff the export id is missing; otherwise the record afterwards is the old one with `download_complete` set and `datetime_completed` = now, whatever happened to the mail, and no other record changes |
| ExportJob.DefaultModelNames | tsepamo/export_utils.py:36-43 | the default list holds an app model iff it is not `exportfile`, `projects` or `instrumentsmeta` |
| ExportJob.DefaultModelNamesAppend | tsepamo/export_utils.py:39-43 | the default list for app models `a + b` is the list for `a` followed by the list for `b`, so app order is kept |
| ExportJob.DefaultModelNamesSingle | tsepamo/export_utils.py:39-43 | one app model is listed iff it is not excluded |
| ExportJob.StartExport | tsepamo/export_utils.py:24-57 | with no model names, `get_app_config(app_label)` raising `LookupError` (as for the default label `''`) is the only error; otherwise the model list is the given one or the non-excluded app models, and a record and a task are created iff model list, type and name are all non-empty, the task carrying the record's id |
| ExportJob.WriterFor | tsepamo/export_utils.py:96-99 | the CSV writer iff the lower-cased type is `csv`, the Excel writer iff it is `excel`, otherwise none |
| ExportJob.TaskRows | tsepamo/export_utils.py:74-94 | with the app's registry, the merge; `LookupError` for the label iff no app has it and a model name is given; no model names give no rows |
| ExportJob.RunExport | tsepamo/export_utils.py:74-162 | the rows are the merge over the app's registry; with no app under the label and at least one model name the task ends with `LookupError`, writing nothing and queueing no mail; a file is written iff the merge succeeded and the type has a writer, at `documents/<name>-<stamp>.<csv or xlsx>`; the mail task is queued iff the file was saved |
| ExportJob.RunExportWrites | tsepamo/export_utils.py:116-157 | a task whose merge succeeds and whose type has a writer saves `documents/<name>-<stamp>.<suffix>` |
| ExportJob.CsvRecordMatchesWrittenFile | tsepamo/export_utils.py:116-129 | for a `csv` export stamped in the same minute, the written file is the file the record points to |
| ExportJob.ExcelRecordNamesOtherFile | tsepamo/export_utils.py:155-157 | for an `excel` export the record names `….excel` while the file written is `….xlsx`, so the two never agree |
| ExportJob.SplitExt | tsepamo/models/export_file.py:61-63 | `os.path.splitext`: root + extension is the name; the extension is empty or starts with the last dot and holds no further dot or slash; it is non-empty iff the base name has a dot after a non-dot character |
| ExportJob.ExtensionDotExists | tsepamo/models/export_file.py:61-63 | the search for the extension dot finds one iff the base name has a dot after a non-dot character |
| ExportJob.Extension | tsepamo/models/export_file.py:60-63 | `extension` is empty or a dot followed by no further dot, and non-empty iff the name has an extension |
| ExportJob.NewRecordExtension | tsepamo/models/export_file.py:61-63 | a new export record's `extension` is "." + its type |
| ExportJob.UnitForSize | tsepamo/models/export_file.py:73-81 | `Kb` iff the size is below 512000, `Gb` iff at least 4194304000, `Mb` otherwise |
| ExportJob.ExportSizeUnit | tsepamo/models/export_file.py:72-82 | with no file set the size is 0 and the unit `Kb`; a set name absent from storage raises `FileNotFoundError`; otherwise the unit of the stored size |
| ExportJob.ExcelRecordSizeRaises | tsepamo/models/export_file.py:72 | when storage holds only the file an `excel` export wrote, the size of the export's record raises `FileNotFoundError` |
| ExportJob.ExportSizeUnitMonotone | tsepamo/models/export_file.py:73-81 | a larger file never gets a smaller unit |
| ExportJob.StatusLifecycle | tsepamo/models/export_file.py:110-126 | a new export shows `Pending` with no action; after `send_email_task` it shows `Ready` with the download action |
| ExportJob.ExportStatus | tsepamo/models/export_file.py:110-117 | `Ready` iff the download is complete, `Pending` iff it is not |
| ExportJob.Actions | tsepamo/models/export_file.py:119-126 | the download action iff the download is complete, nothing otherwise |
| TemplateTags.SizeUnit | tsepamo/templatetags/tsepamo_extras.py:35-43 | `kb` iff below 512000, `mb` iff in [512000, 4194304000), `gb` iff at least 4194304000 |
| TemplateTags.Sizify | tsepamo/templatetags/tsepamo_extras.py:35-44 | the output is the rounded number, one space, then the unit |
| TemplateTags.SizeUnitIsLowerExportUnit | tsepamo/templatetags/tsepamo_extras.py:35-44 | the filter picks the same unit as `ExportFile.sizify` but in lower case, so the two strings always differ |
| TemplateTags.ConstructTableId | tsepamo/templatetags/tsepamo_extras.py:24-25 | the id is the value followed by the argument |
| TemplateTags.TableIdsDistinct | tsepamo/templatetags/tsepamo_extras.py:24-25 | different arguments give different table ids for the same value |
| TemplateTags.RenderDatatable | tsepamo/templatetags/tsepamo_extras.py:7-20 | an empty url name stays ""; a non-empty one is reversed with the kwargs, and the tag raises `NoReverseMatch` iff no pattern has that name; on success columns, id and all four flags are passed through unchanged |
| TemplateTags.RenderDatatableDefaults | tsepamo/templatetags/tsepamo_extras.py:8-12 | the defaults: id `default`, checkbox, select-all and search panes on, download action off; an empty url name never fails |
| Catalog.NewProject | tsepamo/models/projects.py:6-10 | a project created without a name is named `tsepamo_1` |
| Catalog.CreateProject | tsepamo/models/projects.py:6-10 | creating a project fails with `IntegrityError` iff the name is taken; otherwise it is appended and names stay unique |
| Catalog.CreateInstrument | tsepamo/models/projects.py:34 | creating an instrument fails iff the (form, project) pair exists; otherwise the pair then exists exactly once |
| Catalog.SeedOne | tsepamo/management/commands/load_instruments_meta.py:28-34 | get-or-create of one pair: `MultipleObjectsReturned` iff it exists more than once; an existing pair is left alone; a missing one is created |
| Catalog.SeedOneFrame | tsepamo/management/commands/load_instruments_meta.py:28-34 | a get-or-create changes no other pair's count |
| Catalog.Seed | tsepamo/management/commands/load_instruments_meta.py:26-34 | a successful run keeps the old entries as a prefix and leaves every pair present; a failure is `MultipleObjectsReturned` for one of the pairs |
| Catalog.SeedCounts | tsepamo/management/commands/load_instruments_meta.py:26-34 | for distinct pairs, seeding succeeds iff no pair is duplicated beforehand, and then each pair exists exactly once and every other count is unchanged |
| Catalog.SeedSpec | tsepamo/management/commands/load_instruments_meta.py:26-34 | seeding succeeds iff no pair is duplicated beforehand; the old entries stay as a prefix; every pair then exists exactly once; other entries are untouched; a failure names a pair |
| Catalog.SeedNoop | tsepamo/management/commands/load_instruments_meta.py:28-34 | when every pair already exists once, seeding creates nothing |
| Catalog.SeedIdempotent | tsepamo/management/commands/load_instruments_meta.py:26-34 | a second seeding run creates nothing |
| Catalog.SeedKeepsUnique | tsepamo/models/projects.py:34 | seeding a catalog that respects `unique_together` succeeds and keeps it |
| Catalog.PairsOf | tsepamo/management/commands/load_instruments_meta.py:26-27 | one (form, project) pair per listed instrument, in order |
| Catalog.SeedPairs | tsepamo/management/commands/load_instruments_meta.py:11-24 | the seed data is 14 pairs: 2 for `tsepamo_1` and 4 each for `tsepamo_2`–`tsepamo_4`, in the listed order |
| Catalog.SeedPairsDistinct | tsepamo/management/commands/load_instruments_meta.py:11-24 | no pair of the seed data repeats |
| Catalog.HandleSeed | tsepamo/management/commands/load_instruments_meta.py:9-34 | `handle` succeeds iff no seed pair is duplicated beforehand; then the old entries stay as a prefix and each seed pair exists exactly once |
| Catalog.HandleSeedSpec | tsepamo/management/commands/load_instruments_meta.py:9-34 | on a catalog respecting `unique_together`, `handle` succeeds, keeps the old entries, leaves each seed pair exactly once, keeps the constraint, and running it again changes nothing |
| CatalogViews.FieldsFromRequest | tsepamo/views/data_exports.py:92-95 | joining the result with "," gives the `fields` parameter back and no piece contains ","; a missing parameter gives `[""]` |
| CatalogViews.ProjectsByName | tsepamo/views/data_exports.py:162-166 | all projects for an empty list, otherwise exactly the projects whose name is listed |
| CatalogViews.InstrumentsOf | tsepamo/views/data_exports.py:147-148 | exactly the catalog entries whose `related_project` is the project's name |
| CatalogViews.FormNames | tsepamo/views/data_exports.py:147-148 | one form name per catalog entry, in order |
| CatalogViews.InfoFor | tsepamo/views/data_exports.py:150-158 | `LookupError` iff the form names no model; otherwise the info carries the model's name, that model's `verbose_name`, its row count and the project's verbose name |
| CatalogViews.RelatedInfosSpec | tsepamo/views/data_exports.py:139-159 | succeeds iff every form resolves, with one entry per form in order; a failure names one of the forms |
| CatalogViews.RelatedModelsInfo | tsepamo/views/data_exports.py:139-159 | succeeds iff every catalog row of the project names a model; then one entry per row, in order, with the lower-cased model name, the `verbose_name` of the model the row's form resolves to, its row count and the project's verbose name; a failure names a row's form |
| CatalogViews.RelatedModelsInfoCount | tsepamo/views/data_exports.py:147-159 | one entry per catalog row of the project |
| CatalogViews.DetailsDescribeProjects | tsepamo/views/data_exports.py:98-110 | one detail per selected project, in order, whose `instruments` is the number of its entries and `records` the sum of their counts |
| CatalogViews.DetailsOfOutcome | tsepamo/views/data_exports.py:101-109 | the details loop succeeds iff every project's entries can be built, and otherwise fails with the exception of the first project that fails |
| CatalogViews.DetailsOfSelected | tsepamo/views/data_exports.py:98-110 | the same for the entries `get_related_models_info` builds |
| CatalogViews.ProjectDetails | tsepamo/views/data_exports.py:98-110 | succeeds iff every selected project's related-model entries can be built; then one detail per selected project, in order, each built from that project's entries; otherwise the error is that of the first selected project that fails |
| CatalogViews.FormsMatchDetails | tsepamo/views/data_exports.py:113-118 | the forms page fails iff the projects page does; its length is the sum of `instruments` and its record counts sum to the sum of `records` |
| CatalogViews.FormsOfSpec | tsepamo/views/data_exports.py:113-118 | the forms loop succeeds iff every project's entries can be built, and then yields those entries joined end to end in project order; otherwise the exception of the first project that fails |
| CatalogViews.FormsOfSelected | tsepamo/views/data_exports.py:113-118 | the same for the entries `get_related_models_info` builds |
| CatalogViews.FormsDetails | tsepamo/views/data_exports.py:113-118 | succeeds iff every selected project's related-model entries can be built, which is when the project details succeed; then the result is those entries joined end to end in project order, as long as the details' instrument counts added up; otherwise the error is that of the first selected project that fails |
| CatalogViews.PagesAgree | tsepamo/views/data_exports.py:98-118 | for the same names both pages agree: one detail per selected project with its catalog size, and the forms list is as long as the instrument total |
| CatalogViews.ProjectColumns | tsepamo/views/data_exports.py:121-125 | four column descriptors, each naming a key of a project detail |
| CatalogViews.FormsColumns | tsepamo/views/data_exports.py:128-131 | three column descriptors, each naming a key of a form entry |
| CatalogViews.FieldsColumns | tsepamo/views/data_exports.py:134-136 | two column descriptors, for `verbose_name` and `field_type` |
| Migration.ModelToDict | tsepamo/management/commands/migrate_data.py:55 | one item per declared field, in declaration order, each the field's name and the row's value (or `None`) |
| Migration.DropId | tsepamo/management/commands/migrate_data.py:57 | the items minus exactly those keyed `id` |
| Migration.Remap | tsepamo/management/commands/migrate_data.py:59-60 | every key renamed through the mapping (or kept) is in the result |
| Migration.RemapKeys | tsepamo/management/commands/migrate_data.py:59-60 | every key is renamed through the mapping (or kept) and nothing else appears |
| Migration.RemapLastWins | tsepamo/management/commands/migrate_data.py:59-60 | a renamed key holds the value of the last source key mapped to it |
| Migration.RemapWithoutMapping | tsepamo/management/commands/migrate_data.py:58-66 | with an empty mapping the remap is the plain dictionary |
| Migration.RemapEmpty | tsepamo/management/commands/migrate_data.py:59-61 | the remapped dictionary is empty iff the source dictionary is |
| Migration.RenamedKeys | tsepamo/management/commands/migrate_data.py:54-60 | the renamed dictionary of a row holds a key iff it is the renamed name of a source field other than `id` |
| Migration.RenamedValue | tsepamo/management/commands/migrate_data.py:54-60 | a renamed key holds the row's value for the last source field other than `id` renamed to it |
| Migration.FormattedKeys | tsepamo/management/commands/migrate_data.py:68-77 | the formatted part has exactly the target's fields other than `record_id` |
| Migration.FormattedValue | tsepamo/management/commands/migrate_data.py:72-77 | each formatted field is the formatter applied to the field and the data's value (or `None`) |
| Migration.FormattedValues | tsepamo/management/commands/migrate_data.py:72-77 | every target field other than `record_id` holds the formatter's value of the data's value, taken from the last field of that name |
| Migration.FormatAllFields | tsepamo/management/commands/migrate_data.py:68-79 | after the update each target field other than `record_id` holds its formatted value |
| Migration.FormatAllFieldsSpec | tsepamo/management/commands/migrate_data.py:68-79 | the merged data has the old keys plus the target's non-`record_id` fields; `record_id` and non-field keys keep their values |
| Migration.Transform | tsepamo/management/commands/migrate_data.py:54-66 | an object is skipped iff a mapping is given and its renamed dictionary is empty; otherwise the created dictionary's keys are the renamed keys plus the target fields other than `record_id`; each such target field holds `format(field, renamed.get(name))`, and every other key keeps its renamed value |
| Migration.TransformSkips | tsepamo/management/commands/migrate_data.py:58-66 | an object is skipped iff a mapping is given and its dictionary without `id` is empty |
| Migration.DropIdIgnoresId | tsepamo/management/commands/migrate_data.py:55-57 | two rows differing only in `id` give the same data |
| Migration.OldIdNeverCarried | tsepamo/management/commands/migrate_data.py:55-57 | the created data does not depend on the old primary key |
| Migration.Create | tsepamo/management/commands/migrate_data.py:63 | `create(**data)` raises `TypeError` iff a key is not a field of the model; otherwise it appends the row |
| Migration.CreationsCount | tsepamo/management/commands/migrate_data.py:53-66 | one create per old object without a mapping; with a mapping, one per object whose dictionary is non-empty |
| Migration.CreateAll | tsepamo/management/commands/migrate_data.py:53-66 | the rows only grow, by at most one per dictionary, and an error is a `TypeError` for the target |
| Migration.CreateAllSpec | tsepamo/management/commands/migrate_data.py:53-66 | the creates stop at the first dictionary with a key that is not a field, having appended exactly the dictionaries before it, in order, which stay; they fail iff some dictionary has such a key |
| Migration.MigrateModel | tsepamo/management/commands/migrate_data.py:51-66 | the target table exists afterwards, every other table is unchanged, and an error is a `TypeError` for the target |
| Migration.MigrateModelSpec | tsepamo/management/commands/migrate_data.py:51-66 | the target table gets the created dictionaries appended up to the first one `create` rejects, and those rows stay after the error; on success all of them, one per old object when no mapping is given |
| Migration.OnlyTsepamoRenames | tsepamo/management/commands/migrate_data.py:26-49 | only the Tsepamo migration has a mapping; the other three copy names verbatim |
| Migration.Resolve | tsepamo/management/commands/migrate_data.py:5-11 | the model classes resolve iff every name is registered, one per name in order; a failure is a missing model |
| Migration.ResolveAll | tsepamo/management/commands/migrate_data.py:5-11 | the imports resolve iff every old and target model of every migration is registered; then one step per migration with its resolved models and its mapping; a failure is a missing model |
| Migration.RunMigrations | tsepamo/management/commands/migrate_data.py:17-22 | a table no migration targets is unchanged, and an error is a `TypeError` for one of the targets |
| Migration.RunMigrationsStops | tsepamo/management/commands/migrate_data.py:17-22 | after a failing migration the later ones do not run |
| Migration.StepsWriteTargets | tsepamo/management/commands/migrate_data.py:36-49 | each resolved migration writes to one of the four target tables |
| Migration.Handle | tsepamo/management/commands/migrate_data.py:17-22 | a missing model stops the command before any row is created; otherwise the four migrations run in order; tables other than the four targets never change, and a `TypeError` names one of the targets |
| PullCommand.Keys | tsepamo/management/commands/pull_tsepamo_redcap_data.py:30-33 | the map's project names, in map order |
| PullCommand.Selected | tsepamo/management/commands/pull_tsepamo_redcap_data.py:30-33 | with no `--project_names` every map key is selected, otherwise the given names |
| PullCommand.Handle | tsepamo/management/commands/pull_tsepamo_redcap_data.py:17-28 | without `--emails` the command fails before dispatching anything |
| PullCommand.Wanted | tsepamo/management/commands/pull_tsepamo_redcap_data.py:36-38 | exactly the map entries whose project is selected |
| PullCommand.CallsFor | tsepamo/management/commands/pull_tsepamo_redcap_data.py:34-41 | each call carries the project, the same email list and that project's model list |
| PullCommand.Dispatch | tsepamo/management/commands/pull_tsepamo_redcap_data.py:36-47 | every call made is for a selected map entry, with the given emails and that entry's models, and its hand-off succeeded; an error is `CommandError` for a selected entry whose hand-off failed |
| PullCommand.DispatchIsRunCalls | tsepamo/management/commands/pull_tsepamo_redcap_data.py:36-47 | the loop equals dispatching the selected entries in map order |
| PullCommand.RunCallsSpec | tsepamo/management/commands/pull_tsepamo_redcap_data.py:40-47 | no error iff every dispatch succeeds, all calls made in order; otherwise the first failing project gives `CommandError` naming it, and later projects are not dispatched |
| PullCommand.HandleSpec | tsepamo/management/commands/pull_tsepamo_redcap_data.py:30-47 | with emails, `handle` dispatches the selected map entries in map order |
| PullCommand.NoNamesSelectsAll | tsepamo/management/commands/pull_tsepamo_redcap_data.py:31-33 | with no project names all four projects are dispatched |
| PullCommand.WantedAll | tsepamo/management/commands/pull_tsepamo_redcap_data.py:31-38 | selecting every key selects the whole map |
| PullCommand.WantedSuperset | tsepamo/management/commands/pull_tsepamo_redcap_data.py:36-38 | selecting a superset of the keys selects the whole map |
| PullCommand.UnknownNamesIgnored | tsepamo/management/commands/pull_tsepamo_redcap_data.py:36-38 | an extra name that is not a map key changes nothing |
| Accounts.Take1 | authentication/models.py:30 | `s[:1]`: the first character, or "" for an empty string |
| Accounts.UserInitials | authentication/models.py:23-33 | "" unless both names are non-empty; otherwise 2 or 3 characters (at least 1 when the first name has a space) ending with the last name's initial |
| Accounts.NoSpaceNoSplit | authentication/models.py:27 | `split(' ')` yields more than one part iff the name contains a space |
| Accounts.InitialsOneWord | authentication/models.py:31-32 | without a space the initials are first[0] + last[0] |
| Accounts.InitialsTwoWords | authentication/models.py:27-30 | for a one-word first part, a space and any rest, the initials are the first part's initial, the rest's first character unless it is a space, then the last name's initial |
| Accounts.SecondWordInitial | authentication/models.py:29-30 | the initial of the second piece of `split(' ')` is the rest's first character unless that is a space |
| Accounts.SetEmailAsPrimary | authentication/models.py:82-101 | errors iff the user is missing, has several primaries, or would get an email another user holds: `IntegrityError` from the unique email, raised after the address rows were saved, which stay saved with the users unchanged; a conditional call with an existing primary returns false and changes nothing; a switch makes the address primary and the user's other addresses non-primary, leaving other users' addresses alone; on success the user's email becomes the address and other users are unchanged |
| Accounts.SetPrimaryKeepsOnePrimary | authentication/models.py:88-101 | error or not, each user keeps at most one primary address, other users' addresses are untouched, and user emails that were unique stay unique |
| AccountLookups.EmailAddressExists | authentication/utils.py:6-19 | true iff an address row matches case-insensitively outside the excluded user, or the user email field is configured and a user's email matches outside the excluded user |
| AccountLookups.EmailExistsIgnoresCase | authentication/utils.py:10 | the lookup gives the same answer for an email and its lower-case form |
| AccountLookups.ExcludeNarrows | authentication/utils.py:8-9 | excluding a user can only turn a match into no match |
| AccountLookups.ExcludedUserIgnored | authentication/utils.py:8-9 | adding an address of the excluded user does not change the answer |
| AccountLookups.HasVerifiedEmail | authentication/utils.py:22-33 | without an email: true iff the user has a verified address; with one: false when the user has no such address, and an error iff several match |
| AccountLookups.HasVerifiedEmailIsFlag | authentication/utils.py:24-30 | with exactly one matching address, the result is that address's `verified` flag |
| AccountLookups.VerifiedAddressIsVerifiedUser | authentication/utils.py:22-33 | a verified named address implies the user has a verified address |
| AccountAdapter.ConfirmEmail | authentication/adapter.py:20-26 | errors as `set_email_as_primary` does; on the email conflict the address is saved verified and primary and users stay unchanged, on any other error nothing changes; otherwise the saved address is verified, primary iff it already was or the user had no primary, and the user's email becomes it exactly when it turns primary |
| AccountAdapter.ConfirmEmailKeepsOnePrimary | authentication/adapter.py:20-26 | error or not, confirming keeps at most one primary per user, leaves other users' addresses alone and keeps user emails unique |
| AccountAdapter.FirstRejecting | authentication/adapter.py:33-34 | the first validator that rejects the username, or none iff all accept |
| AccountAdapter.LowerAll | authentication/adapter.py:37-39 | the lower-cased blacklist, entry by entry |
| AccountAdapter.CleanUsername | authentication/adapter.py:28-62 | accepted iff every validator passes, the name is not blacklisted and (shallow or not taken), and then returned unchanged; invalid iff a validator rejects, naming the first one; blacklisted iff validators pass and the lower-cased name is on the lower-cased list; taken iff validators pass, not blacklisted, not shallow and taken |
| AccountAdapter.BlacklistIgnoresCase | authentication/adapter.py:37-41 | the blacklist test ignores case on both sides |
| AccountAdapter.ShallowSkipsLookup | authentication/adapter.py:42-47 | with `shallow` the outcome does not depend on existing users |
| AccountAdapter.ValidateUniqueEmail | authentication/adapter.py:64-67 | raises iff `email_address_exists(email)`; otherwise returns the email |
| AccountAdapter.ShouldSendConfirmationMail | authentication/adapter.py:69-86 | the HMAC branch follows the rate limiter; otherwise send iff no confirmation was sent within the cooldown window |
| AccountAdapter.SendingStaysAllowed | authentication/adapter.py:81-85 | once sending is allowed it stays allowed as time passes |
| AccountAdapter.CooldownBlocksResend | authentication/adapter.py:81-85 | right after a confirmation is sent, none is sent again within the cooldown |
| AccountAdapter.PreLogin | authentication/adapter.py:88-112 | an inactive user gets the inactive response whatever the mode; mode NONE does nothing; under OPTIONAL and MANDATORY an active user's login fails iff `has_verified_email` raises, with that error |
| AccountAdapter.PreLoginRaises | authentication/adapter.py:103-110 | under OPTIONAL or MANDATORY an active user's login raises `MultipleObjectsReturned` iff a non-empty email matches more than one of the user's addresses, whatever `signup` is |
| AccountAdapter.PreLoginTable | authentication/adapter.py:103-112 | the verification-sent response iff MANDATORY and unverified; a mail is sent iff the mode is not NONE, the email is unverified and (MANDATORY or signup) |
| EmailConfirmation.FromKey | authentication/models.py:46-59 | an address iff the key loads to the pk of an unverified address; it is that stored address |
| EmailConfirmation.Confirm | authentication/models.py:61-70 | a verified address gives `None` and no change; otherwise the store is what `confirm_email` leaves, a success returns the stored verified address, and an error is passed on |
| EmailConfirmation.KeyIsSingleUse | authentication/models.py:46-70 | after a key is confirmed, successfully or up to the email conflict that still saves the address, the same key no longer finds an address |
| EmailConfirmation.ConfirmIdempotent | authentication/models.py:61-70 | confirming the returned address again changes nothing and returns `None` |

## Behaviour of the code worth knowing

- **Checkbox decoding.** The code does not append every ticked option:
  - `setdefault` stores `None` when the first option column of a question
    is unticked, and nothing is ever appended to `None`
    (`Choice.UnselectedFirstOptionPins`).
  - The test against duplicates compares a label with the whole joined
    value, not with each label.
- **Failed coercion.** A failed integer or decimal conversion is not
  nulled per field. It raises and aborts the load (`Ingest.Coerce`,
  `Ingest.LoadModel`).
- **File names.** The stamp is `%Y-%m-%d_%H_%M`, with an underscore
  between hour and minute. `%Y` is not zero-padded below the year 1000.
- **Excel exports.** The record is named after the export type (`.excel`),
  while the file written ends in `.xlsx`
  (`ExportJob.ExcelRecordNamesOtherFile`).
- **Missing `record_id`.** Only the requested fields are fetched, without
  `record_id` being added. When it is not among them, the merge fails
  (`ExportEngine.MergeModel`).
- **Output order.** The merged rows come out in first-seen `record_id`
  order, and the page size is 10000.
- **Partial writes.** No transaction wraps `migrate_data`,
  `load_model_data` or `set_email_as_primary`. Rows saved before an
  exception stay saved (`Migration.MigrateModelSpec`,
  `Ingest.LoadModelDataExtends`, `Accounts.SetEmailAsPrimary`).
- **Export file size.** `sizify` reads the stored file's size. A record
  whose file name is set but absent from storage raises
  `FileNotFoundError`, and every `excel` record is such a record
  (`ExportJob.ExcelRecordSizeRaises`).

## Left out

- Celery scheduling is not modelled: `.delay`, `shared_task`, and the
  soft-time-limit retry of `prepare_export_data_task`.
- I/O is left out:
  - pandas serialisation, `HttpResponse` and the file write of
    `handle_export_response`. `RunExport` takes whether the save went through
    as the parameter `saveOk`.
  - Reading and parsing CSV files. Rows arrive already parsed as
    `(header, cell)` pairs.
  - Sending mail and printing to stdout.
- `MEDIA_ROOT` is dropped: paths are relative to it.
- The clock and database-assigned keys are parameters:
  - The stamp `now` is a parameter.
  - The new `ExportFile` id is a parameter, required to be unused.
- Floating point is left out: `download_time` and the rounded quotients of
  both `sizify` functions are not modelled.
- TemplateTags.Sizify: the rounded number is a parameter; only the unit and
  the output shape are stated.
- Ingest.Coerce: the parsers (`int`, `Decimal`, the two `strptime`
  formats) are the abstract partial functions in `Parsers`. Calendar
  validation and the number grammar are not modelled.
- The `bson` `Decimal128` conversion is not modelled.
- `EmailConfirmation.FromKey`: Django `signing` is the parameter `loads`.
  `None` covers an expired or bad signature. The salt and the expiry are
  not modelled.
- AccountAdapter.ShouldSendConfirmationMail: in the HMAC branch the outcome
  of `ratelimit.consume` is the parameter `consumed`. The rate limiter is not
  modelled.
- TemplateTags.RenderDatatable: Django's URL resolver is the parameter
  `reverse`, with `None` for a name no pattern has. The URL patterns are
  not modelled.
- AccountAdapter.CleanUsername: the username validators and the "taken"
  lookup are parameters. The validators' messages are not modelled.
- AccountLookups.HasVerifiedEmail: `get_for_user` is modelled as a
  case-insensitive lookup on (user, email).
- `Lower`: only ASCII letters are lower-cased; Unicode case mapping is not
  modelled.
- Catalog: `max_length` is not enforced by `create`, so `ProjectFits` and
  `InstrumentFits` only state the declared lengths (20, 50, 100, 20).
- Migration: the field formatter `format_fields` is called but not defined
  in `tsepamo/utils.py`. It is the parameter `format`.
- Migration.ModelToDict: `model_to_dict`'s omission of non-editable and
  many-to-many fields is not modelled.
- Migration: field defaults are not filled in by `create`.
- PullCommand: `export_project_data_and_send_email` is not defined in
  `tsepamo/tasks.py`, so the dispatch is the parameter `dispatch`, which
  reports whether the call raised.
- PullCommand.Wanted: its contract states membership in both directions
  but not that map order is kept. The order follows from its recursive
  definition.
- Ingest: `get_model("app.Model")` is modelled as a lookup in one app
  registry by lower-cased model name.
- ExportEngine.UniqueRecordIds: `reg` stands for the models of the app
  under `app_label`. The `LookupError` for an unregistered label is
  modelled only for the export task (`ExportJob.TaskRows`), the one
  place where the label reaches `get_model` without `get_app_config`
  having found it first.
- `EmailConfirmation.Confirm`: the `email_confirmed` signal is not modelled.
- `EmailConfirmationHMAC.send` is not modelled.
- `get_export_filename` is not fully modelled:
  - Seconds are not modelled.
  - A stamp is only required to have a day from 1 to 31, not to be a valid
    calendar date.
- ExportEngine.Merged: a row is a map, so column order is not modelled.
  In the code a row is `record_id` first, then dict insertion order, and
  that order decides the CSV header and the column layout.
- Table order is taken to be stable across repeated queries. This is what
  makes offset paging well defined.
- `generate_model_data_dict` is not modelled: it is a report writer with
  no logic beyond listing field attributes.
- The view functions themselves (request handling and rendering), URL
  routing, the login/logout/profile views and the serializers are not
  modelled. The helpers in `tsepamo/views/data_exports.py` that the
  views call are modelled in `CatalogViews`.
- The declarative model files are not modelled.
- The broken `export_view` call to the undefined `export_as_csv` is not
  modelled.
