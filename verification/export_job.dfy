/** The bookkeeping around an export: the `ExportFile` record, its
    timestamped file name, the default model list and the start condition of
    `GenerateDataExports`, the writer chosen for the export type, the
    completion update of `send_email_task`, and the derived `extension`,
    size unit, status and action of an export file. */
module ExportJob {
  import opened Wrappers
  import opened Seqs
  import opened Text
  import opened Store
  import ExportEngine

  // ---------------------------------------------------------------------
  // Timestamps and file names

  /** A wall-clock reading, as a Python `datetime` holds it (seconds and
      below are never printed and are left out). */
  datatype Stamp = Stamp(year: nat, month: nat, day: nat, hour: nat, minute: nat)

  /** The field ranges a `datetime` guarantees. */
  predicate ValidStamp(t: Stamp) {
    1 <= t.year <= 9999 && 1 <= t.month <= 12 && 1 <= t.day <= 31 && t.hour < 24 && t.minute < 60
  }

  function DigitChar(d: nat): (c: char)
    requires d < 10
    ensures '0' <= c <= '9'
  {
    ('0' as int + d) as char
  }

  function DigitValue(c: char): nat
    requires '0' <= c <= '9'
  {
    (c as int - '0' as int) as nat
  }

  predicate AllDigits(s: string) {
    forall i :: 0 <= i < |s| ==> '0' <= s[i] <= '9'
  }

  /** The decimal numeral of `n` with no padding, as `%Y` prints a year on
      glibc. */
  function Digits(n: nat): (s: string)
    ensures |s| >= 1 && AllDigits(s)
    decreases n
  {
    if n < 10 then [DigitChar(n)] else Digits(n / 10) + [DigitChar(n % 10)]
  }

  /** The number a string of decimal digits denotes. */
  function Numeral(s: string): nat
    requires AllDigits(s)
    decreases |s|
  {
    if |s| == 0 then 0 else 10 * Numeral(s[..|s| - 1]) + DigitValue(s[|s| - 1])
  }

  lemma {:induction false} NumeralOfDigits(n: nat)
    ensures Numeral(Digits(n)) == n
    decreases n
  {
    if n >= 10 {
      NumeralOfDigits(n / 10);
      var s := Digits(n);
      assert s[..|s| - 1] == Digits(n / 10);
    }
  }

  /** Every further digit of `n` adds one character. */
  lemma DigitsLength(n: nat)
    requires n >= 10
    ensures |Digits(n)| == |Digits(n / 10)| + 1
  {
  }

  /** A four-digit year prints as exactly four characters. */
  lemma FourDigitYear(n: nat)
    requires 1000 <= n <= 9999
    ensures |Digits(n)| == 4
  {
    var a, b, c := n / 10, n / 10 / 10, n / 10 / 10 / 10;
    assert 10 <= b && 1 <= c < 10;
    DigitsLength(n);
    DigitsLength(a);
    DigitsLength(b);
  }

  /** A year below 1000 prints shorter than four characters, so the stamp
      is not fixed width for such years. */
  lemma ShortYear(n: nat)
    requires n < 1000
    ensures |Digits(n)| < 4
  {
    if n >= 10 {
      DigitsLength(n);
      if n / 10 >= 10 {
        DigitsLength(n / 10);
        assert n / 10 / 10 < 10;
      }
    }
  }

  /** `%m`, `%d`, `%H` and `%M`: two digits, zero padded. */
  function Pad2(n: nat): (s: string)
    requires n < 100
    ensures |s| == 2 && AllDigits(s)
  {
    [DigitChar(n / 10), DigitChar(n % 10)]
  }

  lemma NumeralOfPad2(n: nat)
    requires n < 100
    ensures Numeral(Pad2(n)) == n
  {
    var s := Pad2(n);
    var hi := [DigitChar(n / 10)];
    assert s[..1] == hi;
    assert hi[..0] == [];
    assert Numeral(hi) == n / 10;
    assert Numeral(s) == 10 * Numeral(hi) + n % 10;
  }

  /** `strftime('%Y-%m-%d_%H_%M')`: digits and the `-` and `_`
      separators only. */
  function FormatStamp(t: Stamp): (r: string)
    requires ValidStamp(t)
    ensures forall j :: 0 <= j < |r| ==> ('0' <= r[j] <= '9' || r[j] == '-' || r[j] == '_')
  {
    Digits(t.year) + "-" + Pad2(t.month) + "-" + Pad2(t.day) + "_" + Pad2(t.hour) + "_" + Pad2(t.minute)
  }

  /** Reads back a 16-character `YYYY-MM-DD_HH_MM` stamp. */
  function ParseStamp(s: string): Option<Stamp> {
    if |s| != 16 || s[4] != '-' || s[7] != '-' || s[10] != '_' || s[13] != '_' then None
    else if !(AllDigits(s[..4]) && AllDigits(s[5..7]) && AllDigits(s[8..10])
              && AllDigits(s[11..13]) && AllDigits(s[14..])) then None
    else Some(Stamp(Numeral(s[..4]), Numeral(s[5..7]), Numeral(s[8..10]), Numeral(s[11..13]), Numeral(s[14..])))
  }

  /** For years from 1000 on the stamp is 16 characters and reads back to
      the same wall-clock time. */
  lemma ParseFormatStamp(t: Stamp)
    requires ValidStamp(t) && t.year >= 1000
    ensures |FormatStamp(t)| == 16
    ensures ParseStamp(FormatStamp(t)) == Some(t)
  {
    FourDigitYear(t.year);
    var s := FormatStamp(t);
    assert s[..4] == Digits(t.year);
    assert s[5..7] == Pad2(t.month);
    assert s[8..10] == Pad2(t.day);
    assert s[11..13] == Pad2(t.hour);
    assert s[14..] == Pad2(t.minute);
    NumeralOfDigits(t.year);
    NumeralOfPad2(t.month);
    NumeralOfPad2(t.day);
    NumeralOfPad2(t.hour);
    NumeralOfPad2(t.minute);
  }

  /** `get_export_filename`: the export name, a dash and the stamp. */
  function ExportFilename(exportName: string, now: Stamp): (r: string)
    requires ValidStamp(now)
    ensures |r| > |exportName| && r[..|exportName|] == exportName && r[|exportName|] == '-'
    ensures forall j :: |exportName| < j < |r| ==> ('0' <= r[j] <= '9' || r[j] == '-' || r[j] == '_')
  {
    exportName + "-" + FormatStamp(now)
  }

  /** Both the export name and the time can be read back from a file name
      stamped in a year from 1000 on. */
  lemma ExportFilenameRoundTrip(exportName: string, now: Stamp)
    requires ValidStamp(now) && now.year >= 1000
    ensures var f := ExportFilename(exportName, now);
      |f| == |exportName| + 17 && f[..|exportName|] == exportName && f[|exportName|] == '-'
      && ParseStamp(f[|exportName| + 1..]) == Some(now)
  {
    ParseFormatStamp(now);
    var f := ExportFilename(exportName, now);
    assert f[|exportName| + 1..] == FormatStamp(now);
  }

  // ---------------------------------------------------------------------
  // The export record

  /** An `ExportFile` row. `datetime_completed` defaults to the creation
      time, as its field default does. */
  datatype ExportFile = ExportFile(
    name: string,
    file: string,
    userCreated: Option<string>,
    dateCreated: Stamp,
    datetimeStarted: Stamp,
    datetimeCompleted: Stamp,
    downloadComplete: bool)

  /** The `ExportFile` table by primary key. */
  type ExportTable = map<nat, ExportFile>

  /** The `upload_to` prefix of the file field. */
  const UploadTo := "documents/"

  /** `create_export_model_instance`: a new record named after the export
      with the type as its suffix, filed under `documents/`, not yet
      complete. The database picks the unused key `id`. */
  function CreateExportRecord(table: ExportTable, id: nat, exportName: string, exportType: string,
                              user: Option<string>, now: Stamp): (r: ExportTable)
    requires ValidStamp(now) && id !in table
    ensures r.Keys == table.Keys + {id}
    ensures forall k :: k in table ==> r[k] == table[k]
    ensures !r[id].downloadComplete
    ensures r[id].name == ExportFilename(exportName, now) + "." + exportType
    ensures r[id].file == UploadTo + r[id].name
  {
    var fileName := ExportFilename(exportName, now) + "." + exportType;
    table[id := ExportFile(fileName, UploadTo + fileName, user, now, now, now, false)]
  }

  /** The exceptions of this module: `ExportFile.objects.get(id=export_id)`
      finding no record, and `get_app_config` knowing no app by the label. */
  datatype JobError = ExportFileDoesNotExist(id: nat) | AppLookupError(appLabel: string)

  /** The state update of `send_email_task`: a failed email is only logged,
      so the record is marked complete whatever happened to the mail; a
      missing record raises. */
  function SendEmailTask(table: ExportTable, id: nat, now: Stamp): (r: Result<ExportTable, JobError>)
    ensures r.Err? <==> id !in table
    ensures r.Ok? ==> r.value.Keys == table.Keys
    ensures r.Ok? ==> r.value[id].downloadComplete && r.value[id].datetimeCompleted == now
    ensures r.Ok? ==> r.value[id].name == table[id].name && r.value[id].file == table[id].file
    ensures r.Ok? ==> forall k :: k in table && k != id ==> r.value[k] == table[k]
    ensures r.Ok? ==> r.value[id] == table[id].(downloadComplete := true, datetimeCompleted := now)
  {
    if id !in table then Err(ExportFileDoesNotExist(id))
    else Ok(table[id := table[id].(downloadComplete := true, datetimeCompleted := now)])
  }

  // ---------------------------------------------------------------------
  // Starting an export

  /** App models never exported by default. */
  const ExcludedModels: seq<string> := ["exportfile", "projects", "instrumentsmeta"]

  /** The default model list: the app's models in registration order, minus
      the excluded ones. */
  function DefaultModelNames(appModels: seq<string>): (r: seq<string>)
    ensures forall i :: 0 <= i < |r| ==> r[i] in appModels && r[i] !in ExcludedModels
    ensures forall i :: 0 <= i < |appModels| ==> (appModels[i] in r <==> appModels[i] !in ExcludedModels)
  {
    Filter(appModels, n => n !in ExcludedModels)
  }

  /** The default list keeps app order: the list for the app models split in
      two is the list for the first part followed by the list for the
      second. */
  lemma DefaultModelNamesAppend(a: seq<string>, b: seq<string>)
    ensures DefaultModelNames(a + b) == DefaultModelNames(a) + DefaultModelNames(b)
  {
    FilterAppend(a, b, n => n !in ExcludedModels);
  }

  /** One app model is kept exactly when it is not excluded. */
  lemma DefaultModelNamesSingle(name: string)
    ensures DefaultModelNames([name]) == if name in ExcludedModels then [] else [name]
  {
    assert [name][..0] == [];
  }

  /** The arguments handed to the export task. */
  datatype TaskArgs = TaskArgs(
    appLabel: string,
    modelNames: seq<string>,
    exportFields: seq<string>,
    exportType: string,
    exportName: string,
    userEmails: seq<string>,
    exportId: nat)

  datatype Started = Started(modelNames: seq<string>, table: ExportTable, task: Option<TaskArgs>)

  /** `GenerateDataExports.__init__`: the model list defaults to every
      non-excluded app model; generation (a new record plus one queued task)
      happens only when the model list, type and name are all non-empty.
      `appModels` is the model list of the app registered under `appLabel`,
      `None` when no app has that label (the default empty label among
      them), where `get_app_config` raises `LookupError`; it is consulted
      only when no model names are given. */
  function StartExport(table: ExportTable, id: nat, appLabel: string, appModels: Option<seq<string>>,
                       modelNames: seq<string>, exportFields: seq<string>, exportType: string,
                       exportName: string, user: Option<string>, userEmails: seq<string>,
                       now: Stamp): (r: Result<Started, JobError>)
    requires ValidStamp(now) && id !in table
    ensures r.Err? <==> |modelNames| == 0 && appModels.None?
    ensures r.Err? ==> r.error == AppLookupError(appLabel)
    ensures r.Ok? && |modelNames| > 0 ==> r.value.modelNames == modelNames
    ensures r.Ok? && |modelNames| == 0 ==> r.value.modelNames == DefaultModelNames(appModels.value)
    ensures r.Ok? ==> (r.value.task.Some? <==> |r.value.modelNames| > 0 && |exportType| > 0 && |exportName| > 0)
    ensures r.Ok? && r.value.task.None? ==> r.value.table == table
    ensures r.Ok? && r.value.task.Some? ==>
      r.value.task.value == TaskArgs(appLabel, r.value.modelNames, exportFields, exportType, exportName, userEmails, id)
      && r.value.table == CreateExportRecord(table, id, exportName, exportType, user, now)
  {
    if |modelNames| == 0 && appModels.None? then Err(AppLookupError(appLabel))
    else
      var names := if |modelNames| > 0 then modelNames else DefaultModelNames(appModels.value);
      if |names| > 0 && |exportType| > 0 && |exportName| > 0 then
        Ok(Started(names, CreateExportRecord(table, id, exportName, exportType, user, now),
                   Some(TaskArgs(appLabel, names, exportFields, exportType, exportName, userEmails, id))))
      else Ok(Started(names, table, None))
  }

  // ---------------------------------------------------------------------
  // Running an export

  datatype Writer = CsvWriter | ExcelWriter | NoWriter

  /** The two independent `if`s on the lower-cased type: `csv` and `excel`
      pick their writer, anything else writes nothing. */
  function WriterFor(exportType: string): (w: Writer)
    ensures w.CsvWriter? <==> Lower(exportType) == "csv"
    ensures w.ExcelWriter? <==> Lower(exportType) == "excel"
  {
    if Lower(exportType) == "csv" then CsvWriter
    else if Lower(exportType) == "excel" then ExcelWriter
    else NoWriter
  }

  /** The suffix a writer gives the file it saves. */
  function WrittenSuffix(w: Writer): string
    requires !w.NoWriter?
  {
    if w.CsvWriter? then "csv" else "xlsx"
  }

  /** What the export task leaves behind: the merged rows (or the exception
      that aborted it), the path written, and whether the completion mail
      task was queued. */
  datatype TaskOutcome = TaskOutcome(
    rows: Result<seq<Row>, ExportEngine.ExportError>,
    written: Option<string>,
    notified: bool)

  /** The rows `prepare_export_data_task` merges. `app` is the model
      registry of the app registered under `args.appLabel`, `None` when no
      app has that label (the default `''` among them): the first
      `get_model(app_label, name)` then raises `LookupError`, and with no
      model names nothing is looked up. */
  function TaskRows(app: Option<Registry>, db: Db, args: TaskArgs): (r: Result<seq<Row>, ExportEngine.ExportError>)
    ensures app.Some? ==> r == ExportEngine.MergeExport(app.value, db, args.modelNames, args.exportFields)
    ensures r.Err? && r.error.UnknownApp? <==> app.None? && |args.modelNames| > 0
    ensures r.Err? && r.error.UnknownApp? ==> r.error.appLabel == args.appLabel
    ensures |args.modelNames| == 0 ==> r == Ok([])
  {
    match app
    case Some(reg) => ExportEngine.MergeExport(reg, db, args.modelNames, args.exportFields)
    case None =>
      if |args.modelNames| == 0 then ExportEngine.MergeExport([], db, args.modelNames, args.exportFields)
      else Err(ExportEngine.UnknownApp(args.appLabel))
  }

  /** `prepare_export_data_task` after the merge: the chosen writer saves
      `documents/<name>-<stamp>.<suffix>`; the completion mail is queued only
      when the save went through (`saveOk`), a failed save being only
      logged. An exception during the merge (an unregistered app label
      included) ends the task before anything is written, leaving the record
      pending. The stamp is read from the clock again here. */
  function RunExport(app: Option<Registry>, db: Db, args: TaskArgs, now: Stamp, saveOk: bool): (r: TaskOutcome)
    requires ValidStamp(now)
    ensures r.rows == TaskRows(app, db, args)
    ensures r.written.Some? <==> r.rows.Ok? && !WriterFor(args.exportType).NoWriter?
    ensures r.written.Some? ==>
      r.written.value == UploadTo + ExportFilename(args.exportName, now) + "." + WrittenSuffix(WriterFor(args.exportType))
    ensures r.notified <==> r.written.Some? && saveOk
    ensures app.None? && |args.modelNames| > 0 ==>
      r.rows == Err(ExportEngine.UnknownApp(args.appLabel)) && r.written.None? && !r.notified
  {
    var rows := TaskRows(app, db, args);
    var w := WriterFor(args.exportType);
    if rows.Err? || w.NoWriter? then TaskOutcome(rows, None, false)
    else TaskOutcome(rows, Some(UploadTo + ExportFilename(args.exportName, now) + "." + WrittenSuffix(w)), saveOk)
  }

  /** A task whose merge succeeds and whose type has a writer saves the
      stamped file. */
  lemma RunExportWrites(reg: Registry, db: Db, args: TaskArgs, now: Stamp)
    requires ValidStamp(now) && !WriterFor(args.exportType).NoWriter?
    requires ExportEngine.MergeExport(reg, db, args.modelNames, args.exportFields).Ok?
    ensures RunExport(Some(reg), db, args, now, true).written ==
      Some(UploadTo + ExportFilename(args.exportName, now) + "." + WrittenSuffix(WriterFor(args.exportType)))
  {
    assert TaskRows(Some(reg), db, args).Ok?;
  }

  /** For a `csv` export stamped in the same minute, the file the export task
      writes is the file the record points at. */
  lemma CsvRecordMatchesWrittenFile(reg: Registry, db: Db, table: ExportTable, id: nat, args: TaskArgs,
                                    user: Option<string>, now: Stamp)
    requires ValidStamp(now) && id !in table && args.exportType == "csv"
    requires ExportEngine.MergeExport(reg, db, args.modelNames, args.exportFields).Ok?
    ensures RunExport(Some(reg), db, args, now, true).written ==
      Some(CreateExportRecord(table, id, args.exportName, args.exportType, user, now)[id].file)
  {
    LowerOfNoUpper(args.exportType);
    assert WriterFor(args.exportType) == CsvWriter;
    assert WrittenSuffix(WriterFor(args.exportType)) == args.exportType;
    RunExportWrites(reg, db, args, now);
    var stem := ExportFilename(args.exportName, now);
    var rec := CreateExportRecord(table, id, args.exportName, args.exportType, user, now)[id];
    assert rec.file == UploadTo + (stem + "." + args.exportType);
    PathRegroups(UploadTo, stem, args.exportType);
  }

  /** A path built in two groupings is the same path. */
  lemma PathRegroups(dir: string, stem: string, suffix: string)
    ensures dir + stem + "." + suffix == dir + (stem + "." + suffix)
  {
  }

  /** For an `excel` export the record names a `.excel` file while the
      writer saves `.xlsx`, so the record never points at the saved file. */
  lemma ExcelRecordNamesOtherFile(reg: Registry, db: Db, table: ExportTable, id: nat, args: TaskArgs,
                                  user: Option<string>, created: Stamp, now: Stamp)
    requires ValidStamp(created) && ValidStamp(now) && id !in table && args.exportType == "excel"
    requires ExportEngine.MergeExport(reg, db, args.modelNames, args.exportFields).Ok?
    ensures RunExport(Some(reg), db, args, now, true).written.Some?
    ensures RunExport(Some(reg), db, args, now, true).written.value !=
      CreateExportRecord(table, id, args.exportName, args.exportType, user, created)[id].file
  {
    LowerOfNoUpper(args.exportType);
    assert WriterFor(args.exportType) == ExcelWriter;
    RunExportWrites(reg, db, args, now);
    var w := RunExport(Some(reg), db, args, now, true).written.value;
    var f := CreateExportRecord(table, id, args.exportName, args.exportType, user, created)[id].file;
    assert w[|w| - 1] == 'x';
    assert f[|f| - 1] == 'l';
  }

  // ---------------------------------------------------------------------
  // Derived properties of an export file

  /** The last position of `c` in `s`. */
  function LastIndex(s: string, c: char): (r: Option<nat>)
    ensures r.Some? ==> r.value < |s| && s[r.value] == c && forall j :: r.value < j < |s| ==> s[j] != c
    ensures r.None? ==> forall j :: 0 <= j < |s| ==> s[j] != c
    decreases |s|
  {
    if |s| == 0 then None
    else if s[|s| - 1] == c then Some(|s| - 1)
    else LastIndex(s[..|s| - 1], c)
  }

  /** Only dots lie between `from` and `to`. */
  predicate AllDots(s: string, from: nat, to: nat)
    requires from <= to <= |s|
  {
    forall j :: from <= j < to ==> s[j] == '.'
  }

  /** The last path component of `p` has a dot with some character other
      than a dot before it. */
  predicate HasExtension(p: string) {
    exists i, j :: 0 <= i < j < |p| && p[i] != '.' && p[j] == '.' && '/' !in p[i..]
  }

  /** Where `os.path.splitext` on a POSIX path cuts: at the last dot of the
      last path component, unless only dots precede that dot in the
      component, in which case there is no extension. */
  function ExtensionDot(p: string): (r: Option<nat>)
    ensures r.Some? ==> r.value < |p| && p[r.value] == '.'
    ensures r.Some? ==> forall j :: r.value < j < |p| ==> p[j] != '.' && p[j] != '/'
  {
    var dot := LastIndex(p, '.');
    var slash := LastIndex(p, '/');
    var start: nat := if slash.Some? then slash.value + 1 else 0;
    if dot.Some? && (slash.None? || dot.value > slash.value) && !AllDots(p, start, dot.value) then Some(dot.value)
    else None
  }

  /** The cut exists exactly when the last component has an extension. */
  lemma ExtensionDotExists(p: string)
    ensures ExtensionDot(p).Some? <==> HasExtension(p)
  {
    var dot := LastIndex(p, '.');
    var slash := LastIndex(p, '/');
    var start: nat := if slash.Some? then slash.value + 1 else 0;
    if ExtensionDot(p).Some? {
      var i :| start <= i < dot.value && p[i] != '.';
      forall k | i <= k < |p|
        ensures p[k] != '/'
      {
        assert p[i..][k - i] == p[k];
      }
      assert p[i..][dot.value - i] == '.';
      assert HasExtension(p);
    }
    if HasExtension(p) {
      var i, j :| 0 <= i < j < |p| && p[i] != '.' && p[j] == '.' && '/' !in p[i..];
      forall k | i <= k < |p|
        ensures p[k] != '/'
      {
        assert p[i..][k - i] == p[k];
      }
      assert !AllDots(p, start, dot.value);
    }
  }

  /** `os.path.splitext` on a POSIX path: the root and the extension, the
      latter cut at `ExtensionDot` and empty when there is none. */
  function SplitExt(p: string): (r: (string, string))
    ensures r.0 + r.1 == p
    ensures r.1 == [] || (r.1[0] == '.' && '.' !in r.1[1..] && '/' !in r.1)
    ensures r.1 != [] <==> HasExtension(p)
  {
    ExtensionDotExists(p);
    match ExtensionDot(p)
    case None => (p, "")
    case Some(d) =>
      assert p[..d] + p[d..] == p;
      (p[..d], p[d..])
  }

  /** `ExportFile.extension`: empty, or the last dot of the name and what
      follows it, which is there exactly when the name has an extension. */
  function Extension(f: ExportFile): (r: string)
    ensures r == [] || (r[0] == '.' && '.' !in r[1..])
    ensures r != [] <==> HasExtension(f.name)
  {
    SplitExt(f.name).1
  }

  /** A stamped file name has no slash unless the export name has one. */
  lemma StampedNameHasNoSlash(exportName: string, now: Stamp)
    requires ValidStamp(now) && '/' !in exportName
    ensures '/' !in ExportFilename(exportName, now)
  {
    var rest := FormatStamp(now);
    assert AllDigits(Digits(now.year));
    assert forall j :: 0 <= j < |rest| ==> ('0' <= rest[j] <= '9' || rest[j] == '-' || rest[j] == '_');
    assert ExportFilename(exportName, now) == exportName + "-" + rest;
  }

  /** The extension of a new export record is the dot and the export type,
      when the type has no dot or slash and the name has no slash. */
  lemma NewRecordExtension(table: ExportTable, id: nat, exportName: string, exportType: string,
                           user: Option<string>, now: Stamp)
    requires ValidStamp(now) && id !in table
    requires '.' !in exportType && '/' !in exportType && '/' !in exportName
    ensures Extension(CreateExportRecord(table, id, exportName, exportType, user, now)[id]) == "." + exportType
  {
    var stem := ExportFilename(exportName, now);
    var name := stem + "." + exportType;
    StampedNameHasNoSlash(exportName, now);
    assert name[|stem|] == '.';
    forall j | |stem| < j < |name|
      ensures name[j] != '.'
    {
      assert name[j] == exportType[j - |stem| - 1];
    }
    assert LastIndex(name, '.') == Some(|stem|);
    forall j | 0 <= j < |name|
      ensures name[j] != '/'
    {
      if j < |stem| {
        assert name[j] == stem[j];
      } else if j > |stem| {
        assert name[j] == exportType[j - |stem| - 1];
      }
    }
    assert LastIndex(name, '/') == None;
    assert name[|exportName|] == '-';
    assert name[|stem|..] == "." + exportType;
  }

  /** The exception `self.file.size` raises when storage has no file under
      the recorded name. */
  datatype SizeError = FileNotFound(name: string)

  /** The size unit `ExportFile.sizify` prints for a size in bytes. */
  function UnitForSize(value: nat): (u: string)
    ensures u == "Kb" <==> value < 512000
    ensures u == "Gb" <==> value >= 4194304000
    ensures u == "Kb" || u == "Mb" || u == "Gb"
  {
    if value < 512000 then "Kb"
    else if value < 4194304000 then "Mb"
    else "Gb"
  }

  /** The unit of `ExportFile.sizify`. An unset file field counts as 0 bytes;
      a recorded name is looked up in storage (`stored`, name to size in
      bytes), and a name storage does not hold raises. */
  function ExportSizeUnit(f: ExportFile, stored: map<string, nat>): (r: Result<string, SizeError>)
    ensures r.Err? <==> f.file != "" && f.file !in stored
    ensures r.Err? ==> r.error == FileNotFound(f.file)
    ensures f.file == "" ==> r == Ok("Kb")
    ensures r.Ok? && f.file != "" ==> r.value == UnitForSize(stored[f.file])
  {
    if f.file == "" then Ok(UnitForSize(0))
    else if f.file !in stored then Err(FileNotFound(f.file))
    else Ok(UnitForSize(stored[f.file]))
  }

  /** When storage holds only the workbook an `excel` export wrote, the size
      of that export's record cannot be read: the record names a file that
      was never written. */
  lemma ExcelRecordSizeRaises(reg: Registry, db: Db, table: ExportTable, id: nat, args: TaskArgs,
                              user: Option<string>, created: Stamp, now: Stamp, stored: map<string, nat>)
    requires ValidStamp(created) && ValidStamp(now) && id !in table && args.exportType == "excel"
    requires ExportEngine.MergeExport(reg, db, args.modelNames, args.exportFields).Ok?
    requires stored.Keys == {RunExport(Some(reg), db, args, now, true).written.value}
    ensures ExportSizeUnit(CreateExportRecord(table, id, args.exportName, args.exportType, user, created)[id], stored).Err?
  {
    ExcelRecordNamesOtherFile(reg, db, table, id, args, user, created, now);
  }

  /** The rank of a unit, to compare sizes by unit. */
  function UnitRank(u: string): nat {
    if u == "Kb" || u == "kb" then 0 else if u == "Mb" || u == "mb" then 1 else 2
  }

  /** A larger file never gets a smaller unit. */
  lemma ExportSizeUnitMonotone(a: nat, b: nat)
    requires a <= b
    ensures UnitRank(UnitForSize(a)) <= UnitRank(UnitForSize(b))
  {
  }

  const ReadyBadge := "<span class='badge rounded-pill badge-success'>Ready</span>"
  const PendingBadge := "<span class='badge rounded-pill badge-danger'>Pending</span>"
  const DownloadAction :=
    "<a class='d-flex align-items-center justify-content-center download-action'"
    + "style='color: #3b5998;' href='#' role='button'>"
    + "<i class='fa-solid fa-download fa-lg'></i>"
    + "</a>"

  /** `export_status`: the Ready badge exactly for a complete export, the
      Pending badge otherwise. */
  function ExportStatus(f: ExportFile): (r: string)
    ensures r == ReadyBadge <==> f.downloadComplete
    ensures r == PendingBadge <==> !f.downloadComplete
  {
    if f.downloadComplete then ReadyBadge else PendingBadge
  }

  /** `actions`: the download link once complete, nothing before. */
  function Actions(f: ExportFile): (r: Option<string>)
    ensures r.Some? <==> f.downloadComplete
    ensures r.Some? ==> r.value == DownloadAction
  {
    if f.downloadComplete then Some(DownloadAction) else None
  }

  /** A new export shows Pending with no action; once the completion task
      has run it shows Ready with the download link. */
  lemma StatusLifecycle(table: ExportTable, id: nat, exportName: string, exportType: string,
                        user: Option<string>, created: Stamp, done: Stamp)
    requires ValidStamp(created) && id !in table
    ensures var t := CreateExportRecord(table, id, exportName, exportType, user, created);
      ExportStatus(t[id]) == PendingBadge && Actions(t[id]).None?
      && SendEmailTask(t, id, done).Ok?
      && ExportStatus(SendEmailTask(t, id, done).value[id]) == ReadyBadge
      && Actions(SendEmailTask(t, id, done).value[id]) == Some(DownloadAction)
  {
  }
}
