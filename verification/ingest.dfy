/** The loading half of the CSV loader (`LoadCSVData.load_model_data` and
    `load_model_data_all`): each decoded record is coerced field by field
    according to the destination model's declared field types and inserted
    only when no row with its `record_id` exists yet. */
module Ingest {
  import opened Wrappers
  import opened Seqs
  import opened Store
  import opened Choice

  /** Python's `int()`, `Decimal()` and the two `strptime` formats
      (`%Y-%m-%d` and `%Y-%m-%d %H:%M`) as partial parsers: `None` means the
      call raised. */
  datatype Parsers = Parsers(
    parseInt: string -> Option<int>,
    parseDecimal: string -> Option<Decimal>,
    parseDate: string -> Option<Date>,
    parseDateTime: string -> Option<DateTime>)

  /** The exceptions that escape loading: `LookupError` from `get_model`, and
      the `ValueError`/`InvalidOperation` of a failed conversion, which the
      loader does not catch, and the `FieldError` of filtering on
      `record_id` in a model that has no such field. */
  datatype LoadError =
    | UnknownModel(model: string)
    | ConversionError(model: string, field: string, raw: string)
    | NoKeyField(model: string)

  /** A value a field of this kind can hold after coercion. */
  predicate Fits(kind: FieldKind, v: Value) {
    match kind
    case Plain => v.Null? || v.Str?
    case IntegerKind => v.Null? || v.Int?
    case DecimalKind => v.Null? || v.Dec?
    case DateKind => v.Null? || v.DateVal?
    case DateTimeKind => v.Null? || v.DateTimeVal?
  }

  /** `record.get(name)`. */
  function Lookup(record: RawRecord, name: string): Cell {
    if name in record then record[name] else None
  }

  /** The coercion of one raw cell for a field of kind `kind`; `None` when
      the conversion raised. Empty and missing cells become NULL; text is
      kept for plain fields; integer, decimal, date and date-time fields go
      through their parser. A date-time field is also a date field in
      Django, but its second `strptime` receives a `datetime` and the
      resulting `TypeError` is swallowed, so the date-time stays. */
  function Coerce(p: Parsers, kind: FieldKind, raw: Cell): (r: Option<Value>)
    ensures !Truthy(raw) ==> r == Some(Null)
    ensures r.Some? ==> Fits(kind, r.value)
    ensures kind.Plain? && Truthy(raw) ==> r == Some(Str(raw.value))
    ensures r.Some? && r.value != Null ==> Truthy(raw)
    ensures Truthy(raw) && kind.IntegerKind? ==>
      (r.None? <==> p.parseInt(raw.value).None?) && (r.Some? ==> r.value == Int(p.parseInt(raw.value).value))
    ensures Truthy(raw) && kind.DecimalKind? ==>
      (r.None? <==> p.parseDecimal(raw.value).None?) && (r.Some? ==> r.value == Dec(p.parseDecimal(raw.value).value))
    ensures Truthy(raw) && kind.DateKind? ==>
      (r.None? <==> p.parseDate(raw.value).None?) && (r.Some? ==> r.value == DateVal(p.parseDate(raw.value).value))
    ensures Truthy(raw) && kind.DateTimeKind? ==>
      (r.None? <==> p.parseDateTime(raw.value).None?) && (r.Some? ==> r.value == DateTimeVal(p.parseDateTime(raw.value).value))
  {
    if !Truthy(raw) then Some(Null)
    else
      var text := raw.value;
      match kind
      case Plain => Some(Str(text))
      case IntegerKind =>
        (match p.parseInt(text) case Some(i) => Some(Int(i)) case None => None)
      case DecimalKind =>
        (match p.parseDecimal(text) case Some(d) => Some(Dec(d)) case None => None)
      case DateKind =>
        (match p.parseDate(text) case Some(d) => Some(DateVal(d)) case None => None)
      case DateTimeKind =>
        (match p.parseDateTime(text) case Some(dt) => Some(DateTimeVal(dt)) case None => None)
  }

  /** Every field of `fields` except `record_id` can be coerced from `record`. */
  predicate Formattable(p: Parsers, fields: seq<Field>, record: RawRecord) {
    forall i :: 0 <= i < |fields| && fields[i].name != RecordId ==>
      Coerce(p, fields[i].kind, Lookup(record, fields[i].name)).Some?
  }

  /** The field names of `fields` other than `record_id`. */
  function DataFieldNames(fields: seq<Field>): set<string> {
    set i | 0 <= i < |fields| && fields[i].name != RecordId :: fields[i].name
  }

  /** No two fields share a name, as Django enforces for a model. */
  predicate DistinctNames(fields: seq<Field>) {
    forall i, j :: 0 <= i < j < |fields| ==> fields[i].name != fields[j].name
  }

  /** The `formatted_record` loop of `load_model_data`: one entry per
      non-key field, missing cells included (as NULL); the first field in
      declaration order whose conversion raises aborts the record. */
  function FormatRecord(p: Parsers, model: string, fields: seq<Field>, record: RawRecord): (r: Result<Row, LoadError>)
    ensures r.Err? ==> r.error.ConversionError? && r.error.model == model
    decreases |fields|
  {
    if |fields| == 0 then Ok(map[])
    else
      var f := fields[|fields| - 1];
      match FormatRecord(p, model, fields[..|fields| - 1], record)
      case Err(e) => Err(e)
      case Ok(row) =>
        if f.name == RecordId then Ok(row)
        else
          match Coerce(p, f.kind, Lookup(record, f.name))
          case None => Err(ConversionError(model, f.name, Lookup(record, f.name).value))
          case Some(v) => Ok(row[f.name := v])
  }

  /** Formatting succeeds exactly when every non-key field converts. */
  lemma {:induction false} FormatRecordSucceeds(p: Parsers, model: string, fields: seq<Field>, record: RawRecord)
    ensures FormatRecord(p, model, fields, record).Ok? <==> Formattable(p, fields, record)
    decreases |fields|
  {
    if |fields| > 0 {
      var prefix := fields[..|fields| - 1];
      var f := fields[|fields| - 1];
      FormatRecordSucceeds(p, model, prefix, record);
      assert forall i :: 0 <= i < |prefix| ==> prefix[i] == fields[i];
      assert Formattable(p, fields, record) <==>
        Formattable(p, prefix, record) && (f.name == RecordId || Coerce(p, f.kind, Lookup(record, f.name)).Some?);
    }
  }

  /** A formatted record has exactly the model's non-key fields as columns. */
  lemma {:induction false} FormatRecordKeys(p: Parsers, model: string, fields: seq<Field>, record: RawRecord)
    requires FormatRecord(p, model, fields, record).Ok?
    ensures FormatRecord(p, model, fields, record).value.Keys == DataFieldNames(fields)
    decreases |fields|
  {
    if |fields| > 0 {
      var prefix := fields[..|fields| - 1];
      var f := fields[|fields| - 1];
      FormatRecordKeys(p, model, prefix, record);
      assert forall i :: 0 <= i < |prefix| ==> prefix[i] == fields[i];
      assert DataFieldNames(fields) == DataFieldNames(prefix) + (if f.name != RecordId then {f.name} else {});
    }
  }

  /** Each non-key column of a formatted record holds that field's
      conversion of its raw cell. */
  lemma {:induction false} FormatRecordValues(p: Parsers, model: string, fields: seq<Field>, record: RawRecord)
    requires FormatRecord(p, model, fields, record).Ok?
    requires DistinctNames(fields)
    ensures forall i :: 0 <= i < |fields| && fields[i].name != RecordId ==>
      fields[i].name in FormatRecord(p, model, fields, record).value &&
      Coerce(p, fields[i].kind, Lookup(record, fields[i].name))
        == Some(FormatRecord(p, model, fields, record).value[fields[i].name])
    decreases |fields|
  {
    if |fields| > 0 {
      var prefix := fields[..|fields| - 1];
      FormatRecordValues(p, model, prefix, record);
      assert forall i :: 0 <= i < |prefix| ==> prefix[i] == fields[i];
    }
  }

  /** `FormatRecordValues` for a model whose field names may repeat. */
  lemma FormattedValuesWhenDistinct(p: Parsers, decl: ModelDecl, record: RawRecord)
    requires FormatRecord(p, decl.name, decl.fields, record).Ok?
    ensures DistinctNames(decl.fields) ==>
      forall i :: 0 <= i < |decl.fields| && decl.fields[i].name != RecordId ==>
        decl.fields[i].name in FormatRecord(p, decl.name, decl.fields, record).value &&
        Coerce(p, decl.fields[i].kind, Lookup(record, decl.fields[i].name))
          == Some(FormatRecord(p, decl.name, decl.fields, record).value[decl.fields[i].name])
  {
    if DistinctNames(decl.fields) {
      FormatRecordValues(p, decl.name, decl.fields, record);
    }
  }

  /** The key a record is filed under: its raw `record_id` cell, never coerced. */
  function RawKey(record: RawRecord): Value {
    match Lookup(record, RecordId)
    case None => Null
    case Some(s) => Str(s)
  }

  /** The rows of `rows` are a prefix of `rows'`: nothing existing changed. */
  predicate Extends(rows: seq<Row>, rows': seq<Row>) {
    |rows| <= |rows'| && rows'[..|rows|] == rows
  }

  /** No two rows share a `record_id`. */
  predicate UniqueIds(rows: seq<Row>) {
    forall i, j :: 0 <= i < j < |rows| ==> RowId(rows[i]) != RowId(rows[j])
  }

  /** The model declares a `record_id` field to look records up by. */
  predicate HasKeyField(decl: ModelDecl) {
    RecordId in FieldNames(decl.fields)
  }

  /** A record this model accepts without raising. */
  predicate Loadable(p: Parsers, decl: ModelDecl, record: RawRecord) {
    HasKeyField(decl) && Formattable(p, decl.fields, record)
  }

  /** One record against one model: the record is formatted first (which may
      raise), then a row is created from the formatted fields plus the raw
      `record_id` only when no row with that `record_id` exists. */
  function LoadRecord(p: Parsers, decl: ModelDecl, rows: seq<Row>, record: RawRecord): (r: Result<seq<Row>, LoadError>)
    ensures r.Ok? <==> Loadable(p, decl, record)
    ensures r.Err? ==> !r.error.UnknownModel?
    ensures r.Err? && Formattable(p, decl.fields, record) ==> r.error == NoKeyField(decl.name)
    ensures r.Ok? && HasRecord(rows, RawKey(record)) ==> r.value == rows
    ensures r.Ok? && !HasRecord(rows, RawKey(record)) ==>
      |r.value| == |rows| + 1 && Extends(rows, r.value)
      && RowId(r.value[|rows|]) == RawKey(record)
      && r.value[|rows|].Keys == DataFieldNames(decl.fields) + {RecordId}
    ensures r.Ok? && !HasRecord(rows, RawKey(record)) ==>
      FormatRecord(p, decl.name, decl.fields, record).Ok?
      && r.value[|rows|] == FormatRecord(p, decl.name, decl.fields, record).value[RecordId := RawKey(record)]
    ensures r.Ok? && !HasRecord(rows, RawKey(record)) && DistinctNames(decl.fields) ==>
      forall i :: 0 <= i < |decl.fields| && decl.fields[i].name != RecordId ==>
        Coerce(p, decl.fields[i].kind, Lookup(record, decl.fields[i].name)) == Some(r.value[|rows|][decl.fields[i].name])
    ensures FormatRecord(p, decl.name, decl.fields, record).Err? ==>
      r == Err(FormatRecord(p, decl.name, decl.fields, record).error)
    ensures r.Ok? ==> HasRecord(r.value, RawKey(record))
  {
    FormatRecordSucceeds(p, decl.name, decl.fields, record);
    match FormatRecord(p, decl.name, decl.fields, record)
    case Err(e) => Err(e)
    case Ok(formatted) =>
      if !HasKeyField(decl) then Err(NoKeyField(decl.name))
      else if HasRecord(rows, RawKey(record)) then Ok(rows)
      else
        FormatRecordKeys(p, decl.name, decl.fields, record);
        FormattedValuesWhenDistinct(p, decl, record);
        var rows' := rows + [formatted[RecordId := RawKey(record)]];
        assert RowId(rows'[|rows|]) == RawKey(record);
        Ok(rows')
  }

  /** Inserting one record never creates a second row for a `record_id`. */
  lemma LoadRecordKeepsIdsUnique(p: Parsers, decl: ModelDecl, rows: seq<Row>, record: RawRecord)
    requires UniqueIds(rows)
    requires LoadRecord(p, decl, rows, record).Ok?
    ensures UniqueIds(LoadRecord(p, decl, rows, record).value)
  {
    var rows' := LoadRecord(p, decl, rows, record).value;
    if !HasRecord(rows, RawKey(record)) {
      forall i, j | 0 <= i < j < |rows'|
        ensures RowId(rows'[i]) != RowId(rows'[j])
      {
        if j == |rows| {
          assert rows'[i] == rows[i];
        } else {
          assert rows'[i] == rows[i] && rows'[j] == rows[j];
        }
      }
    }
  }

  /** The rows of one model after loading `data`, and the error that stopped
      loading, if any. Rows inserted before the error stay. */
  datatype Loaded = Loaded(rows: seq<Row>, error: Option<LoadError>)

  /** The `for record in data` loop of `load_model_data` for one model. */
  function LoadRecords(p: Parsers, decl: ModelDecl, rows: seq<Row>, data: seq<RawRecord>): (r: Loaded)
    ensures Extends(rows, r.rows)
    ensures r.error.Some? ==> !r.error.value.UnknownModel?
    decreases |data|
  {
    if |data| == 0 then Loaded(rows, None)
    else
      var prev := LoadRecords(p, decl, rows, data[..|data| - 1]);
      if prev.error.Some? then prev
      else
        match LoadRecord(p, decl, prev.rows, data[|data| - 1])
        case Err(e) => Loaded(prev.rows, Some(e))
        case Ok(rows') => Loaded(rows', None)
  }

  /** Appending rows never loses a `record_id`. */
  lemma ExtendsKeepsRecords(rows: seq<Row>, rows': seq<Row>)
    requires Extends(rows, rows')
    ensures forall key :: HasRecord(rows, key) ==> HasRecord(rows', key)
  {
    forall key | HasRecord(rows, key)
      ensures HasRecord(rows', key)
    {
      var i :| 0 <= i < |rows| && RowId(rows[i]) == key;
      assert rows'[i] == rows[i];
    }
  }

  /** Loading keeps `record_id` unique in a table where it already was. */
  lemma {:induction false} LoadRecordsKeepsIdsUnique(p: Parsers, decl: ModelDecl, rows: seq<Row>, data: seq<RawRecord>)
    requires UniqueIds(rows)
    ensures UniqueIds(LoadRecords(p, decl, rows, data).rows)
    decreases |data|
  {
    if |data| > 0 {
      LoadRecordsKeepsIdsUnique(p, decl, rows, data[..|data| - 1]);
      var prev := LoadRecords(p, decl, rows, data[..|data| - 1]);
      if prev.error.None? && LoadRecord(p, decl, prev.rows, data[|data| - 1]).Ok? {
        LoadRecordKeepsIdsUnique(p, decl, prev.rows, data[|data| - 1]);
      }
    }
  }

  /** The last step of a load that raised nothing: the earlier records
      raised nothing either, and the last one was inserted or skipped. */
  lemma LoadRecordsLastStep(p: Parsers, decl: ModelDecl, rows: seq<Row>, data: seq<RawRecord>)
    requires |data| > 0
    requires LoadRecords(p, decl, rows, data).error.None?
    ensures var prev := LoadRecords(p, decl, rows, data[..|data| - 1]);
      prev.error.None? && LoadRecord(p, decl, prev.rows, data[|data| - 1]).Ok? &&
      LoadRecords(p, decl, rows, data).rows == LoadRecord(p, decl, prev.rows, data[|data| - 1]).value
  {
  }

  /** Every record of `data` is loadable and has a row in `rows`. */
  predicate AllFiled(p: Parsers, decl: ModelDecl, rows: seq<Row>, data: seq<RawRecord>) {
    forall i :: 0 <= i < |data| ==> Loadable(p, decl, data[i]) && HasRecord(rows, RawKey(data[i]))
  }

  lemma AllFiledStep(p: Parsers, decl: ModelDecl, rows: seq<Row>, rows': seq<Row>, data: seq<RawRecord>)
    requires |data| > 0
    requires AllFiled(p, decl, rows, data[..|data| - 1])
    requires Extends(rows, rows')
    requires Loadable(p, decl, data[|data| - 1]) && HasRecord(rows', RawKey(data[|data| - 1]))
    ensures AllFiled(p, decl, rows', data)
  {
    ExtendsKeepsRecords(rows, rows');
    forall i | 0 <= i < |data| - 1
      ensures Loadable(p, decl, data[i]) && HasRecord(rows', RawKey(data[i]))
    {
      assert data[..|data| - 1][i] == data[i];
    }
  }

  /** After a load that raised nothing, every record was loadable and
      has a row with its `record_id`. */
  lemma {:induction false} LoadRecordsFilesAll(p: Parsers, decl: ModelDecl, rows: seq<Row>, data: seq<RawRecord>)
    requires LoadRecords(p, decl, rows, data).error.None?
    ensures AllFiled(p, decl, LoadRecords(p, decl, rows, data).rows, data)
    decreases |data|
  {
    if |data| > 0 {
      var prefix := data[..|data| - 1];
      var prev := LoadRecords(p, decl, rows, prefix);
      LoadRecordsLastStep(p, decl, rows, data);
      LoadRecordsFilesAll(p, decl, rows, prefix);
      AllFiledStep(p, decl, prev.rows, LoadRecords(p, decl, rows, data).rows, data);
    }
  }

  /** A load over records that are all loadable and already filed leaves
      the rows exactly as they were. */
  lemma {:induction false} LoadRecordsSaturated(p: Parsers, decl: ModelDecl, rows: seq<Row>, data: seq<RawRecord>)
    requires AllFiled(p, decl, rows, data)
    ensures LoadRecords(p, decl, rows, data) == Loaded(rows, None)
    decreases |data|
  {
    if |data| > 0 {
      var prefix := data[..|data| - 1];
      assert forall i :: 0 <= i < |prefix| ==> prefix[i] == data[i];
      LoadRecordsSaturated(p, decl, rows, prefix);
    }
  }

  /** Reloading the same records into one model is a no-op: no row is added
      and none changes. */
  lemma LoadRecordsIdempotent(p: Parsers, decl: ModelDecl, rows: seq<Row>, data: seq<RawRecord>)
    requires LoadRecords(p, decl, rows, data).error.None?
    ensures var once := LoadRecords(p, decl, rows, data).rows;
      LoadRecords(p, decl, once, data) == Loaded(once, None)
  {
    var once := LoadRecords(p, decl, rows, data).rows;
    LoadRecordsFilesAll(p, decl, rows, data);
    LoadRecordsSaturated(p, decl, once, data);
  }

  /** The database after `load_model_data`, and the error that stopped it. */
  datatype LoadOutcome = LoadOutcome(db: Db, error: Option<LoadError>)

  /** One model of `load_model_data`: resolve the model, then load every record. */
  function LoadModel(p: Parsers, reg: Registry, db: Db, data: seq<RawRecord>, name: string): (r: LoadOutcome)
    ensures GetModel(reg, name).None? ==> r == LoadOutcome(db, Some(UnknownModel(name)))
    ensures r.error.Some? && r.error.value.UnknownModel? ==> GetModel(reg, name).None?
    ensures GetModel(reg, name).Some? ==>
      var table := GetModel(reg, name).value.name;
      table in r.db && r.db == db[table := r.db[table]] && Extends(RowsOf(db, table), r.db[table])
  {
    match GetModel(reg, name)
    case None => LoadOutcome(db, Some(UnknownModel(name)))
    case Some(decl) =>
      var loaded := LoadRecords(p, decl, RowsOf(db, decl.name), data);
      LoadOutcome(db[decl.name := loaded.rows], loaded.error)
  }

  /** `load_model_data(data, model_names)`: the models in order, stopping at
      the first error. */
  function LoadModelData(p: Parsers, reg: Registry, db: Db, data: seq<RawRecord>, names: seq<string>): (r: LoadOutcome)
    ensures r.error.Some? && r.error.value.UnknownModel? ==>
      r.error.value.model in names && GetModel(reg, r.error.value.model).None?
    decreases |names|
  {
    if |names| == 0 then LoadOutcome(db, None)
    else
      var prev := LoadModelData(p, reg, db, data, names[..|names| - 1]);
      if prev.error.Some? then prev
      else LoadModel(p, reg, prev.db, data, names[|names| - 1])
  }

  /** Loading only ever appends rows: every table of the old database is a
      prefix of the same table afterwards, error or not. */
  lemma {:induction false} LoadModelDataExtends(p: Parsers, reg: Registry, db: Db, data: seq<RawRecord>, names: seq<string>, m: string)
    ensures Extends(RowsOf(db, m), RowsOf(LoadModelData(p, reg, db, data, names).db, m))
    decreases |names|
  {
    if |names| > 0 {
      LoadModelDataExtends(p, reg, db, data, names[..|names| - 1], m);
      var prev := LoadModelData(p, reg, db, data, names[..|names| - 1]);
      var r := LoadModelData(p, reg, db, data, names);
      assert Extends(RowsOf(prev.db, m), RowsOf(r.db, m));
    }
  }

  /** The named model exists and has a table in which every record is
      loadable and already filed. */
  predicate ModelSaturated(p: Parsers, reg: Registry, db: Db, data: seq<RawRecord>, name: string) {
    GetModel(reg, name).Some? && GetModel(reg, name).value.name in db &&
    AllFiled(p, GetModel(reg, name).value, RowsOf(db, GetModel(reg, name).value.name), data)
  }

  predicate Saturated(p: Parsers, reg: Registry, db: Db, data: seq<RawRecord>, names: seq<string>) {
    forall n :: 0 <= n < |names| ==> ModelSaturated(p, reg, db, data, names[n])
  }

  /** Saturation survives appending rows to the model's table. */
  lemma ModelSaturatedGrows(p: Parsers, reg: Registry, db: Db, db': Db, data: seq<RawRecord>, name: string)
    requires ModelSaturated(p, reg, db, data, name)
    requires GetModel(reg, name).value.name in db'
    requires Extends(RowsOf(db, GetModel(reg, name).value.name), RowsOf(db', GetModel(reg, name).value.name))
    ensures ModelSaturated(p, reg, db', data, name)
  {
    var table := GetModel(reg, name).value.name;
    ExtendsKeepsRecords(RowsOf(db, table), RowsOf(db', table));
  }

  lemma {:induction false} LoadModelDataSaturated(p: Parsers, reg: Registry, db: Db, data: seq<RawRecord>, names: seq<string>)
    requires Saturated(p, reg, db, data, names)
    ensures LoadModelData(p, reg, db, data, names) == LoadOutcome(db, None)
    decreases |names|
  {
    if |names| > 0 {
      var prefix := names[..|names| - 1];
      assert forall n :: 0 <= n < |prefix| ==> prefix[n] == names[n];
      LoadModelDataSaturated(p, reg, db, data, prefix);
      assert ModelSaturated(p, reg, db, data, names[|names| - 1]);
      var decl := GetModel(reg, names[|names| - 1]).value;
      LoadRecordsSaturated(p, decl, RowsOf(db, decl.name), data);
      assert db[decl.name := RowsOf(db, decl.name)] == db;
    }
  }

  /** A successful load of one model saturates it and keeps every model
      that was saturated before saturated. */
  lemma LoadModelSaturates(p: Parsers, reg: Registry, db: Db, data: seq<RawRecord>, name: string)
    requires LoadModel(p, reg, db, data, name).error.None?
    ensures ModelSaturated(p, reg, LoadModel(p, reg, db, data, name).db, data, name)
    ensures forall other :: ModelSaturated(p, reg, db, data, other) ==>
      ModelSaturated(p, reg, LoadModel(p, reg, db, data, name).db, data, other)
  {
    var r := LoadModel(p, reg, db, data, name);
    var decl := GetModel(reg, name).value;
    LoadRecordsFilesAll(p, decl, RowsOf(db, decl.name), data);
    forall other | ModelSaturated(p, reg, db, data, other)
      ensures ModelSaturated(p, reg, r.db, data, other)
    {
      ModelSaturatedGrows(p, reg, db, r.db, data, other);
    }
  }

  /** Saturation of a list of models extends by one model. */
  lemma SaturatedStep(p: Parsers, reg: Registry, db: Db, db': Db, data: seq<RawRecord>, names: seq<string>)
    requires |names| > 0
    requires Saturated(p, reg, db, data, names[..|names| - 1])
    requires ModelSaturated(p, reg, db', data, names[|names| - 1])
    requires forall other :: ModelSaturated(p, reg, db, data, other) ==> ModelSaturated(p, reg, db', data, other)
    ensures Saturated(p, reg, db', data, names)
  {
    var prefix := names[..|names| - 1];
    forall n | 0 <= n < |names|
      ensures ModelSaturated(p, reg, db', data, names[n])
    {
      if n < |prefix| {
        assert prefix[n] == names[n];
        assert ModelSaturated(p, reg, db, data, prefix[n]);
      }
    }
  }

  lemma {:induction false} SuccessfulLoadSaturates(p: Parsers, reg: Registry, db: Db, data: seq<RawRecord>, names: seq<string>)
    requires LoadModelData(p, reg, db, data, names).error.None?
    ensures Saturated(p, reg, LoadModelData(p, reg, db, data, names).db, data, names)
    decreases |names|
  {
    if |names| > 0 {
      var prefix := names[..|names| - 1];
      var name := names[|names| - 1];
      var prev := LoadModelData(p, reg, db, data, prefix);
      assert LoadModel(p, reg, prev.db, data, name) == LoadModelData(p, reg, db, data, names);
      SuccessfulLoadSaturates(p, reg, db, data, prefix);
      LoadModelSaturates(p, reg, prev.db, data, name);
      SaturatedStep(p, reg, prev.db, LoadModelData(p, reg, db, data, names).db, data, names);
    }
  }

  /** Loading the same data a second time leaves the database unchanged, so
      every record count stays the same. */
  lemma LoadModelDataIdempotent(p: Parsers, reg: Registry, db: Db, data: seq<RawRecord>, names: seq<string>)
    requires LoadModelData(p, reg, db, data, names).error.None?
    ensures var once := LoadModelData(p, reg, db, data, names).db;
      LoadModelData(p, reg, once, data, names) == LoadOutcome(once, None)
  {
    SuccessfulLoadSaturates(p, reg, db, data, names);
    LoadModelDataSaturated(p, reg, LoadModelData(p, reg, db, data, names).db, data, names);
  }

  /** `load_model_data_all`: for each file, build its records and load them
      into that file's models, stopping at the first error. */
  function LoadAll(p: Parsers, reg: Registry, db: Db, files: seq<(seq<CsvRow>, seq<string>)>): (r: LoadOutcome)
    ensures r.error.Some? && r.error.value.UnknownModel? ==>
      exists k :: 0 <= k < |files| && r.error.value.model in files[k].1 && GetModel(reg, r.error.value.model).None?
    decreases |files|
  {
    if |files| == 0 then LoadOutcome(db, None)
    else
      var prev := LoadAll(p, reg, db, files[..|files| - 1]);
      if prev.error.Some? then prev
      else
        var (rows, names) := files[|files| - 1];
        var data := seq(|rows|, i requires 0 <= i < |rows| => ReadRow(rows[i]));
        LoadModelData(p, reg, prev.db, data, names)
  }

  /** Loading a batch of files only ever appends rows to every table. */
  lemma {:induction false} LoadAllExtends(p: Parsers, reg: Registry, db: Db, files: seq<(seq<CsvRow>, seq<string>)>, m: string)
    ensures Extends(RowsOf(db, m), RowsOf(LoadAll(p, reg, db, files).db, m))
    decreases |files|
  {
    if |files| > 0 {
      LoadAllExtends(p, reg, db, files[..|files| - 1], m);
      var prev := LoadAll(p, reg, db, files[..|files| - 1]);
      if prev.error.None? {
        var (rows, names) := files[|files| - 1];
        var data := seq(|rows|, i requires 0 <= i < |rows| => ReadRow(rows[i]));
        LoadModelDataExtends(p, reg, prev.db, data, names, m);
      }
    }
  }
}
