/** The ORM seen as an abstract store: an app registry of model declarations
    (name, verbose name, ordered field list) and, per model name, the
    sequence of its rows in table order. A row maps field names to values. */
module Store {
  import opened Wrappers
  import opened Text

  datatype Date = Date(year: int, month: int, day: int)
  datatype DateTime = DateTime(date: Date, hour: int, minute: int)

  /** A decimal number `coefficient * 10^exponent`, as Python's `Decimal`. */
  datatype Decimal = Decimal(coefficient: int, exponent: int)

  /** A stored field value; `Null` is SQL NULL / Python `None`. */
  datatype Value =
    | Null
    | Str(s: string)
    | Int(i: int)
    | Dec(d: Decimal)
    | DateVal(date: Date)
    | DateTimeVal(dt: DateTime)

  type Row = map<string, Value>

  /** The Django field classes the ingestion code distinguishes; every other
      field class is `Plain` and stores the raw text. */
  datatype FieldKind = Plain | IntegerKind | DecimalKind | DateKind | DateTimeKind

  datatype Field = Field(name: string, kind: FieldKind)

  /** A model class: its lower-case model name, verbose name and
      `_meta.fields` in declaration order. */
  datatype ModelDecl = ModelDecl(name: string, verboseName: string, fields: seq<Field>)

  /** The models of the app, in registration order. */
  type Registry = seq<ModelDecl>

  /** Rows per model name, in table order. */
  type Db = map<string, seq<Row>>

  /** The business key every data model carries. */
  const RecordId := "record_id"

  /** `[field.name for field in model_cls._meta.fields]`. */
  function FieldNames(fields: seq<Field>): (names: seq<string>)
    ensures |names| == |fields|
    ensures forall i :: 0 <= i < |fields| ==> names[i] == fields[i].name
  {
    seq(|fields|, i requires 0 <= i < |fields| => fields[i].name)
  }

  /** The model lookup of `apps.get_model(app_label, name)` inside the
      registry `reg` of an app already found by its label: the first model
      whose name equals the lower-cased request; `None` stands for Django's
      `LookupError`. Finding the app is left to the callers. */
  function GetModel(reg: Registry, name: string): (r: Option<ModelDecl>)
    ensures r.Some? ==> r.value in reg && r.value.name == Lower(name)
    ensures r.None? ==> forall i :: 0 <= i < |reg| ==> reg[i].name != Lower(name)
    decreases |reg|
  {
    if |reg| == 0 then None
    else if reg[0].name == Lower(name) then Some(reg[0])
    else GetModel(reg[1..], name)
  }

  /** `model_cls.objects.all()`. */
  function RowsOf(db: Db, model: string): seq<Row> {
    if model in db then db[model] else []
  }

  /** The `record_id` column of a row (NULL when the row has none). */
  function RowId(row: Row): Value {
    if RecordId in row then row[RecordId] else Null
  }

  /** `model_cls.objects.filter(record_id=key).exists()`. */
  predicate HasRecord(rows: seq<Row>, key: Value) {
    exists i :: 0 <= i < |rows| && RowId(rows[i]) == key
  }

  /** The `record_id` values of `rows`, in table order. */
  function RowIds(rows: seq<Row>): (ids: seq<Value>)
    ensures |ids| == |rows|
    ensures forall i :: 0 <= i < |rows| ==> ids[i] == RowId(rows[i])
  {
    seq(|rows|, i requires 0 <= i < |rows| => RowId(rows[i]))
  }
}
