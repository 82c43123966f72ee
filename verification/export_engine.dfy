/** The data side of an export (`prepare_export_data_task` with
    `fetch_model_data` and `get_model_related_fields`): every model is read
    page by page through `values(*fields)[offset:offset + chunk]`, each
    record's `record_id` is popped off and the rest is merged into one dict
    per `record_id`, later models overwriting earlier ones; the merged rows
    come out in first-seen order. */
module ExportEngine {
  import opened Wrappers
  import opened Seqs
  import opened Store

  /** Rows fetched per query. */
  const ChunkSize: nat := 10000

  /** The exceptions that abort an export: no app registered under the
      label, or an unknown model name within the app (both `LookupError`),
      a fetched record without `record_id` (the `KeyError` of `pop`), and a
      model without a `record_id` field when its ids are listed
      (`FieldError`). */
  datatype ExportError =
    | UnknownApp(appLabel: string)
    | UnknownModel(model: string)
    | MissingRecordId(model: string)
    | NoRecordIdField(model: string)

  // ---------------------------------------------------------------------
  // Projection

  /** `get_model_related_fields`: every field name in declaration order when
      no subset is requested, otherwise the requested names that are fields
      of the model, in request order. */
  function RelatedFields(decl: ModelDecl, exportFields: seq<string>): (r: seq<string>)
    ensures |exportFields| == 0 ==> r == FieldNames(decl.fields)
    ensures |exportFields| > 0 ==> forall i :: 0 <= i < |r| ==>
      r[i] in exportFields && r[i] in FieldNames(decl.fields)
    ensures |exportFields| > 0 ==> forall i :: 0 <= i < |exportFields| ==>
      (exportFields[i] in FieldNames(decl.fields) <==> exportFields[i] in r)
  {
    var names := FieldNames(decl.fields);
    if |exportFields| == 0 then names
    else Filter(exportFields, f => f in names)
  }

  /** When every requested name is a field, the request comes back as is,
      order and repetitions included. */
  lemma RelatedFieldsKeepsRequest(decl: ModelDecl, exportFields: seq<string>)
    requires |exportFields| > 0
    requires forall i :: 0 <= i < |exportFields| ==> exportFields[i] in FieldNames(decl.fields)
    ensures RelatedFields(decl, exportFields) == exportFields
  {
    var names := FieldNames(decl.fields);
    FilterAll(exportFields, f => f in names);
  }

  /** The request is filtered element by element: the result for a request
      split in two is the result for the first part followed by the result
      for the second, so request order and repetitions are kept. */
  lemma RelatedFieldsAppend(decl: ModelDecl, a: seq<string>, b: seq<string>)
    requires |a| > 0 && |b| > 0
    ensures RelatedFields(decl, a + b) == RelatedFields(decl, a) + RelatedFields(decl, b)
  {
    var names := FieldNames(decl.fields);
    FilterAppend(a, b, f => f in names);
  }

  /** A one-name request yields that name when it is a field and nothing
      otherwise. */
  lemma RelatedFieldsSingle(decl: ModelDecl, f: string)
    ensures RelatedFields(decl, [f]) == if f in FieldNames(decl.fields) then [f] else []
  {
    var names := FieldNames(decl.fields);
    assert [f][..0] == [];
  }

  /** The keys of every dict `values(*fields)` yields. With no names Django
      returns all fields, so a request none of whose names is a field of the
      model fetches the whole model. */
  function ValuesKeys(decl: ModelDecl, fields: seq<string>): set<string> {
    if |fields| == 0 then set i | 0 <= i < |decl.fields| :: decl.fields[i].name
    else set i | 0 <= i < |fields| :: fields[i]
  }

  /** One dict of `values(*fields)` for a stored row. */
  function Project(decl: ModelDecl, row: Row, fields: seq<string>): (r: Row)
    ensures r.Keys == ValuesKeys(decl, fields)
    ensures forall k :: k in r ==> r[k] == if k in row then row[k] else Null
  {
    map k | k in ValuesKeys(decl, fields) :: if k in row then row[k] else Null
  }

  /** The projected dicts of a whole table, in table order. */
  function ProjectAll(decl: ModelDecl, rows: seq<Row>, fields: seq<string>): (r: seq<Row>)
    ensures |r| == |rows|
    ensures forall i :: 0 <= i < |rows| ==> r[i] == Project(decl, rows[i], fields)
  {
    seq(|rows|, i requires 0 <= i < |rows| => Project(decl, rows[i], fields))
  }

  // ---------------------------------------------------------------------
  // Paging

  /** Python's `xs[offset:offset + limit]` for non-negative bounds. */
  function Page<T>(xs: seq<T>, offset: nat, limit: nat): (r: seq<T>)
    ensures offset >= |xs| ==> r == []
    ensures offset < |xs| ==> |r| == (if offset + limit <= |xs| then limit else |xs| - offset)
    ensures forall i :: 0 <= i < |r| ==> offset + i < |xs| && r[i] == xs[offset + i]
  {
    if offset >= |xs| then []
    else if offset + limit <= |xs| then xs[offset..offset + limit]
    else xs[offset..]
  }

  /** The pages the fetch loop visits from `offset` on: chunk after chunk,
      up to (not including) the first empty page. */
  function Pages<T>(xs: seq<T>, chunk: nat, offset: nat): seq<seq<T>>
    requires chunk > 0
    decreases if offset < |xs| then |xs| - offset else 0
  {
    var page := Page(xs, offset, chunk);
    if |page| == 0 then [] else [page] + Pages(xs, chunk, offset + chunk)
  }

  function Concat<T>(pages: seq<seq<T>>): seq<T>
    decreases |pages|
  {
    if |pages| == 0 then [] else pages[0] + Concat(pages[1..])
  }

  lemma PagesStep<T>(xs: seq<T>, chunk: nat, offset: nat)
    requires chunk > 0 && offset < |xs|
    ensures Concat(Pages(xs, chunk, offset)) == Page(xs, offset, chunk) + Concat(Pages(xs, chunk, offset + chunk))
  {
    var page := Page(xs, offset, chunk);
    var rest := Pages(xs, chunk, offset + chunk);
    assert Pages(xs, chunk, offset) == [page] + rest;
    assert ([page] + rest)[1..] == rest;
  }

  lemma PageThenRest<T>(xs: seq<T>, chunk: nat, offset: nat)
    requires chunk > 0 && offset < |xs|
    ensures xs[offset..] == Page(xs, offset, chunk) + (if offset + chunk < |xs| then xs[offset + chunk..] else [])
  {
  }

  /** Paging visits every element exactly once and in order: the pages laid
      end to end are the sequence from `offset` on. */
  lemma {:induction false} PagesCover<T>(xs: seq<T>, chunk: nat, offset: nat)
    requires chunk > 0
    ensures Concat(Pages(xs, chunk, offset)) == if offset < |xs| then xs[offset..] else []
    decreases if offset < |xs| then |xs| - offset else 0
  {
    if offset < |xs| {
      var page := Page(xs, offset, chunk);
      var tail := if offset + chunk < |xs| then xs[offset + chunk..] else [];
      PagesStep(xs, chunk, offset);
      PagesCover(xs, chunk, offset + chunk);
      assert Concat(Pages(xs, chunk, offset + chunk)) == tail;
      PageThenRest(xs, chunk, offset);
      assert xs[offset..] == page + tail;
    } else {
      assert Pages(xs, chunk, offset) == [];
    }
  }

  /** The elements before a page followed by the page are the elements up
      to its end. */
  lemma PageExtendsPrefix<T>(xs: seq<T>, offset: nat, limit: nat)
    requires offset < |xs|
    ensures xs[..offset] + Page(xs, offset, limit) ==
      xs[..if offset + limit < |xs| then offset + limit else |xs|]
  {
  }

  /** `fetch_model_data(model_cls, export_fields, offset, limit)`. */
  function FetchModelData(decl: ModelDecl, rows: seq<Row>, exportFields: seq<string>, offset: nat, limit: nat): (r: seq<Row>)
    ensures r == Page(ProjectAll(decl, rows, RelatedFields(decl, exportFields)), offset, limit)
  {
    var fields := RelatedFields(decl, exportFields);
    seq(|Page(rows, offset, limit)|, i requires 0 <= i < |Page(rows, offset, limit)| =>
      Project(decl, Page(rows, offset, limit)[i], fields))
  }

  // ---------------------------------------------------------------------
  // Merging

  /** The `defaultdict(dict)` of `prepare_export_data_task`: its keys in insertion order, and
      the merged fields per `record_id`. */
  datatype MergeState = MergeState(order: seq<Value>, data: map<Value, Row>)

  const EmptyState := MergeState([], map[])

  /** The key order lists every key once, and no merged dict holds
      `record_id` (it was popped). */
  predicate Valid(s: MergeState) {
    Distinct(s.order)
    && (forall i :: 0 <= i < |s.order| ==> s.order[i] in s.data)
    && (forall k :: k in s.data ==> k in s.order)
    && (forall k :: k in s.data ==> RecordId !in s.data[k])
  }

  /** Every record carries a `record_id`. */
  predicate HasIds(recs: seq<Row>) {
    forall i :: 0 <= i < |recs| ==> RecordId in recs[i]
  }

  function Ids(recs: seq<Row>): (ids: seq<Value>)
    requires HasIds(recs)
    ensures |ids| == |recs|
    ensures forall i :: 0 <= i < |recs| ==> ids[i] == recs[i][RecordId]
  {
    seq(|recs|, i requires 0 <= i < |recs| => recs[i][RecordId])
  }

  lemma IdsAppend(a: seq<Row>, b: seq<Row>)
    requires HasIds(a) && HasIds(b)
    ensures HasIds(a + b) && Ids(a + b) == Ids(a) + Ids(b)
  {
    assert HasIds(a + b);
  }

  /** `record_id = record.pop('record_id'); data[record_id].update(record)`. */
  function Absorb(s: MergeState, record: Row): (r: MergeState)
    requires RecordId in record
    ensures r.data.Keys == s.data.Keys + {record[RecordId]}
    ensures |s.order| <= |r.order| && r.order[..|s.order|] == s.order
  {
    var id := record[RecordId];
    var rest := record - {RecordId};
    if id in s.data then MergeState(s.order, s.data[id := s.data[id] + rest])
    else MergeState(s.order + [id], s.data[id := rest])
  }

  /** Absorbing a record keeps the state well formed, files the record's
      fields (all but `record_id`) under its id, overwriting, and leaves
      every other id alone. */
  lemma AbsorbSpec(s: MergeState, record: Row)
    requires RecordId in record
    ensures Valid(s) ==> Valid(Absorb(s, record))
    ensures Absorb(s, record).data.Keys == s.data.Keys + {record[RecordId]}
    ensures forall k :: k in record && k != RecordId ==>
      k in Absorb(s, record).data[record[RecordId]] && Absorb(s, record).data[record[RecordId]][k] == record[k]
    ensures record[RecordId] in s.data ==> forall k :: k in s.data[record[RecordId]] && k !in record ==>
      k in Absorb(s, record).data[record[RecordId]] && Absorb(s, record).data[record[RecordId]][k] == s.data[record[RecordId]][k]
    ensures forall k :: k in Absorb(s, record).data[record[RecordId]] ==>
      k in record || (record[RecordId] in s.data && k in s.data[record[RecordId]])
    ensures forall id :: id in s.data && id != record[RecordId] ==> Absorb(s, record).data[id] == s.data[id]
  {
  }

  /** The records absorbed one after the other. */
  function AbsorbAll(s: MergeState, recs: seq<Row>): (r: MergeState)
    requires HasIds(recs)
    ensures |s.order| <= |r.order| && r.order[..|s.order|] == s.order
    decreases |recs|
  {
    if |recs| == 0 then s
    else Absorb(AbsorbAll(s, recs[..|recs| - 1]), recs[|recs| - 1])
  }

  lemma {:induction false} AbsorbAllValid(s: MergeState, recs: seq<Row>)
    requires Valid(s) && HasIds(recs)
    ensures Valid(AbsorbAll(s, recs))
    decreases |recs|
  {
    if |recs| > 0 {
      AbsorbAllValid(s, recs[..|recs| - 1]);
      AbsorbSpec(AbsorbAll(s, recs[..|recs| - 1]), recs[|recs| - 1]);
    }
  }

  lemma {:induction false} AbsorbAllAppend(s: MergeState, a: seq<Row>, b: seq<Row>)
    requires HasIds(a) && HasIds(b)
    ensures HasIds(a + b)
    ensures AbsorbAll(s, a + b) == AbsorbAll(AbsorbAll(s, a), b)
    decreases |b|
  {
    if |b| == 0 {
      assert a + b == a;
    } else {
      var b' := b[..|b| - 1];
      assert (a + b)[..|a + b| - 1] == a + b';
      AbsorbAllAppend(s, a, b');
    }
  }

  /** `prior` followed by the values of `xs` not seen before, each once, in
      first-seen order: the key order of a dict filled from `xs`. */
  function Dedup(prior: seq<Value>, xs: seq<Value>): (r: seq<Value>)
    ensures Distinct(prior) ==> Distinct(r)
    ensures |prior| <= |r| && r[..|prior|] == prior
    ensures forall v :: v in r <==> v in prior || v in xs
    decreases |xs|
  {
    if |xs| == 0 then prior
    else
      var d := Dedup(prior, xs[..|xs| - 1]);
      assert forall v :: v in xs <==> v in xs[..|xs| - 1] || v == xs[|xs| - 1];
      if xs[|xs| - 1] in d then d else d + [xs[|xs| - 1]]
  }

  lemma {:induction false} DedupAppend(prior: seq<Value>, a: seq<Value>, b: seq<Value>)
    ensures Dedup(prior, a + b) == Dedup(Dedup(prior, a), b)
    decreases |b|
  {
    if |b| == 0 {
      assert a + b == a;
    } else {
      var b' := b[..|b| - 1];
      assert (a + b)[..|a + b| - 1] == a + b';
      DedupAppend(prior, a, b');
    }
  }

  /** The merged keys come out in first-seen order, each once. */
  lemma {:induction false} AbsorbAllOrder(s: MergeState, recs: seq<Row>)
    requires Valid(s) && HasIds(recs)
    ensures AbsorbAll(s, recs).order == Dedup(s.order, Ids(recs))
    decreases |recs|
  {
    if |recs| > 0 {
      var prefix := recs[..|recs| - 1];
      var id := recs[|recs| - 1][RecordId];
      AbsorbAllOrder(s, prefix);
      var mid := AbsorbAll(s, prefix);
      AbsorbAllValid(s, prefix);
      assert Ids(recs)[..|recs| - 1] == Ids(prefix);
      assert Ids(recs)[|recs| - 1] == id;
      assert id in mid.data <==> id in mid.order;
    }
  }

  /** The value the last record for `id` that has field `k` gives it. */
  function LastValue(recs: seq<Row>, id: Value, k: string): Option<Value>
    requires HasIds(recs)
    decreases |recs|
  {
    if |recs| == 0 then None
    else
      var last := recs[|recs| - 1];
      if last[RecordId] == id && k in last then Some(last[k])
      else LastValue(recs[..|recs| - 1], id, k)
  }

  /** An id is merged iff it was there before or some record carries it. */
  lemma {:induction false} AbsorbAllIds(s: MergeState, recs: seq<Row>, id: Value)
    requires HasIds(recs)
    ensures id in AbsorbAll(s, recs).data <==> id in s.data || id in Ids(recs)
    decreases |recs|
  {
    if |recs| > 0 {
      var prefix := recs[..|recs| - 1];
      var last := recs[|recs| - 1];
      AbsorbAllIds(s, prefix, id);
      assert Ids(recs) == Ids(prefix) + [last[RecordId]];
    }
  }

  /** The last record of the id carrying the field gives its value. */
  lemma {:induction false} AbsorbAllLast(s: MergeState, recs: seq<Row>, id: Value, k: string)
    requires HasIds(recs) && k != RecordId
    requires LastValue(recs, id, k).Some?
    ensures var r := AbsorbAll(s, recs);
      id in r.data && k in r.data[id] && r.data[id][k] == LastValue(recs, id, k).value
    decreases |recs|
  {
    var prefix := recs[..|recs| - 1];
    var last := recs[|recs| - 1];
    var mid := AbsorbAll(s, prefix);
    assert AbsorbAll(s, recs) == Absorb(mid, last);
    AbsorbSpec(mid, last);
    if !(last[RecordId] == id && k in last) {
      AbsorbAllLast(s, prefix, id, k);
    }
  }

  /** Without a record of the id carrying the field, the field is as it was
      before the merge, and absent for an id the merge added. */
  lemma {:induction false} AbsorbAllKept(s: MergeState, recs: seq<Row>, id: Value, k: string)
    requires HasIds(recs) && k != RecordId
    requires LastValue(recs, id, k).None?
    ensures var r := AbsorbAll(s, recs);
      (id in r.data && id in s.data ==>
         (k in r.data[id] <==> k in s.data[id]) && (k in r.data[id] ==> r.data[id][k] == s.data[id][k]))
      && (id in r.data && id !in s.data ==> k !in r.data[id])
    decreases |recs|
  {
    if |recs| > 0 {
      var prefix := recs[..|recs| - 1];
      var last := recs[|recs| - 1];
      AbsorbAllKept(s, prefix, id, k);
      AbsorbAllIds(s, prefix, id);
      var mid := AbsorbAll(s, prefix);
      assert AbsorbAll(s, recs) == Absorb(mid, last);
      AbsorbSpec(mid, last);
    }
  }

  /** Later records win: a merged field holds the value of the last record
      for that id carrying the field, and is left as it was when no record
      carries it. */
  lemma AbsorbAllField(s: MergeState, recs: seq<Row>, id: Value, k: string)
    requires HasIds(recs) && k != RecordId
    ensures var r := AbsorbAll(s, recs);
      (id in r.data <==> id in s.data || id in Ids(recs))
      && (LastValue(recs, id, k).Some? ==> id in r.data && k in r.data[id] && r.data[id][k] == LastValue(recs, id, k).value)
      && (LastValue(recs, id, k).None? && id in r.data && id in s.data ==>
            (k in r.data[id] <==> k in s.data[id]) && (k in r.data[id] ==> r.data[id][k] == s.data[id][k]))
      && (LastValue(recs, id, k).None? && id in r.data && id !in s.data ==> k !in r.data[id])
  {
    AbsorbAllIds(s, recs, id);
    if LastValue(recs, id, k).Some? {
      AbsorbAllLast(s, recs, id, k);
    } else {
      AbsorbAllKept(s, recs, id, k);
    }
  }

  /** The rows written out: `{'record_id': record_id, **record_data}` per
      key, in key order. */
  function Merged(s: MergeState): (rows: seq<Row>)
    ensures |rows| == |s.order|
    ensures forall i :: 0 <= i < |rows| ==> RowId(rows[i]) == s.order[i]
  {
    seq(|s.order|, i requires 0 <= i < |s.order| =>
      (if s.order[i] in s.data then s.data[s.order[i]] else map[])[RecordId := s.order[i]])
  }

  // ---------------------------------------------------------------------
  // The whole export, as a function

  /** All records of one model merged into `s`; the `pop` raises on the
      first fetched record when the projection lost `record_id`. */
  function MergeModel(s: MergeState, decl: ModelDecl, rows: seq<Row>, exportFields: seq<string>): (r: Result<MergeState, ExportError>)
    ensures r.Err? <==> |rows| > 0 && RecordId !in ValuesKeys(decl, RelatedFields(decl, exportFields))
    ensures r.Ok? ==> HasIds(ProjectAll(decl, rows, RelatedFields(decl, exportFields)))
    ensures r.Err? ==> r.error == MissingRecordId(decl.name)
    ensures Valid(s) && r.Ok? ==> Valid(r.value)
  {
    var fields := RelatedFields(decl, exportFields);
    var recs := ProjectAll(decl, rows, fields);
    if |rows| > 0 && RecordId !in ValuesKeys(decl, fields) then Err(MissingRecordId(decl.name))
    else
      if Valid(s) then AbsorbAllValid(s, recs); Ok(AbsorbAll(s, recs))
      else Ok(AbsorbAll(s, recs))
  }

  /** The model loop of `prepare_export_data_task`, stopping at the first
      exception. */
  function MergeModels(reg: Registry, db: Db, names: seq<string>, exportFields: seq<string>): (r: Result<MergeState, ExportError>)
    ensures r.Ok? ==> Valid(r.value)
    ensures r.Ok? ==> forall i :: 0 <= i < |names| ==> GetModel(reg, names[i]).Some?
    ensures r.Err? && r.error.UnknownModel? ==> r.error.model in names && GetModel(reg, r.error.model).None?
    ensures r.Err? ==> r.error.UnknownModel? || r.error.MissingRecordId?
    decreases |names|
  {
    if |names| == 0 then Ok(EmptyState)
    else
      InitElements(names);
      match MergeModels(reg, db, names[..|names| - 1], exportFields)
      case Err(e) => Err(e)
      case Ok(s) =>
        match GetModel(reg, names[|names| - 1])
        case None => Err(UnknownModel(names[|names| - 1]))
        case Some(decl) => MergeModel(s, decl, RowsOf(db, decl.name), exportFields)
  }

  /** The merged rows of a successful export, or the exception. */
  function MergeExport(reg: Registry, db: Db, names: seq<string>, exportFields: seq<string>): (r: Result<seq<Row>, ExportError>)
    ensures r.Ok? ==> Distinct(RowIds(r.value))
    ensures r.Ok? ==> forall i :: 0 <= i < |r.value| ==> RecordId in r.value[i]
    ensures r.Err? ==> r.error.UnknownModel? || r.error.MissingRecordId?
    ensures |names| == 0 ==> r == Ok([])
  {
    match MergeModels(reg, db, names, exportFields)
    case Err(e) => Err(e)
    case Ok(s) => Ok(Merged(s))
  }

  /** Once a model raises, the export has failed whatever follows. */
  lemma {:induction false} MergeModelsErrSticks(reg: Registry, db: Db, names: seq<string>, exportFields: seq<string>, n: nat)
    requires n <= |names|
    requires MergeModels(reg, db, names[..n], exportFields).Err?
    ensures MergeModels(reg, db, names, exportFields) == MergeModels(reg, db, names[..n], exportFields)
    decreases |names| - n
  {
    if n < |names| {
      assert names[..n + 1][..n] == names[..n];
      MergeModelsErrSticks(reg, db, names, exportFields, n + 1);
    } else {
      assert names[..n] == names;
    }
  }

  // ---------------------------------------------------------------------
  // Reference definitions: all records in model order, and the id union

  /** Every projected record of every named model, model after model. */
  function AllRecords(reg: Registry, db: Db, names: seq<string>, exportFields: seq<string>): seq<Row>
    decreases |names|
  {
    if |names| == 0 then []
    else
      AllRecords(reg, db, names[..|names| - 1], exportFields) +
      match GetModel(reg, names[|names| - 1])
      case None => []
      case Some(decl) => ProjectAll(decl, RowsOf(db, decl.name), RelatedFields(decl, exportFields))
  }

  /** A successful merge is the one-by-one absorption of every record of
      every model, in model order. */
  lemma {:induction false} MergeModelsIsAbsorbAll(reg: Registry, db: Db, names: seq<string>, exportFields: seq<string>)
    requires MergeModels(reg, db, names, exportFields).Ok?
    ensures HasIds(AllRecords(reg, db, names, exportFields))
    ensures MergeModels(reg, db, names, exportFields).value == AbsorbAll(EmptyState, AllRecords(reg, db, names, exportFields))
    decreases |names|
  {
    if |names| > 0 {
      var prefix := names[..|names| - 1];
      MergeModelsIsAbsorbAll(reg, db, prefix, exportFields);
      var decl := GetModel(reg, names[|names| - 1]).value;
      var recs := ProjectAll(decl, RowsOf(db, decl.name), RelatedFields(decl, exportFields));
      AbsorbAllAppend(EmptyState, AllRecords(reg, db, prefix, exportFields), recs);
    }
  }

  /** `get_unique_record_ids`: the union of every named model's `record_id`
      column. */
  function UniqueRecordIds(reg: Registry, db: Db, names: seq<string>): (r: Result<set<Value>, ExportError>)
    ensures r.Ok? ==> forall i :: 0 <= i < |names| ==>
      GetModel(reg, names[i]).Some? && RecordId in FieldNames(GetModel(reg, names[i]).value.fields)
    ensures r.Err? && r.error.UnknownModel? ==> r.error.model in names && GetModel(reg, r.error.model).None?
    decreases |names|
  {
    if |names| == 0 then Ok({})
    else
      match UniqueRecordIds(reg, db, names[..|names| - 1])
      case Err(e) => Err(e)
      case Ok(ids) =>
        match GetModel(reg, names[|names| - 1])
        case None => Err(UnknownModel(names[|names| - 1]))
        case Some(decl) =>
          if RecordId !in FieldNames(decl.fields) then Err(NoRecordIdField(decl.name))
          else
            var rows := RowsOf(db, decl.name);
            Ok(ids + set i | 0 <= i < |rows| :: RowId(rows[i]))
  }

  /** The record ids of all records merged, as a set, are the
      `get_unique_record_ids` union. */
  lemma {:induction false} AllRecordIdsAreUnique(reg: Registry, db: Db, names: seq<string>, exportFields: seq<string>)
    requires MergeModels(reg, db, names, exportFields).Ok?
    requires UniqueRecordIds(reg, db, names).Ok?
    ensures HasIds(AllRecords(reg, db, names, exportFields))
    ensures forall v :: v in Ids(AllRecords(reg, db, names, exportFields)) <==> v in UniqueRecordIds(reg, db, names).value
    decreases |names|
  {
    if |names| > 0 {
      var prefix := names[..|names| - 1];
      var decl := GetModel(reg, names[|names| - 1]).value;
      var rows := RowsOf(db, decl.name);
      var recs := ProjectAll(decl, rows, RelatedFields(decl, exportFields));
      var before := AllRecords(reg, db, prefix, exportFields);
      assert MergeModels(reg, db, prefix, exportFields).Ok?;
      assert MergeModel(MergeModels(reg, db, prefix, exportFields).value, decl, rows, exportFields).Ok?;
      AllRecordIdsAreUnique(reg, db, prefix, exportFields);
      var ids := UniqueRecordIds(reg, db, prefix).value;
      var added := set i | 0 <= i < |rows| :: RowId(rows[i]);
      assert UniqueRecordIds(reg, db, names).value == ids + added;
      assert AllRecords(reg, db, names, exportFields) == before + recs;
      IdsAppend(before, recs);
      ProjectedIdsAreRowIds(decl, rows, exportFields);
    }
  }

  /** Projected records that keep `record_id` carry exactly the stored ids. */
  lemma ProjectedIdsAreRowIds(decl: ModelDecl, rows: seq<Row>, exportFields: seq<string>)
    requires HasIds(ProjectAll(decl, rows, RelatedFields(decl, exportFields)))
    ensures forall v :: v in Ids(ProjectAll(decl, rows, RelatedFields(decl, exportFields))) <==>
      v in set i | 0 <= i < |rows| :: RowId(rows[i])
  {
    var recs := ProjectAll(decl, rows, RelatedFields(decl, exportFields));
    forall i | 0 <= i < |rows|
      ensures Ids(recs)[i] == RowId(rows[i])
    {
      assert RecordId in recs[i];
    }
  }

  /** The exported rows: one per distinct `record_id`, in first-seen order,
      and exactly the ids `get_unique_record_ids` reports. */
  lemma ExportRowsAreUniqueIds(reg: Registry, db: Db, names: seq<string>, exportFields: seq<string>)
    requires MergeExport(reg, db, names, exportFields).Ok?
    requires UniqueRecordIds(reg, db, names).Ok?
    ensures HasIds(AllRecords(reg, db, names, exportFields))
    ensures RowIds(MergeExport(reg, db, names, exportFields).value) == Dedup([], Ids(AllRecords(reg, db, names, exportFields)))
    ensures Distinct(RowIds(MergeExport(reg, db, names, exportFields).value))
    ensures forall v :: v in RowIds(MergeExport(reg, db, names, exportFields).value) <==> v in UniqueRecordIds(reg, db, names).value
  {
    var recs := AllRecords(reg, db, names, exportFields);
    MergeModelsIsAbsorbAll(reg, db, names, exportFields);
    AllRecordIdsAreUnique(reg, db, names, exportFields);
    AbsorbAllOrder(EmptyState, recs);
    var rows := MergeExport(reg, db, names, exportFields).value;
    assert RowIds(rows) == AbsorbAll(EmptyState, recs).order;
  }

  /** Each exported row holds, besides its `record_id`, exactly the fields
      some fetched record with that id carried, each with the value of the
      last such record: later models overwrite earlier ones, even with NULL. */
  lemma ExportRowFields(reg: Registry, db: Db, names: seq<string>, exportFields: seq<string>, i: nat, k: string)
    requires MergeExport(reg, db, names, exportFields).Ok?
    requires i < |MergeExport(reg, db, names, exportFields).value|
    requires k != RecordId
    ensures HasIds(AllRecords(reg, db, names, exportFields))
    ensures var row := MergeExport(reg, db, names, exportFields).value[i];
      var last := LastValue(AllRecords(reg, db, names, exportFields), RowId(row), k);
      (k in row <==> last.Some?) && (last.Some? ==> row[k] == last.value)
  {
    var recs := AllRecords(reg, db, names, exportFields);
    MergeModelsIsAbsorbAll(reg, db, names, exportFields);
    var s := AbsorbAll(EmptyState, recs);
    AbsorbAllValid(EmptyState, recs);
    var id := s.order[i];
    AbsorbAllField(EmptyState, recs, id, k);
    assert MergeExport(reg, db, names, exportFields).value[i] == s.data[id][RecordId := id];
  }

  // ---------------------------------------------------------------------
  // The paged loop

  /** The `for record in records` loop over one fetched page; `None` when a
      record has no `record_id` to pop. */
  method AbsorbPage(acc: MergeState, page: seq<Row>) returns (r: Option<MergeState>)
    ensures r.Some? <==> HasIds(page)
    ensures r.Some? ==> r.value == AbsorbAll(acc, page)
  {
    var cur := acc;
    var j := 0;
    while j < |page|
      invariant 0 <= j <= |page|
      invariant HasIds(page[..j])
      invariant cur == AbsorbAll(acc, page[..j])
    {
      if RecordId !in page[j] {
        return None;
      }
      assert page[..j + 1][..j] == page[..j];
      assert HasIds(page[..j + 1]);
      assert AbsorbAll(acc, page[..j + 1]) == Absorb(AbsorbAll(acc, page[..j]), page[j]);
      cur := Absorb(cur, page[j]);
      j := j + 1;
    }
    assert page[..j] == page;
    return Some(cur);
  }

  /** One model, read page by page as `prepare_export_data_task` does. */
  method MergeModelPaged(s: MergeState, decl: ModelDecl, rows: seq<Row>, exportFields: seq<string>)
    returns (r: Result<MergeState, ExportError>)
    ensures r == MergeModel(s, decl, rows, exportFields)
  {
    var fields := RelatedFields(decl, exportFields);
    ghost var recs := ProjectAll(decl, rows, fields);
    var acc := s;
    var offset := 0;
    while true
      invariant offset < |rows| + ChunkSize
      invariant offset > 0 ==> RecordId in ValuesKeys(decl, fields)
      invariant HasIds(recs[..if offset < |recs| then offset else |recs|])
      invariant acc == AbsorbAll(s, recs[..if offset < |recs| then offset else |recs|])
      decreases |rows| + ChunkSize - offset
    {
      ghost var done := recs[..if offset < |recs| then offset else |recs|];
      var page := FetchModelData(decl, rows, exportFields, offset, ChunkSize);
      if |page| == 0 {
        assert done == recs;
        return Ok(acc);
      }
      var step := AbsorbPage(acc, page);
      if step.None? {
        var j :| 0 <= j < |page| && RecordId !in page[j];
        assert page[j] == Project(decl, rows[offset + j], fields);
        return Err(MissingRecordId(decl.name));
      }
      assert page[0] == Project(decl, rows[offset], fields);
      AbsorbAllAppend(s, done, page);
      acc := step.value;
      PageExtendsPrefix(recs, offset, ChunkSize);
      offset := offset + ChunkSize;
    }
  }

  /** One more model of the merge, after a successful prefix. */
  lemma MergeModelsNext(reg: Registry, db: Db, names: seq<string>, exportFields: seq<string>, n: nat, s: MergeState)
    requires n < |names| && MergeModels(reg, db, names[..n], exportFields) == Ok(s)
    ensures GetModel(reg, names[n]).None? ==>
      MergeModels(reg, db, names[..n + 1], exportFields) == Err(UnknownModel(names[n]))
    ensures GetModel(reg, names[n]).Some? ==>
      var decl := GetModel(reg, names[n]).value;
      MergeModels(reg, db, names[..n + 1], exportFields) == MergeModel(s, decl, RowsOf(db, decl.name), exportFields)
  {
    assert names[..n + 1][..n] == names[..n];
  }

  /** `prepare_export_data_task` up to the merged rows; equal to the
      functional definition above. */
  method PrepareExport(reg: Registry, db: Db, names: seq<string>, exportFields: seq<string>)
    returns (r: Result<seq<Row>, ExportError>)
    ensures r == MergeExport(reg, db, names, exportFields)
  {
    var s := EmptyState;
    var n := 0;
    while n < |names|
      invariant 0 <= n <= |names|
      invariant MergeModels(reg, db, names[..n], exportFields) == Ok(s)
    {
      MergeModelsNext(reg, db, names, exportFields, n, s);
      match GetModel(reg, names[n])
      case None =>
        MergeModelsErrSticks(reg, db, names, exportFields, n + 1);
        return Err(UnknownModel(names[n]));
      case Some(decl) =>
        var step := MergeModelPaged(s, decl, RowsOf(db, decl.name), exportFields);
        if step.Err? {
          MergeModelsErrSticks(reg, db, names, exportFields, n + 1);
          return Err(step.error);
        }
        s := step.value;
      n := n + 1;
    }
    assert names[..n] == names;
    return Ok(Merged(s));
  }
}
