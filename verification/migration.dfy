/** The `migrate_data` command: every row of the old per-project models is
    turned into a dictionary, stripped of its primary key, optionally
    renamed through a field mapping, passed through `format_all_fields` and
    created in the merged model. */
module Migration {
  import opened Wrappers
  import opened Seqs
  import opened Store
  import opened Text

  /** A dictionary's items in insertion order. */
  type Items = seq<(string, Value)>

  /** The key `data.pop('id', None)` removes. */
  const PrimaryKey := "id"

  /** `data.get(name)`: `None` (here `Null`) when the key is absent. */
  function Get(data: map<string, Value>, name: string): Value {
    if name in data then data[name] else Null
  }

  /** `model_to_dict(obj)`: one item per declared field, in declaration
      order. */
  function ModelToDict(fields: seq<Field>, row: Row): (items: Items)
    ensures |items| == |fields|
    ensures forall i :: 0 <= i < |fields| ==> items[i] == (fields[i].name, Get(row, fields[i].name))
    decreases |fields|
  {
    if |fields| == 0 then []
    else
      var f := fields[|fields| - 1];
      ModelToDict(fields[..|fields| - 1], row) + [(f.name, Get(row, f.name))]
  }

  /** `data.pop('id', None)` on the items. */
  function DropId(items: Items): (r: Items)
    ensures |r| <= |items|
    ensures forall i :: 0 <= i < |r| ==> r[i].0 != PrimaryKey && r[i] in items
    ensures forall i :: 0 <= i < |items| && items[i].0 != PrimaryKey ==> items[i] in r
    decreases |items|
  {
    if |items| == 0 then []
    else
      var last := items[|items| - 1];
      DropId(items[..|items| - 1]) + (if last.0 == PrimaryKey then [] else [last])
  }

  /** The dictionary the items describe: a later item overwrites an earlier
      one with the same key. */
  function ToMap(items: Items): map<string, Value>
    decreases |items|
  {
    if |items| == 0 then map[]
    else ToMap(items[..|items| - 1])[items[|items| - 1].0 := items[|items| - 1].1]
  }

  /** `field_mapping.get(k, k)`. */
  function MapKey(mapping: map<string, string>, k: string): string {
    if k in mapping then mapping[k] else k
  }

  /** `{field_mapping.get(k, k): v for k, v in data.items()}`. */
  function Remap(items: Items, mapping: map<string, string>): (r: map<string, Value>)
    ensures forall i :: 0 <= i < |items| ==> MapKey(mapping, items[i].0) in r
    decreases |items|
  {
    if |items| == 0 then map[]
    else
      var last := items[|items| - 1];
      Remap(items[..|items| - 1], mapping)[MapKey(mapping, last.0) := last.1]
  }

  /** The remapped dictionary has exactly the renamed keys. */
  lemma {:induction false} RemapKeys(items: Items, mapping: map<string, string>)
    ensures forall i :: 0 <= i < |items| ==> MapKey(mapping, items[i].0) in Remap(items, mapping)
    ensures forall t :: t in Remap(items, mapping) ==>
      exists i :: 0 <= i < |items| && MapKey(mapping, items[i].0) == t
    decreases |items|
  {
    if |items| > 0 {
      var init := items[..|items| - 1];
      RemapKeys(init, mapping);
      forall t | t in Remap(items, mapping)
        ensures exists i :: 0 <= i < |items| && MapKey(mapping, items[i].0) == t
      {
        if t != MapKey(mapping, items[|items| - 1].0) {
          var i :| 0 <= i < |init| && MapKey(mapping, init[i].0) == t;
          assert items[i] == init[i];
        }
      }
      forall i | 0 <= i < |items| - 1
        ensures MapKey(mapping, items[i].0) in Remap(items, mapping)
      {
        assert items[i] == init[i];
      }
    }
  }

  /** Each renamed key holds the value of the last item renamed to it, so on
      a collision the later source key wins. */
  lemma {:induction false} RemapLastWins(items: Items, mapping: map<string, string>, i: nat)
    requires i < |items|
    requires forall j :: i < j < |items| ==> MapKey(mapping, items[j].0) != MapKey(mapping, items[i].0)
    ensures MapKey(mapping, items[i].0) in Remap(items, mapping)
    ensures Remap(items, mapping)[MapKey(mapping, items[i].0)] == items[i].1
    decreases |items|
  {
    if i < |items| - 1 {
      var init := items[..|items| - 1];
      assert init[i] == items[i];
      RemapLastWins(init, mapping, i);
    }
  }

  /** Without a mapping the comprehension rebuilds the dictionary itself. */
  lemma {:induction false} RemapWithoutMapping(items: Items)
    ensures Remap(items, map[]) == ToMap(items)
    decreases |items|
  {
    if |items| > 0 {
      RemapWithoutMapping(items[..|items| - 1]);
    }
  }

  /** The remapped dictionary is empty exactly when there were no items. */
  lemma RemapEmpty(items: Items, mapping: map<string, string>)
    ensures |Remap(items, mapping)| == 0 <==> |items| == 0
  {
    if |items| > 0 {
      RemapKeys(items, mapping);
      assert MapKey(mapping, items[0].0) in Remap(items, mapping);
    }
  }

  /** The `formatted_data` of `format_all_fields`: every field of the target
      model except `record_id`, formatted from the value `data` holds for it;
      `format` stands for `format_fields`. */
  function Formatted(fields: seq<Field>, data: map<string, Value>, format: (Field, Value) -> Value): map<string, Value>
    decreases |fields|
  {
    if |fields| == 0 then map[]
    else
      var f := fields[|fields| - 1];
      var prev := Formatted(fields[..|fields| - 1], data, format);
      if f.name == RecordId then prev else prev[f.name := format(f, Get(data, f.name))]
  }

  /** `format_all_fields`: `data.update(formatted_data)`. */
  function FormatAllFields(fields: seq<Field>, data: map<string, Value>, format: (Field, Value) -> Value): (r: map<string, Value>)
    ensures forall i :: 0 <= i < |fields| && fields[i].name != RecordId && LastOfName(fields, i) ==>
      fields[i].name in r && r[fields[i].name] == format(fields[i], Get(data, fields[i].name))
  {
    FormattedValues(fields, data, format);
    data + Formatted(fields, data, format)
  }

  /** No later field shares the name of field `i`. */
  predicate LastOfName(fields: seq<Field>, i: nat)
    requires i < |fields|
  {
    forall j :: i < j < |fields| ==> fields[j].name != fields[i].name
  }

  /** The formatted keys are the target's field names other than
      `record_id`. */
  lemma {:induction false} FormattedKeys(fields: seq<Field>, data: map<string, Value>, format: (Field, Value) -> Value)
    ensures forall k :: k in Formatted(fields, data, format) <==> k != RecordId && k in FieldNames(fields)
    decreases |fields|
  {
    if |fields| > 0 {
      var init := fields[..|fields| - 1];
      FormattedKeys(init, data, format);
      assert FieldNames(fields) == FieldNames(init) + [fields[|fields| - 1].name];
    }
  }

  /** Each formatted key holds the formatted value of the last field of that
      name, read from the dictionary before the update. */
  lemma {:induction false} FormattedValue(fields: seq<Field>, data: map<string, Value>, format: (Field, Value) -> Value, i: nat)
    requires i < |fields| && fields[i].name != RecordId && LastOfName(fields, i)
    ensures fields[i].name in Formatted(fields, data, format)
    ensures Formatted(fields, data, format)[fields[i].name] == format(fields[i], Get(data, fields[i].name))
    decreases |fields|
  {
    if i < |fields| - 1 {
      var init := fields[..|fields| - 1];
      assert init[i] == fields[i];
      FormattedValue(init, data, format, i);
    }
  }

  /** Every target field other than `record_id` holds its formatted value,
      taken from the last field of that name. */
  lemma FormattedValues(fields: seq<Field>, data: map<string, Value>, format: (Field, Value) -> Value)
    ensures forall i :: 0 <= i < |fields| && fields[i].name != RecordId && LastOfName(fields, i) ==>
      fields[i].name in Formatted(fields, data, format)
      && Formatted(fields, data, format)[fields[i].name] == format(fields[i], Get(data, fields[i].name))
  {
    forall i | 0 <= i < |fields| && fields[i].name != RecordId && LastOfName(fields, i)
      ensures fields[i].name in Formatted(fields, data, format)
      ensures Formatted(fields, data, format)[fields[i].name] == format(fields[i], Get(data, fields[i].name))
    {
      FormattedValue(fields, data, format, i);
    }
  }

  /** `format_all_fields` keeps every key it had, adds the target's fields
      except `record_id`, leaves `record_id` and keys that are not fields of
      the target untouched. */
  lemma FormatAllFieldsSpec(fields: seq<Field>, data: map<string, Value>, format: (Field, Value) -> Value)
    ensures forall k :: (k in FormatAllFields(fields, data, format)
      <==> k in data || (k != RecordId && k in FieldNames(fields)))
    ensures forall k :: (k in data && (k == RecordId || k !in FieldNames(fields))
      ==> FormatAllFields(fields, data, format)[k] == data[k])
  {
    FormattedKeys(fields, data, format);
  }

  /** The dictionary of one old row after `data.pop('id', None)` and the
      renaming comprehension; without a mapping that comprehension
      rebuilds `data` itself (`RemapWithoutMapping`). */
  function Renamed(fields: seq<Field>, mapping: map<string, string>, row: Row): map<string, Value> {
    Remap(DropId(ModelToDict(fields, row)), mapping)
  }

  /** The last step of building the renamed dictionary from declared
      fields. */
  lemma RenamedStep(fields: seq<Field>, mapping: map<string, string>, row: Row)
    requires |fields| > 0
    ensures var f := fields[|fields| - 1];
      var prev := Renamed(fields[..|fields| - 1], mapping, row);
      Renamed(fields, mapping, row)
        == if f.name == PrimaryKey then prev else prev[MapKey(mapping, f.name) := Get(row, f.name)]
  {
    var init := fields[..|fields| - 1];
    var f := fields[|fields| - 1];
    var x := (f.name, Get(row, f.name));
    var items := DropId(ModelToDict(init, row));
    ModelToDictSnoc(fields, row);
    DropIdSnoc(ModelToDict(init, row), x);
    if f.name == PrimaryKey {
      assert items + [] == items;
      assert DropId(ModelToDict(fields, row)) == items;
    } else {
      assert DropId(ModelToDict(fields, row)) == items + [x];
      RemapSnoc(items, x, mapping);
    }
  }

  /** The items of all fields are those of all but the last, then the
      last one's. */
  lemma ModelToDictSnoc(fields: seq<Field>, row: Row)
    requires |fields| > 0
    ensures var f := fields[|fields| - 1];
      ModelToDict(fields, row) == ModelToDict(fields[..|fields| - 1], row) + [(f.name, Get(row, f.name))]
  {
  }

  /** Dropping `id` from one more item. */
  lemma DropIdSnoc(items: Items, x: (string, Value))
    ensures DropId(items + [x]) == DropId(items) + (if x.0 == PrimaryKey then [] else [x])
  {
    assert (items + [x])[..|items|] == items;
  }

  /** Renaming one more item. */
  lemma RemapSnoc(items: Items, x: (string, Value), mapping: map<string, string>)
    ensures Remap(items + [x], mapping) == Remap(items, mapping)[MapKey(mapping, x.0) := x.1]
  {
    assert (items + [x])[..|items|] == items;
  }

  /** The renamed dictionary holds exactly the renamed names of the source
      fields other than `id`. */
  lemma {:induction false} RenamedKeys(fields: seq<Field>, mapping: map<string, string>, row: Row, k: string)
    ensures k in Renamed(fields, mapping, row) <==>
      exists i :: 0 <= i < |fields| && fields[i].name != PrimaryKey && MapKey(mapping, fields[i].name) == k
    decreases |fields|
  {
    if |fields| > 0 {
      var init := fields[..|fields| - 1];
      RenamedStep(fields, mapping, row);
      RenamedKeys(init, mapping, row, k);
      assert forall i :: 0 <= i < |init| ==> init[i] == fields[i];
    }
  }

  /** A renamed key holds the row's value for the last source field (other
      than `id`) renamed to it. */
  lemma {:induction false} RenamedValue(fields: seq<Field>, mapping: map<string, string>, row: Row, i: nat)
    requires i < |fields| && fields[i].name != PrimaryKey
    requires forall j :: i < j < |fields| && fields[j].name != PrimaryKey ==>
      MapKey(mapping, fields[j].name) != MapKey(mapping, fields[i].name)
    ensures MapKey(mapping, fields[i].name) in Renamed(fields, mapping, row)
    ensures Renamed(fields, mapping, row)[MapKey(mapping, fields[i].name)] == Get(row, fields[i].name)
    decreases |fields|
  {
    var init := fields[..|fields| - 1];
    RenamedStep(fields, mapping, row);
    if i < |fields| - 1 {
      assert init[i] == fields[i];
      RenamedValue(init, mapping, row, i);
    }
  }

  /** The dictionary handed to `create` for one old row, or `None` when the
      mapped branch skips an empty one. Each target field other than
      `record_id` holds its formatted value read from the renamed
      dictionary; every other key is a renamed key with its renamed value;
      nothing else appears. */
  function Transform(source: ModelDecl, target: ModelDecl, mapping: map<string, string>,
                     format: (Field, Value) -> Value, row: Row): (r: Option<map<string, Value>>)
    ensures r.None? ==> |mapping| > 0
    ensures r.None? <==> |mapping| > 0 && |Renamed(source.fields, mapping, row)| == 0
    ensures r.Some? ==> forall k :: k != RecordId && k in FieldNames(target.fields) ==> k in r.value
    ensures r.Some? ==> forall k :: k in r.value <==>
      k in Renamed(source.fields, mapping, row) || (k != RecordId && k in FieldNames(target.fields))
    ensures r.Some? ==> forall i :: 0 <= i < |target.fields| && target.fields[i].name != RecordId
                                    && LastOfName(target.fields, i) ==>
      target.fields[i].name in r.value
      && r.value[target.fields[i].name] == format(target.fields[i], Get(Renamed(source.fields, mapping, row), target.fields[i].name))
    ensures r.Some? ==> forall k :: k in Renamed(source.fields, mapping, row) && (k == RecordId || k !in FieldNames(target.fields)) ==>
      r.value[k] == Renamed(source.fields, mapping, row)[k]
  {
    var data := DropId(ModelToDict(source.fields, row));
    var renamed := Renamed(source.fields, mapping, row);
    RemapWithoutMapping(data);
    FormatAllFieldsSpec(target.fields, renamed, format);
    if |mapping| > 0 then
      if |renamed| == 0 then None
      else Some(FormatAllFields(target.fields, renamed, format))
    else Some(FormatAllFields(target.fields, ToMap(data), format))
  }

  /** Only the mapped branch skips an object, and only one whose dictionary
      is empty once the primary key is dropped. */
  lemma TransformSkips(source: ModelDecl, target: ModelDecl, mapping: map<string, string>,
                       format: (Field, Value) -> Value, row: Row)
    ensures Transform(source, target, mapping, format, row).None?
      <==> |mapping| > 0 && |DropId(ModelToDict(source.fields, row))| == 0
  {
    RemapEmpty(DropId(ModelToDict(source.fields, row)), mapping);
  }

  /** The items of two rows that agree on every key but the primary key are
      the same once the primary key is dropped. */
  lemma {:induction false} DropIdIgnoresId(fields: seq<Field>, r1: Row, r2: Row)
    requires forall k :: k != PrimaryKey ==> Get(r1, k) == Get(r2, k)
    ensures DropId(ModelToDict(fields, r1)) == DropId(ModelToDict(fields, r2))
    decreases |fields|
  {
    if |fields| > 0 {
      var init := fields[..|fields| - 1];
      DropIdIgnoresId(init, r1, r2);
      var a := ModelToDict(fields, r1);
      var b := ModelToDict(fields, r2);
      assert a[..|a| - 1] == ModelToDict(init, r1);
      assert b[..|b| - 1] == ModelToDict(init, r2);
    }
  }

  /** The old primary key never reaches the created row: the data created
      for a row does not depend on its `id`. */
  lemma OldIdNeverCarried(source: ModelDecl, target: ModelDecl, mapping: map<string, string>,
                          format: (Field, Value) -> Value, row: Row, a: Value, b: Value)
    ensures Transform(source, target, mapping, format, row[PrimaryKey := a])
         == Transform(source, target, mapping, format, row[PrimaryKey := b])
  {
    DropIdIgnoresId(source.fields, row[PrimaryKey := a], row[PrimaryKey := b]);
  }

  datatype MigrationError =
    | TypeError(model: string)
    | MissingModel(name: string)

  /** The tables after a command run, and the exception that stopped it. */
  datatype Outcome = Outcome(db: Db, error: Option<MigrationError>)

  /** `new_model.objects.create(**data)`: a keyword that is not a field of
      the model raises `TypeError`. */
  function Create(target: ModelDecl, rows: seq<Row>, data: map<string, Value>): (r: Result<seq<Row>, MigrationError>)
    ensures r.Err? <==> exists k :: k in data && k !in FieldNames(target.fields)
    ensures r.Err? ==> r.error == TypeError(target.name)
    ensures r.Ok? ==> r.value == rows + [data]
  {
    if exists k :: k in data && k !in FieldNames(target.fields) then Err(TypeError(target.name))
    else Ok(rows + [data])
  }

  /** The old objects: every row of every old model, model by model. */
  function Objects(db: Db, olds: seq<ModelDecl>): seq<(ModelDecl, Row)>
    decreases |olds|
  {
    if |olds| == 0 then []
    else
      var m := olds[|olds| - 1];
      Objects(db, olds[..|olds| - 1]) + seq(|RowsOf(db, m.name)|, i requires 0 <= i < |RowsOf(db, m.name)| => (m, RowsOf(db, m.name)[i]))
  }

  /** The dictionaries `create` receives, in order. */
  function Creations(target: ModelDecl, mapping: map<string, string>,
                     format: (Field, Value) -> Value, objs: seq<(ModelDecl, Row)>): seq<map<string, Value>>
    decreases |objs|
  {
    if |objs| == 0 then []
    else
      var o := objs[|objs| - 1];
      var t := Transform(o.0, target, mapping, format, o.1);
      Creations(target, mapping, format, objs[..|objs| - 1]) + (if t.Some? then [t.value] else [])
  }

  /** Without a mapping every object is created; with one, exactly the
      objects whose dictionary is not empty. */
  lemma {:induction false} CreationsCount(target: ModelDecl, mapping: map<string, string>,
                                          format: (Field, Value) -> Value, objs: seq<(ModelDecl, Row)>)
    ensures |mapping| == 0 ==> |Creations(target, mapping, format, objs)| == |objs|
    ensures |Creations(target, mapping, format, objs)|
      == |Filter(objs, (o: (ModelDecl, Row)) => |mapping| == 0 || |DropId(ModelToDict(o.0.fields, o.1))| > 0)|
    decreases |objs|
  {
    if |objs| > 0 {
      var o := objs[|objs| - 1];
      CreationsCount(target, mapping, format, objs[..|objs| - 1]);
      TransformSkips(o.0, target, mapping, format, o.1);
    }
  }

  /** `create(**data)` succeeds for this dictionary: every key is a field. */
  predicate Creatable(target: ModelDecl, data: map<string, Value>) {
    forall k :: k in data ==> k in FieldNames(target.fields)
  }

  /** What a run of creates leaves behind: the rows, and the error that
      stopped it, if any. Rows created before the error stay. */
  datatype Created = Created(rows: seq<Row>, error: Option<MigrationError>)

  /** The create loop: one `create` per dictionary; the first `TypeError`
      aborts the command, after the earlier creates. */
  function CreateAll(target: ModelDecl, rows: seq<Row>, datas: seq<map<string, Value>>): (r: Created)
    ensures |rows| <= |r.rows| <= |rows| + |datas|
    ensures r.error.Some? ==> r.error.value == TypeError(target.name)
    decreases |datas|
  {
    if |datas| == 0 then Created(rows, None)
    else
      var prev := CreateAll(target, rows, datas[..|datas| - 1]);
      if prev.error.Some? then prev
      else
        match Create(target, prev.rows, datas[|datas| - 1])
        case Err(e) => Created(prev.rows, Some(e))
        case Ok(rows') => Created(rows', None)
  }

  /** The loop stops at the first dictionary with a key that is not a field
      of the target, having appended exactly the dictionaries before it, in
      order; without such a dictionary it appends all of them. */
  lemma {:induction false} CreateAllSpec(target: ModelDecl, rows: seq<Row>, datas: seq<map<string, Value>>)
    ensures var r := CreateAll(target, rows, datas);
      var n := |r.rows| - |rows|;
      0 <= n <= |datas| && r.rows == rows + datas[..n]
      && (forall i :: 0 <= i < n ==> Creatable(target, datas[i]))
      && (r.error.Some? <==> n < |datas|)
      && (r.error.Some? ==> !Creatable(target, datas[n]))
    ensures CreateAll(target, rows, datas).error.Some? <==> exists i :: 0 <= i < |datas| && !Creatable(target, datas[i])
    decreases |datas|
  {
    if |datas| > 0 {
      var init := datas[..|datas| - 1];
      CreateAllSpec(target, rows, init);
      var prev := CreateAll(target, rows, init);
      var m := |prev.rows| - |rows|;
      assert init[..m] == datas[..m];
      assert forall i :: 0 <= i < |init| ==> init[i] == datas[i];
      if prev.error.None? {
        assert m == |init|;
        assert datas[..m + 1] == init + [datas[|datas| - 1]];
      }
    }
  }

  /** `migrate_model(old_models, new_model, field_mapping)`. The old tables
      are read from `db`; the target table is a different one. A `TypeError`
      stops the migration with the rows created so far saved. */
  function MigrateModel(db: Db, olds: seq<ModelDecl>, target: ModelDecl, mapping: map<string, string>,
                        format: (Field, Value) -> Value): (r: Outcome)
    ensures target.name in r.db
    ensures forall m :: m != target.name ==> (m in r.db <==> m in db) && (m in db ==> r.db[m] == db[m])
    ensures r.error.Some? ==> r.error.value == TypeError(target.name)
  {
    var created := CreateAll(target, RowsOf(db, target.name), Creations(target, mapping, format, Objects(db, olds)));
    Outcome(db[target.name := created.rows], created.error)
  }

  /** A migration only appends to the target table, in order, the created
      dictionaries up to the first one `create` rejects (all of them when it
      succeeds, one per old object when no mapping is given), and touches no
      other table. */
  lemma MigrateModelSpec(db: Db, olds: seq<ModelDecl>, target: ModelDecl, mapping: map<string, string>,
                         format: (Field, Value) -> Value)
    ensures var r := MigrateModel(db, olds, target, mapping, format);
      var created := Creations(target, mapping, format, Objects(db, olds));
      var n := |r.db[target.name]| - |RowsOf(db, target.name)|;
      0 <= n <= |created| && r.db[target.name] == RowsOf(db, target.name) + created[..n]
      && (r.error.None? <==> n == |created|)
      && (r.error.None? <==> forall i :: 0 <= i < |created| ==> Creatable(target, created[i]))
      && (r.error.None? && |mapping| == 0 ==> |r.db[target.name]| == |RowsOf(db, target.name)| + |Objects(db, olds)|)
  {
    var objs := Objects(db, olds);
    CreateAllSpec(target, RowsOf(db, target.name), Creations(target, mapping, format, objs));
    CreationsCount(target, mapping, format, objs);
  }

  /** One step of `handle`: the old model names, the merged model's name and
      the field mapping. */
  datatype Migration = Migration(olds: seq<string>, target: string, mapping: map<string, string>)

  const TsepamoMapping: map<string, string> := map[
    "placental_organism" := "placenta_organism",
    "placental_pcdecid" := "placenta_pcdecid",
    "placental_avascvilli" := "placenta_avascvilli",
    "placental_distalvh" := "placenta_distalvh",
    "placental_fetalmalp" := "placenta_fetalmalp",
    "was_this_woman_on_aspirin" := "was_this_woman_aspirin"
  ]

  /** The four migrations `handle` runs, in order. */
  const Migrations: seq<Migration> := [
    Migration(["tsepamoone", "tsepamotwo", "tsepamothree", "tsepamofour"], "tsepamo", TsepamoMapping),
    Migration(["outcomesone", "outcomestwo", "outcomesthree", "outcomesfour"], "outcomes", map[]),
    Migration(["personalidentifierstwo", "personalidentifiersthree", "personalidentifiersfour"], "personalidentifiers", map[]),
    Migration(["switcheripmstwo", "switcheripmsthree", "switcheripmsfour"], "switcheripms", map[])
  ]

  /** Only the Tsepamo migration renames fields; the others copy names
      verbatim. */
  lemma OnlyTsepamoRenames()
    ensures forall i :: 0 <= i < |Migrations| ==> (|Migrations[i].mapping| > 0 <==> Migrations[i].target == "tsepamo")
    ensures forall i, k :: 0 <= i < |Migrations| && Migrations[i].target != "tsepamo" ==> MapKey(Migrations[i].mapping, k) == k
  {
    assert "placental_organism" in TsepamoMapping;
  }

  /** The model declarations for a list of names. */
  function Resolve(reg: Registry, names: seq<string>): (r: Result<seq<ModelDecl>, MigrationError>)
    ensures r.Ok? ==> |r.value| == |names| && forall i :: 0 <= i < |names| ==> GetModel(reg, names[i]).Some? && r.value[i] == GetModel(reg, names[i]).value
    ensures r.Err? <==> exists i :: 0 <= i < |names| && GetModel(reg, names[i]).None?
    ensures r.Err? ==> r.error.MissingModel?
    decreases |names|
  {
    if |names| == 0 then Ok([])
    else
      var prev :- Resolve(reg, names[..|names| - 1]);
      match GetModel(reg, names[|names| - 1])
      case None => Err(MissingModel(names[|names| - 1]))
      case Some(d) => Ok(prev + [d])
  }

  /** A migration with its model classes resolved. */
  datatype Step = Step(olds: seq<ModelDecl>, target: ModelDecl, mapping: map<string, string>)

  /** The imports of the command module: every model class of every
      migration, resolved before any migration runs. */
  function ResolveAll(reg: Registry, ms: seq<Migration>): (r: Result<seq<Step>, MigrationError>)
    ensures r.Ok? ==> |r.value| == |ms|
    ensures r.Ok? ==> forall i :: 0 <= i < |ms| ==>
      Resolve(reg, ms[i].olds) == Ok(r.value[i].olds)
      && GetModel(reg, ms[i].target) == Some(r.value[i].target)
      && r.value[i].mapping == ms[i].mapping
    ensures r.Err? <==> exists i :: 0 <= i < |ms| && (Resolve(reg, ms[i].olds).Err? || GetModel(reg, ms[i].target).None?)
    ensures r.Err? ==> r.error.MissingModel?
    decreases |ms|
  {
    if |ms| == 0 then Ok([])
    else
      var m := ms[|ms| - 1];
      var prev :- ResolveAll(reg, ms[..|ms| - 1]);
      var olds :- Resolve(reg, m.olds);
      match GetModel(reg, m.target)
      case None => Err(MissingModel(m.target))
      case Some(d) => Ok(prev + [Step(olds, d, m.mapping)])
  }

  /** Runs the given migrations in order, stopping at the first error with
      the rows created up to it saved. */
  function RunMigrations(db: Db, format: (Field, Value) -> Value, steps: seq<Step>): (r: Outcome)
    ensures forall m :: (forall i :: 0 <= i < |steps| ==> steps[i].target.name != m) ==>
      (m in r.db <==> m in db) && (m in db ==> r.db[m] == db[m])
    ensures r.error.Some? ==> exists i :: 0 <= i < |steps| && r.error.value == TypeError(steps[i].target.name)
    decreases |steps|
  {
    if |steps| == 0 then Outcome(db, None)
    else
      var prev := RunMigrations(db, format, steps[..|steps| - 1]);
      if prev.error.Some? then prev
      else
        var st := steps[|steps| - 1];
        MigrateModel(prev.db, st.olds, st.target, st.mapping, format)
  }

  /** Once a migration fails, the later ones do not run. */
  lemma {:induction false} RunMigrationsStops(db: Db, format: (Field, Value) -> Value, steps: seq<Step>, n: nat)
    requires n <= |steps|
    requires RunMigrations(db, format, steps[..n]).error.Some?
    ensures RunMigrations(db, format, steps) == RunMigrations(db, format, steps[..n])
    decreases |steps|
  {
    if n == |steps| {
      assert steps[..n] == steps;
    } else {
      var init := steps[..|steps| - 1];
      assert init[..n] == steps[..n];
      RunMigrationsStops(db, format, init, n);
    }
  }

  /** The tables the four migrations write to: the lower-cased target
      names, as `get_model` looks them up. */
  const TargetTables: set<string> := set i | 0 <= i < |Migrations| :: Lower(Migrations[i].target)

  /** Each resolved migration writes to one of the target tables. */
  lemma StepsWriteTargets(reg: Registry, steps: seq<Step>)
    requires ResolveAll(reg, Migrations) == Ok(steps)
    ensures forall i :: 0 <= i < |steps| ==> steps[i].target.name in TargetTables
  {
    forall i | 0 <= i < |steps|
      ensures steps[i].target.name in TargetTables
    {
      assert GetModel(reg, Migrations[i].target) == Some(steps[i].target);
    }
  }

  /** `handle` of the `migrate_data` command: the model imports first (a
      missing model stops everything before any row is created), then the
      four migrations in order. */
  function Handle(reg: Registry, db: Db, format: (Field, Value) -> Value): (r: Outcome)
    ensures ResolveAll(reg, Migrations).Err? ==> r.db == db && r.error.Some? && r.error.value.MissingModel?
    ensures ResolveAll(reg, Migrations).Ok? ==> r == RunMigrations(db, format, ResolveAll(reg, Migrations).value)
    ensures forall m :: m !in TargetTables ==> (m in r.db <==> m in db) && (m in db ==> r.db[m] == db[m])
    ensures r.error.Some? && r.error.value.TypeError? ==> r.error.value.model in TargetTables
  {
    match ResolveAll(reg, Migrations)
    case Err(e) => Outcome(db, Some(e))
    case Ok(steps) =>
      StepsWriteTargets(reg, steps);
      RunMigrations(db, format, steps)
  }
}
