/** Row-to-record building of the CSV loader (`LoadCSVData.map_choice_data`
    and `LoadCSVData.read_csv_data`): REDCap exports a multi-select
    "checkbox" question as one column per option, `base___option`, holding
    "1" when the option is ticked. The loader folds those columns into one
    `base` field whose value is the ", "-joined list of ticked labels, and
    copies every other column verbatim. */
module Choice {
  import opened Wrappers
  import opened Text
  import opened Seqs

  /** A CSV cell as `csv.DictReader` yields it: text, or `None` for a
      missing trailing cell. */
  type Cell = Option<string>

  /** One CSV row: `(header, cell)` pairs in column order. The row comes
      from a dict, so its headers are distinct; no definition or lemma here
      depends on that, and a repeated header would just be processed again
      in its own position. */
  type CsvRow = seq<(string, Cell)>

  /** The record built from one row. */
  type RawRecord = map<string, Cell>

  const ChoiceSep := "___"
  const LabelSep := ", "
  const SelectedMarker := "1"

  /** Python truthiness of a cell: present and non-empty. */
  predicate Truthy(c: Cell) {
    c.Some? && c.value != ""
  }

  /** A checkbox column header: it contains `___`. */
  predicate IsChoiceKey(key: string) {
    Contains(key, ChoiceSep)
  }

  /** The question a checkbox column belongs to: the text before the first `___`. */
  function ChoiceBase(key: string): string
    requires IsChoiceKey(key)
  {
    key[..IndexOf(key, ChoiceSep).value]
  }

  /** The option name: the text after the first `___`, up to the next `___`. */
  function ChoiceLabel(key: string): string
    requires IsChoiceKey(key)
  {
    var rest := key[IndexOf(key, ChoiceSep).value + |ChoiceSep|..];
    match IndexOf(rest, ChoiceSep)
    case None => rest
    case Some(j) => rest[..j]
  }

  /** What one checkbox column contributes: its stripped label when the
      cell is exactly "1", `None` otherwise. */
  function OptionLabel(key: string, value: Cell): Cell
    requires IsChoiceKey(key)
  {
    if value == Some(SelectedMarker) then Some(Strip(ChoiceLabel(key))) else None
  }

  /** `map_choice_data(key, value, record)`: returns whether `key` is a
      checkbox column and the updated record. A plain key leaves the record
      alone. For a checkbox key only the `base` entry changes: the first
      column of a base fixes it to the option's label or `None`; a later
      ticked, non-empty label is appended after ", " only when the current
      value is non-empty and differs from that label. */
  function MapChoiceData(key: string, value: Cell, record: RawRecord): (r: (bool, RawRecord))
    ensures r.0 <==> IsChoiceKey(key)
    ensures !r.0 ==> r.1 == record
    ensures r.0 ==> ChoiceBase(key) in r.1 && r.1 == record[ChoiceBase(key) := r.1[ChoiceBase(key)]]
    ensures r.0 && ChoiceBase(key) !in record ==> r.1[ChoiceBase(key)] == OptionLabel(key, value)
    ensures r.0 && ChoiceBase(key) in record ==>
      var current := record[ChoiceBase(key)];
      var opt := OptionLabel(key, value);
      r.1[ChoiceBase(key)] ==
        if Truthy(opt) && Truthy(current) && current != opt
        then Some(current.value + LabelSep + opt.value)
        else current
  {
    var parts := Split(key, ChoiceSep);
    if |parts| > 1 then
      var opt: Cell := if value == Some(SelectedMarker) then Some(Strip(parts[1])) else None;
      SplitSecondIsLabel(key);
      (true, MergeOption(record, parts[0], opt))
    else
      (false, record)
  }

  /** The update `map_choice_data` makes for one checkbox column:
      `setdefault(base, opt)`, then, when `opt` and the stored value are
      both non-empty and differ, the value re-joined with `opt` appended. */
  function MergeOption(record: RawRecord, base: string, opt: Cell): (r: RawRecord)
    ensures base in r && r == record[base := r[base]]
    ensures base !in record ==> r[base] == opt
    ensures base in record ==>
      var current := record[base];
      r[base] ==
        if Truthy(opt) && Truthy(current) && current != opt
        then Some(current.value + LabelSep + opt.value)
        else current
  {
    var current := if base in record then record[base] else opt;
    var record1 := if base in record then record else record[base := opt];
    if Truthy(opt) && Truthy(current) && current != opt then
      SplitAppendJoin(current.value, opt.value, LabelSep);
      record1[base := Some(Join(Split(current.value, LabelSep) + [opt.value], LabelSep))]
    else
      record1
  }

  /** The second piece of `key.split('___')` is the option label. */
  lemma SplitSecondIsLabel(key: string)
    requires IsChoiceKey(key)
    ensures |Split(key, ChoiceSep)| > 1
    ensures Split(key, ChoiceSep)[0] == ChoiceBase(key) && Split(key, ChoiceSep)[1] == ChoiceLabel(key)
  {
    var i := IndexOf(key, ChoiceSep).value;
    var rest := key[i + |ChoiceSep|..];
    assert Split(key, ChoiceSep) == [key[..i]] + Split(rest, ChoiceSep);
    if !Contains(rest, ChoiceSep) {
      assert Join(Split(rest, ChoiceSep), ChoiceSep) == Split(rest, ChoiceSep)[0];
    }
  }

  /** One iteration of the column loop of `read_csv_data`. */
  function ReadStep(record: RawRecord, column: (string, Cell)): RawRecord {
    var (isChoice, record') := MapChoiceData(column.0, column.1, record);
    if isChoice then record' else record'[column.0 := column.1]
  }

  /** The record `read_csv_data` builds from one row. */
  function ReadRow(row: CsvRow): RawRecord
    decreases |row|
  {
    if |row| == 0 then map[] else ReadStep(ReadRow(row[..|row| - 1]), row[|row| - 1])
  }

  lemma ReadRowSnoc(row: CsvRow, column: (string, Cell))
    ensures ReadRow(row + [column]) == ReadStep(ReadRow(row), column)
  {
    assert (row + [column])[..|row|] == row;
  }

  /** `read_csv_data` over already-parsed rows: exactly one record per row,
      in row order. */
  method ReadCsvData(rows: seq<CsvRow>) returns (data: seq<RawRecord>)
    ensures |data| == |rows|
    ensures forall i :: 0 <= i < |rows| ==> data[i] == ReadRow(rows[i])
  {
    data := [];
    var n := 0;
    while n < |rows|
      invariant n <= |rows|
      invariant |data| == n
      invariant forall i :: 0 <= i < n ==> data[i] == ReadRow(rows[i])
    {
      data := data + [ReadRow(rows[n])];
      n := n + 1;
    }
  }

  /** Column `column` can change the entry `key` of the record. */
  predicate Touches(column: (string, Cell), key: string) {
    column.0 == key || (IsChoiceKey(column.0) && ChoiceBase(column.0) == key)
  }

  /** A column that does not touch `key` leaves that entry as it was. */
  lemma StepFrame(record: RawRecord, column: (string, Cell), key: string)
    requires !Touches(column, key)
    ensures key in ReadStep(record, column) <==> key in record
    ensures key in record ==> ReadStep(record, column)[key] == record[key]
  {
  }

  /** A plain column whose key no later column touches is copied verbatim. */
  lemma {:induction false} PlainColumnVerbatim(row: CsvRow, i: nat)
    requires i < |row| && !IsChoiceKey(row[i].0)
    requires forall j :: i < j < |row| ==> !Touches(row[j], row[i].0)
    ensures row[i].0 in ReadRow(row) && ReadRow(row)[row[i].0] == row[i].1
    decreases |row|
  {
    var prefix := row[..|row| - 1];
    if i < |row| - 1 {
      assert prefix[i] == row[i];
      PlainColumnVerbatim(prefix, i);
      StepFrame(ReadRow(prefix), row[|row| - 1], row[i].0);
    }
  }

  /** The contributions of the checkbox columns of question `base`, in column order. */
  function BaseLabels(row: CsvRow, base: string): (labels: seq<Cell>)
    decreases |row|
  {
    if |row| == 0 then []
    else
      var last := row[|row| - 1];
      BaseLabels(row[..|row| - 1], base)
        + (if IsChoiceKey(last.0) && ChoiceBase(last.0) == base then [OptionLabel(last.0, last.1)] else [])
  }

  /** The ticked, non-empty labels among `labels`, in order. */
  function Chosen(labels: seq<Cell>): seq<string>
    decreases |labels|
  {
    if |labels| == 0 then []
    else
      var last := labels[|labels| - 1];
      Chosen(labels[..|labels| - 1]) + (if Truthy(last) then [last.value] else [])
  }

  lemma ChosenAppend(labels: seq<Cell>, l: Cell)
    ensures Chosen(labels + [l]) == Chosen(labels) + (if Truthy(l) then [l.value] else [])
  {
    assert (labels + [l])[..|labels|] == labels;
  }

  /** A ticked first label is the first chosen label. */
  lemma {:induction false} ChosenFirst(labels: seq<Cell>)
    requires |labels| >= 1 && Truthy(labels[0])
    ensures |Chosen(labels)| >= 1 && Chosen(labels)[0] == labels[0].value
    decreases |labels|
  {
    if |labels| > 1 {
      var p := labels[..|labels| - 1];
      ChosenFirst(p);
      ChosenAppend(p, labels[|labels| - 1]);
      assert labels == p + [labels[|labels| - 1]];
    } else {
      assert labels == [] + [labels[0]];
      ChosenAppend([], labels[0]);
    }
  }

  /** The first label of a non-empty `Chosen` survives in the join, so the
      join is non-empty when that label is. */
  lemma JoinStartsWithFirst(parts: seq<string>, sep: string)
    requires |parts| >= 1
    ensures |Join(parts, sep)| >= |parts[0]|
  {
  }

  /** Without any column touching `base`, the record has no `base` entry. */
  lemma {:induction false} UntouchedAbsent(row: CsvRow, base: string)
    requires forall j :: 0 <= j < |row| ==> !Touches(row[j], base)
    ensures base !in ReadRow(row)
    decreases |row|
  {
    if |row| > 0 {
      UntouchedAbsent(row[..|row| - 1], base);
      StepFrame(ReadRow(row[..|row| - 1]), row[|row| - 1], base);
    }
  }

  /** Columns of `row` that touch `base` are exactly its checkbox columns. */
  predicate NoPlainColumn(row: CsvRow, base: string) {
    forall j :: 0 <= j < |row| ==> row[j].0 != base
  }

  lemma NoPlainColumnPrefix(row: CsvRow, base: string)
    requires |row| > 0 && NoPlainColumn(row, base)
    ensures NoPlainColumn(row[..|row| - 1], base)
  {
    var p := row[..|row| - 1];
    assert forall j :: 0 <= j < |p| ==> p[j] == row[j];
  }

  /** With no checkbox column of `base` yet, nothing touches `base`. */
  lemma {:induction false} NoLabelsUntouched(row: CsvRow, base: string)
    requires NoPlainColumn(row, base) && |BaseLabels(row, base)| == 0
    ensures forall j :: 0 <= j < |row| ==> !Touches(row[j], base)
    decreases |row|
  {
    if |row| > 0 {
      var p := row[..|row| - 1];
      NoPlainColumnPrefix(row, base);
      NoLabelsUntouched(p, base);
      assert forall j :: 0 <= j < |p| ==> p[j] == row[j];
    }
  }

  /** Quirk of `map_choice_data`: when the first checkbox column of a
      question is not ticked, `setdefault` stores `None` and no later ticked
      option is ever appended, so the question decodes to `None`. */
  lemma {:induction false} UnselectedFirstOptionPins(row: CsvRow, base: string)
    requires NoPlainColumn(row, base)
    requires |BaseLabels(row, base)| >= 1 && !Truthy(BaseLabels(row, base)[0])
    ensures base in ReadRow(row) && ReadRow(row)[base] == BaseLabels(row, base)[0]
    decreases |row|
  {
    var p := row[..|row| - 1];
    var last := row[|row| - 1];
    NoPlainColumnPrefix(row, base);
    if IsChoiceKey(last.0) && ChoiceBase(last.0) == base {
      if |BaseLabels(p, base)| == 0 {
        NoLabelsUntouched(p, base);
        UntouchedAbsent(p, base);
      } else {
        UnselectedFirstOptionPins(p, base);
      }
    } else {
      UnselectedFirstOptionPins(p, base);
      StepFrame(ReadRow(p), last, base);
    }
  }

  /** One checkbox column of `base` applied to a record whose `base` entry is
      already the join of `chosen`: a ticked label that is new and comma-free
      is appended, anything else leaves the entry alone. */
  lemma AppendStep(record: RawRecord, column: (string, Cell), base: string, chosen: seq<string>)
    requires IsChoiceKey(column.0) && ChoiceBase(column.0) == base
    requires |chosen| >= 1 && chosen[0] != ""
    requires base in record && record[base] == Some(Join(chosen, LabelSep))
    requires Truthy(OptionLabel(column.0, column.1)) ==>
      OptionLabel(column.0, column.1).value !in chosen && ',' !in OptionLabel(column.0, column.1).value
    ensures base in ReadStep(record, column)
    ensures var l := OptionLabel(column.0, column.1);
      ReadStep(record, column)[base] == Some(Join(chosen + (if Truthy(l) then [l.value] else []), LabelSep))
  {
    var l := OptionLabel(column.0, column.1);
    var joined := Join(chosen, LabelSep);
    JoinStartsWithFirst(chosen, LabelSep);
    if Truthy(l) {
      if |chosen| == 1 {
        assert joined == chosen[0];
      } else {
        JoinContainsSep(chosen, LabelSep);
        assert ',' in joined;
      }
      assert Some(joined) != l;
      JoinAppend(chosen, l.value, LabelSep);
    } else {
      assert chosen + [] == chosen;
    }
  }

  /** No label contains a comma. */
  predicate CommaFree(labels: seq<string>) {
    forall k :: 0 <= k < |labels| ==> ',' !in labels[k]
  }

  /** The side conditions on the chosen labels carry over to a prefix, and a
      ticked last label is new and comma-free. */
  lemma ChosenSplit(pl: seq<Cell>, l: Cell)
    requires Distinct(Chosen(pl + [l])) && CommaFree(Chosen(pl + [l]))
    ensures Distinct(Chosen(pl)) && CommaFree(Chosen(pl))
    ensures Truthy(l) ==> l.value !in Chosen(pl) && ',' !in l.value
  {
    ChosenAppend(pl, l);
    var all := Chosen(pl + [l]);
    var chosen := Chosen(pl);
    assert forall k :: 0 <= k < |chosen| ==> chosen[k] == all[k];
    if Truthy(l) {
      assert all[|chosen|] == l.value;
    }
  }

  /** When the first checkbox column of a question is ticked, the question
      decodes to the ticked labels joined with ", " in column order, as long
      as those labels are distinct and contain no comma (otherwise the
      code's `dict_value != value` test can skip or duplicate a label). */
  lemma {:induction false} SelectedOptionsJoined(row: CsvRow, base: string)
    requires NoPlainColumn(row, base)
    requires |BaseLabels(row, base)| >= 1 && Truthy(BaseLabels(row, base)[0])
    requires Distinct(Chosen(BaseLabels(row, base))) && CommaFree(Chosen(BaseLabels(row, base)))
    ensures base in ReadRow(row)
    ensures ReadRow(row)[base] == Some(Join(Chosen(BaseLabels(row, base)), LabelSep))
    decreases |row|, 1
  {
    var last := row[|row| - 1];
    if IsChoiceKey(last.0) && ChoiceBase(last.0) == base {
      JoinedAtOwnColumn(row, base);
    } else {
      var p := row[..|row| - 1];
      NoPlainColumnPrefix(row, base);
      assert BaseLabels(row, base) == BaseLabels(p, base);
      SelectedOptionsJoined(p, base);
      StepFrame(ReadRow(p), last, base);
    }
  }

  /** The inductive step of `SelectedOptionsJoined` when the last column is
      a checkbox column of `base`. */
  lemma {:induction false} JoinedAtOwnColumn(row: CsvRow, base: string)
    requires NoPlainColumn(row, base)
    requires |BaseLabels(row, base)| >= 1 && Truthy(BaseLabels(row, base)[0])
    requires Distinct(Chosen(BaseLabels(row, base))) && CommaFree(Chosen(BaseLabels(row, base)))
    requires IsChoiceKey(row[|row| - 1].0) && ChoiceBase(row[|row| - 1].0) == base
    ensures base in ReadRow(row)
    ensures ReadRow(row)[base] == Some(Join(Chosen(BaseLabels(row, base)), LabelSep))
    decreases |row|, 0
  {
    var p := row[..|row| - 1];
    var last := row[|row| - 1];
    var l := OptionLabel(last.0, last.1);
    var pl := BaseLabels(p, base);
    assert BaseLabels(row, base) == pl + [l];
    ChosenAppend(pl, l);
    NoPlainColumnPrefix(row, base);
    if |pl| == 0 {
      NoLabelsUntouched(p, base);
      UntouchedAbsent(p, base);
    } else {
      ChosenSplit(pl, l);
      SelectedOptionsJoined(p, base);
      ChosenFirst(pl);
      AppendStep(ReadRow(p), last, base, Chosen(pl));
    }
  }

  /** A five-character header `b___o` is a checkbox column of question `b`
      with option `o`. */
  lemma ShortChoiceKey(key: string)
    requires |key| == 5 && key[1..4] == "___" && key[0] != '_' && key[4] != '_' && !IsSpace(key[4])
    ensures IsChoiceKey(key) && ChoiceBase(key) == key[..1] && ChoiceLabel(key) == key[4..]
    ensures Strip(ChoiceLabel(key)) == key[4..]
  {
    assert !OccursAt(key, ChoiceSep, 0) by { assert key[0..3][0] == key[0]; }
    assert OccursAt(key, ChoiceSep, 1);
    assert IndexOf(key, ChoiceSep) == Some(1);
    var rest := key[4..];
    assert IndexOf(rest, ChoiceSep) == None;
  }

  /** The three steps of the worked example below. */
  lemma ExampleStep1(ka: string)
    requires |ka| == 5 && ka[1..4] == "___" && ka[0] == 'v' && ka[4] == 'a'
    ensures var r := ReadStep(map[], (ka, Some("1"))); "v" in r && r["v"] == Some("a")
  {
    ShortChoiceKey(ka);
    assert ka[..1] == "v";
    assert ka[4..] == "a";
    assert OptionLabel(ka, Some("1")) == Some("a");
  }
  lemma ExampleStep2(r: RawRecord, kb: string)
    requires |kb| == 5 && kb[1..4] == "___" && kb[0] == 'v' && kb[4] == 'b'
    requires "v" in r && r["v"] == Some("a")
    ensures var r' := ReadStep(r, (kb, Some("0"))); "v" in r' && r'["v"] == Some("a")
  {
    ShortChoiceKey(kb);
    assert kb[..1] == "v";
  }
  lemma ExampleStep3(r: RawRecord, kc: string)
    requires |kc| == 5 && kc[1..4] == "___" && kc[0] == 'v' && kc[4] == 'c'
    requires "v" in r && r["v"] == Some("a")
    ensures var r' := ReadStep(r, (kc, Some("1"))); "v" in r' && r'["v"] == Some("a, c")
  {
    LabelC(kc);
    AppendStep(r, (kc, Some("1")), "v", ["a"]);
    JoinAC();
  }

  /** The column `v___c` ticked is option "c" of question `v`. */
  lemma LabelC(kc: string)
    requires |kc| == 5 && kc[1..4] == "___" && kc[0] == 'v' && kc[4] == 'c'
    ensures IsChoiceKey(kc) && ChoiceBase(kc) == "v"
    ensures OptionLabel(kc, Some("1")) == Some("c") && Truthy(Some("c"))
  {
    ShortChoiceKey(kc);
    assert kc[..1] == "v";
    assert kc[4..] == "c";
  }

  /** Joining "a" and then "c" gives "a, c". */
  lemma JoinAC()
    ensures Join(["a"], LabelSep) == "a"
    ensures Join(["a"] + ["c"], LabelSep) == "a, c"
  {
    assert ["a"] + ["c"] == ["a", "c"];
    assert ["a", "c"][1..] == ["c"];
  }

  /** Worked example: columns `v___a`="1", `v___b`="0", `v___c`="1" decode
      to `v` = "a, c". */
  lemma CheckboxExample(ka: string, kb: string, kc: string, row: CsvRow)
    requires |ka| == 5 && ka[1..4] == "___" && ka[0] == 'v' && ka[4] == 'a'
    requires |kb| == 5 && kb[1..4] == "___" && kb[0] == 'v' && kb[4] == 'b'
    requires |kc| == 5 && kc[1..4] == "___" && kc[0] == 'v' && kc[4] == 'c'
    requires row == [(ka, Some("1")), (kb, Some("0")), (kc, Some("1"))]
    ensures "v" in ReadRow(row) && ReadRow(row)["v"] == Some("a, c")
  {
    var c0, c1, c2 := row[0], row[1], row[2];
    ReadRowSnoc([], c0);
    ExampleStep1(ka);
    ReadRowSnoc([c0], c1);
    ExampleStep2(ReadRow([c0]), kb);
    ReadRowSnoc([c0, c1], c2);
    ExampleStep3(ReadRow([c0, c1]), kc);
    assert row == [c0, c1] + [c2];
  }
}
