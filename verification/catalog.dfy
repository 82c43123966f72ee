/** The project catalog: the `Projects` table (unique project names) and the
    `InstrumentsMeta` table relating an instrument (a data model name) to a
    project by name, plus the idempotent seeding of the instrument pairs. */
module Catalog {
  import opened Wrappers
  import opened Seqs

  const DefaultProjectName := "tsepamo_1"

  /** Declared column lengths. */
  const ProjectNameLength := 20
  const ProjectVerboseNameLength := 50
  const FormNameLength := 100
  const RelatedProjectLength := 20

  /** A `Projects` row; the verbose name is nullable. */
  datatype Project = Project(id: nat, name: string, verboseName: Option<string>)

  /** An `InstrumentsMeta` row. `relatedProject` is a plain project name, not
      a foreign key. */
  datatype Instrument = Instrument(formName: string, relatedProject: string)

  datatype CatalogError =
    | IntegrityError
    | MultipleObjectsReturned(pair: Instrument)

  /** A project created without a name takes the default one. */
  function NewProject(id: nat, name: Option<string>, verboseName: Option<string>): (p: Project)
    ensures name.None? ==> p.name == DefaultProjectName
    ensures name.Some? ==> p.name == name.value
    ensures p.id == id && p.verboseName == verboseName
  {
    Project(id, if name.Some? then name.value else DefaultProjectName, verboseName)
  }

  predicate ProjectFits(p: Project) {
    |p.name| <= ProjectNameLength
    && (p.verboseName.Some? ==> |p.verboseName.value| <= ProjectVerboseNameLength)
  }

  predicate InstrumentFits(i: Instrument) {
    |i.formName| <= FormNameLength && |i.relatedProject| <= RelatedProjectLength
  }

  /** `unique=True` on `Projects.name`. */
  predicate UniqueProjectNames(ps: seq<Project>) {
    forall i, j :: 0 <= i < j < |ps| ==> ps[i].name != ps[j].name
  }

  /** `objects.create` on `Projects`: the unique index refuses a taken name. */
  function CreateProject(ps: seq<Project>, p: Project): (r: Result<seq<Project>, CatalogError>)
    ensures r.Err? <==> exists i :: 0 <= i < |ps| && ps[i].name == p.name
    ensures r.Err? ==> r.error == IntegrityError
    ensures r.Ok? ==> r.value == ps + [p]
    ensures r.Ok? && UniqueProjectNames(ps) ==> UniqueProjectNames(r.value)
  {
    if exists i :: 0 <= i < |ps| && ps[i].name == p.name then Err(IntegrityError)
    else Ok(ps + [p])
  }

  /** How many rows hold this (form name, project) pair. */
  function Count(instrs: seq<Instrument>, x: Instrument): nat {
    multiset(instrs)[x]
  }

  /** `unique_together = ('form_name', 'related_project')`. */
  ghost predicate UniquePairs(instrs: seq<Instrument>) {
    forall x :: Count(instrs, x) <= 1
  }

  /** `objects.create` on `InstrumentsMeta`: the unique index refuses a pair
      that already exists. */
  function CreateInstrument(instrs: seq<Instrument>, x: Instrument): (r: Result<seq<Instrument>, CatalogError>)
    ensures r.Err? <==> Count(instrs, x) > 0
    ensures r.Err? ==> r.error == IntegrityError
    ensures r.Ok? ==> r.value == instrs + [x] && Count(r.value, x) == 1
  {
    if Count(instrs, x) > 0 then Err(IntegrityError) else Ok(instrs + [x])
  }

  /** The get-or-create step: `get` finds the one row, or raises
      `DoesNotExist` (then the pair is created) or `MultipleObjectsReturned`
      (uncaught). */
  function SeedOne(instrs: seq<Instrument>, x: Instrument): (r: Result<seq<Instrument>, CatalogError>)
    ensures r.Err? <==> Count(instrs, x) > 1
    ensures r.Err? ==> r.error == MultipleObjectsReturned(x)
    ensures r.Ok? ==> Count(r.value, x) == 1
    ensures r.Ok? && Count(instrs, x) == 1 ==> r.value == instrs
    ensures r.Ok? && Count(instrs, x) == 0 ==> r.value == instrs + [x]
  {
    var c := Count(instrs, x);
    if c == 0 then CreateInstrument(instrs, x)
    else if c == 1 then Ok(instrs)
    else Err(MultipleObjectsReturned(x))
  }

  /** Runs the get-or-create step over `pairs` in order, stopping at the
      first error. */
  function Seed(instrs: seq<Instrument>, pairs: seq<Instrument>): (r: Result<seq<Instrument>, CatalogError>)
    ensures r.Ok? ==> |instrs| <= |r.value| && r.value[..|instrs|] == instrs
    ensures r.Ok? ==> forall i :: 0 <= i < |pairs| ==> pairs[i] in r.value
    ensures r.Err? ==> exists i :: 0 <= i < |pairs| && r.error == MultipleObjectsReturned(pairs[i])
    decreases |pairs|
  {
    if |pairs| == 0 then Ok(instrs)
    else
      var next :- SeedOne(instrs, pairs[0]);
      Seed(next, pairs[1..])
  }

  /** Appending one element changes only that element's count. */
  lemma CountAppend(instrs: seq<Instrument>, x: Instrument, y: Instrument)
    ensures Count(instrs + [x], y) == Count(instrs, y) + (if x == y then 1 else 0)
  {
    assert multiset(instrs + [x]) == multiset(instrs) + multiset{x};
  }

  /** Seeding distinct pairs succeeds iff no pair is already duplicated; then
      it only appends, leaves every other pair's count alone, and leaves each
      seeded pair present exactly once. */
  lemma SeedSpec(instrs: seq<Instrument>, pairs: seq<Instrument>)
    requires Distinct(pairs)
    ensures Seed(instrs, pairs).Ok? <==> forall i :: 0 <= i < |pairs| ==> Count(instrs, pairs[i]) <= 1
    ensures Seed(instrs, pairs).Ok? ==>
      var r := Seed(instrs, pairs).value;
      |instrs| <= |r| && r[..|instrs|] == instrs
      && (forall i :: 0 <= i < |pairs| ==> Count(r, pairs[i]) == 1)
      && (forall y :: y !in pairs ==> Count(r, y) == Count(instrs, y))
    ensures Seed(instrs, pairs).Err? ==>
      exists i :: 0 <= i < |pairs| && Seed(instrs, pairs).error == MultipleObjectsReturned(pairs[i])
  {
    SeedCounts(instrs, pairs);
  }

  /** The step of seeding past one successfully seeded pair: counts of every
      other pair are unchanged. */
  lemma SeedOneFrame(instrs: seq<Instrument>, x: Instrument)
    requires SeedOne(instrs, x).Ok?
    ensures forall y :: y != x ==> Count(SeedOne(instrs, x).value, y) == Count(instrs, y)
  {
    forall y | y != x
      ensures Count(SeedOne(instrs, x).value, y) == Count(instrs, y)
    {
      if Count(instrs, x) == 0 { CountAppend(instrs, x, y); }
    }
  }

  /** The counting part of seeding distinct pairs. */
  lemma {:induction false} SeedCounts(instrs: seq<Instrument>, pairs: seq<Instrument>)
    requires Distinct(pairs)
    ensures Seed(instrs, pairs).Ok? <==> forall i :: 0 <= i < |pairs| ==> Count(instrs, pairs[i]) <= 1
    ensures Seed(instrs, pairs).Ok? ==>
      var r := Seed(instrs, pairs).value;
      (forall i :: 0 <= i < |pairs| ==> Count(r, pairs[i]) == 1)
      && (forall y :: y !in pairs ==> Count(r, y) == Count(instrs, y))
    decreases |pairs|
  {
    if |pairs| > 0 {
      var x := pairs[0];
      var rest := pairs[1..];
      assert Distinct(rest);
      assert x !in rest;
      var step := SeedOne(instrs, x);
      if step.Ok? {
        var next := step.value;
        SeedOneFrame(instrs, x);
        SeedCounts(next, rest);
        assert Seed(instrs, pairs) == Seed(next, rest);
        assert forall i :: 1 <= i < |pairs| ==> pairs[i] == rest[i - 1];
      }
    }
  }

  /** When every pair is already present exactly once, seeding changes
      nothing. */
  lemma {:induction false} SeedNoop(instrs: seq<Instrument>, pairs: seq<Instrument>)
    requires forall i :: 0 <= i < |pairs| ==> Count(instrs, pairs[i]) == 1
    ensures Seed(instrs, pairs) == Ok(instrs)
    decreases |pairs|
  {
    if |pairs| > 0 {
      assert SeedOne(instrs, pairs[0]) == Ok(instrs);
      SeedNoop(instrs, pairs[1..]);
    }
  }

  /** A second seeding run creates nothing. */
  lemma SeedIdempotent(instrs: seq<Instrument>, pairs: seq<Instrument>)
    requires Distinct(pairs)
    requires Seed(instrs, pairs).Ok?
    ensures Seed(Seed(instrs, pairs).value, pairs) == Seed(instrs, pairs)
  {
    SeedSpec(instrs, pairs);
    SeedNoop(Seed(instrs, pairs).value, pairs);
  }

  /** Seeding a catalog that satisfies its unique constraint always succeeds
      and keeps the constraint. */
  lemma SeedKeepsUnique(instrs: seq<Instrument>, pairs: seq<Instrument>)
    requires Distinct(pairs) && UniquePairs(instrs)
    ensures Seed(instrs, pairs).Ok?
    ensures UniquePairs(Seed(instrs, pairs).value)
  {
    SeedSpec(instrs, pairs);
    var r := Seed(instrs, pairs).value;
    forall y ensures Count(r, y) <= 1 {
      if y in pairs {
        var i :| 0 <= i < |pairs| && pairs[i] == y;
      }
    }
  }

  /** The static `projects_data`, in dictionary order. */
  const ProjectsData: seq<(string, seq<string>)> := [
    ("tsepamo_1", ["tsepamoone", "outcomesone"]),
    ("tsepamo_2", ["tsepamotwo", "outcomestwo", "switcheripmstwo", "personalidentifierstwo"]),
    ("tsepamo_3", ["tsepamothree", "outcomesthree", "switcheripmsthree", "personalidentifiersthree"]),
    ("tsepamo_4", ["tsepamofour", "outcomesfour", "switcheripmsfour", "personalidentifiersfour"])
  ]

  /** The pairs of one project, in list order. */
  function PairsOf(project: string, forms: seq<string>): (r: seq<Instrument>)
    ensures |r| == |forms|
    ensures forall i :: 0 <= i < |forms| ==> r[i] == Instrument(forms[i], project)
  {
    seq(|forms|, i requires 0 <= i < |forms| => Instrument(forms[i], project))
  }

  /** The nested loops' iteration order over a project map. */
  function AllPairs(data: seq<(string, seq<string>)>): seq<Instrument>
    decreases |data|
  {
    if |data| == 0 then []
    else AllPairs(data[..|data| - 1]) + PairsOf(data[|data| - 1].0, data[|data| - 1].1)
  }

  /** A four-project map flattens to its four blocks of pairs, in order. */
  lemma AllPairsFour(d: seq<(string, seq<string>)>)
    requires |d| == 4
    ensures AllPairs(d) == PairsOf(d[0].0, d[0].1) + PairsOf(d[1].0, d[1].1)
                          + PairsOf(d[2].0, d[2].1) + PairsOf(d[3].0, d[3].1)
  {
    var p0, p1, p2, p3 := PairsOf(d[0].0, d[0].1), PairsOf(d[1].0, d[1].1),
                          PairsOf(d[2].0, d[2].1), PairsOf(d[3].0, d[3].1);
    assert d[..1][..0] == [];
    assert AllPairs(d[..1]) == p0;
    assert d[..2][..1] == d[..1];
    assert AllPairs(d[..2]) == p0 + p1;
    assert d[..3][..2] == d[..2];
    assert AllPairs(d[..3]) == p0 + p1 + p2;
    assert d[..3] == d[..|d| - 1];
  }

  /** The fourteen seed pairs: two for `tsepamo_1`, then four each for
      `tsepamo_2` to `tsepamo_4`, in loop order. */
  function SeedPairs(): (r: seq<Instrument>)
    ensures |r| == 14
    ensures forall i :: 0 <= i < 2 ==> r[i].relatedProject == "tsepamo_1"
    ensures forall i :: 2 <= i < 6 ==> r[i].relatedProject == "tsepamo_2"
    ensures forall i :: 6 <= i < 10 ==> r[i].relatedProject == "tsepamo_3"
    ensures forall i :: 10 <= i < 14 ==> r[i].relatedProject == "tsepamo_4"
    ensures r == [Instrument("tsepamoone", "tsepamo_1"), Instrument("outcomesone", "tsepamo_1"),
                  Instrument("tsepamotwo", "tsepamo_2"), Instrument("outcomestwo", "tsepamo_2"),
                  Instrument("switcheripmstwo", "tsepamo_2"), Instrument("personalidentifierstwo", "tsepamo_2"),
                  Instrument("tsepamothree", "tsepamo_3"), Instrument("outcomesthree", "tsepamo_3"),
                  Instrument("switcheripmsthree", "tsepamo_3"), Instrument("personalidentifiersthree", "tsepamo_3"),
                  Instrument("tsepamofour", "tsepamo_4"), Instrument("outcomesfour", "tsepamo_4"),
                  Instrument("switcheripmsfour", "tsepamo_4"), Instrument("personalidentifiersfour", "tsepamo_4")]
  {
    AllPairsFour(ProjectsData);
    AllPairs(ProjectsData)
  }

  /** `handle` of the `load_instruments_meta` command. */
  function HandleSeed(instrs: seq<Instrument>): (r: Result<seq<Instrument>, CatalogError>)
    ensures var pairs := SeedPairs();
      r.Ok? <==> forall i :: 0 <= i < |pairs| ==> Count(instrs, pairs[i]) <= 1
    ensures var pairs := SeedPairs();
      r.Ok? ==>
        |instrs| <= |r.value| && r.value[..|instrs|] == instrs
        && forall i :: 0 <= i < |pairs| ==> Count(r.value, pairs[i]) == 1
  {
    SeedPairsDistinct();
    SeedSpec(instrs, SeedPairs());
    Seed(instrs, SeedPairs())
  }

  lemma SeedPairsDistinct()
    ensures Distinct(SeedPairs())
  {
    var r := SeedPairs();
    forall i, j | 0 <= i < j < |r| ensures r[i] != r[j] {
      if r[i].relatedProject == r[j].relatedProject {
        assert r[i].formName != r[j].formName;
      }
    }
  }

  /** After the command every seed pair exists exactly once, every other row
      is kept, and nothing is created by a second run. */
  lemma HandleSeedSpec(instrs: seq<Instrument>)
    requires UniquePairs(instrs)
    ensures HandleSeed(instrs).Ok?
    ensures var r := HandleSeed(instrs).value;
      |instrs| <= |r| && r[..|instrs|] == instrs
      && (forall i :: 0 <= i < 14 ==> Count(r, SeedPairs()[i]) == 1)
      && UniquePairs(r)
      && HandleSeed(r) == Ok(r)
  {
    SeedPairsDistinct();
    SeedSpec(instrs, SeedPairs());
    SeedKeepsUnique(instrs, SeedPairs());
    SeedIdempotent(instrs, SeedPairs());
  }
}
