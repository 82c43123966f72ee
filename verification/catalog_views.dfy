/** The catalog queries behind the export pages: the field-list parameter,
    project selection by name, and the per-project instrument and record
    counts. */
module CatalogViews {
  import opened Wrappers
  import opened Seqs
  import opened Text
  import opened Store
  import opened Catalog

  /** `apps.get_model` found no model with this name. */
  datatype ViewError = LookupError(name: string)

  /** `request.GET.get('fields', '').split(',')`. */
  function FieldsFromRequest(query: map<string, string>): (fields: seq<string>)
    ensures |fields| >= 1
    ensures "fields" in query ==> Join(fields, ",") == query["fields"]
    ensures forall i :: 0 <= i < |fields| ==> !Contains(fields[i], ",")
    ensures "fields" !in query ==> fields == [""]
  {
    var selected := if "fields" in query then query["fields"] else "";
    var parts := Split(selected, ",");
    if "fields" !in query then
      assert !Contains(selected, ",");
      assert |parts| == 1 && Join(parts, ",") == parts[0];
      parts
    else parts
  }

  /** `get_projects_by_name`: every project for an empty list, otherwise the
      projects whose name is listed, in table order. */
  function ProjectsByName(ps: seq<Project>, names: seq<string>): (r: seq<Project>)
    ensures |names| == 0 ==> r == ps
    ensures |names| > 0 ==> forall i :: 0 <= i < |r| ==> r[i] in ps && r[i].name in names
    ensures |names| > 0 ==> forall i :: 0 <= i < |ps| && ps[i].name in names ==> ps[i] in r
  {
    if |names| > 0 then Filter(ps, (p: Project) => p.name in names) else ps
  }

  /** One entry of `get_related_models_info`. */
  datatype ModelInfo = ModelInfo(projectName: Option<string>, modelName: string,
                                 verboseName: string, recordsCount: nat)

  /** The catalog rows of a project, joined by project name. */
  function InstrumentsOf(instrs: seq<Instrument>, project: string): (r: seq<Instrument>)
    ensures forall i :: 0 <= i < |r| ==> r[i] in instrs && r[i].relatedProject == project
    ensures forall i :: 0 <= i < |instrs| && instrs[i].relatedProject == project ==> instrs[i] in r
  {
    Filter(instrs, (x: Instrument) => x.relatedProject == project)
  }

  /** `values_list('form_name', flat=True)`. */
  function FormNames(instrs: seq<Instrument>): (names: seq<string>)
    ensures |names| == |instrs|
    ensures forall i :: 0 <= i < |instrs| ==> names[i] == instrs[i].formName
  {
    seq(|instrs|, i requires 0 <= i < |instrs| => instrs[i].formName)
  }

  /** The entry for one instrument: its model's name, verbose name and row
      count, under the project's verbose name. */
  function InfoFor(reg: Registry, db: Db, project: Project, form: string): (r: Result<ModelInfo, ViewError>)
    ensures r.Err? <==> GetModel(reg, form).None?
    ensures r.Err? ==> r.error == LookupError(form)
    ensures r.Ok? ==> (r.value.modelName == Lower(form)
      && r.value.recordsCount == |RowsOf(db, r.value.modelName)|
      && r.value.projectName == project.verboseName
      && r.value.verboseName == GetModel(reg, form).value.verboseName)
  {
    match GetModel(reg, form)
    case None => Err(LookupError(form))
    case Some(decl) => Ok(ModelInfo(project.verboseName, decl.name, decl.verboseName, |RowsOf(db, decl.name)|))
  }

  /** The loop of `get_related_models_info`: one entry per form in order; the
      first unknown model raises. */
  function RelatedInfos(reg: Registry, db: Db, project: Project, forms: seq<string>): Result<seq<ModelInfo>, ViewError>
    decreases |forms|
  {
    if |forms| == 0 then Ok([])
    else
      var prev :- RelatedInfos(reg, db, project, forms[..|forms| - 1]);
      var info :- InfoFor(reg, db, project, forms[|forms| - 1]);
      Ok(prev + [info])
  }

  /** The loop succeeds iff every form names a model; it then yields the
      entries of the forms in order, and otherwise the error names one of
      the forms. */
  lemma {:induction false} RelatedInfosSpec(reg: Registry, db: Db, project: Project, forms: seq<string>)
    ensures RelatedInfos(reg, db, project, forms).Ok?
      <==> forall i :: 0 <= i < |forms| ==> InfoFor(reg, db, project, forms[i]).Ok?
    ensures RelatedInfos(reg, db, project, forms).Ok? ==>
      var r := RelatedInfos(reg, db, project, forms).value;
      |r| == |forms| && forall i :: 0 <= i < |forms| ==> r[i] == InfoFor(reg, db, project, forms[i]).value
    ensures RelatedInfos(reg, db, project, forms).Err? ==>
      exists i :: 0 <= i < |forms| && RelatedInfos(reg, db, project, forms).error == LookupError(forms[i])
    decreases |forms|
  {
    if |forms| > 0 {
      var init := forms[..|forms| - 1];
      var last := forms[|forms| - 1];
      RelatedInfosSpec(reg, db, project, init);
      assert forall i :: 0 <= i < |init| ==> init[i] == forms[i];
      var prev := RelatedInfos(reg, db, project, init);
      var info := InfoFor(reg, db, project, last);
      if prev.Err? {
        assert RelatedInfos(reg, db, project, forms) == Err(prev.error);
      } else if info.Err? {
        assert RelatedInfos(reg, db, project, forms) == Err(info.error);
      } else {
        assert RelatedInfos(reg, db, project, forms) == Ok(prev.value + [info.value]);
      }
    }
  }

  /** `get_related_models_info(project)`. */
  function RelatedModelsInfo(reg: Registry, db: Db, instrs: seq<Instrument>, project: Project): (r: Result<seq<ModelInfo>, ViewError>)
    ensures var rows := InstrumentsOf(instrs, project.name);
      r.Ok? <==> forall i :: 0 <= i < |rows| ==> GetModel(reg, rows[i].formName).Some?
    ensures var rows := InstrumentsOf(instrs, project.name);
      r.Ok? ==> |r.value| == |rows| && forall i :: 0 <= i < |rows| ==>
        r.value[i].modelName == Lower(rows[i].formName) && r.value[i].projectName == project.verboseName
        && r.value[i].recordsCount == |RowsOf(db, r.value[i].modelName)|
    ensures var rows := InstrumentsOf(instrs, project.name);
      r.Ok? ==> |r.value| == |rows| && forall i :: 0 <= i < |rows| ==>
        GetModel(reg, rows[i].formName).Some?
        && r.value[i].verboseName == GetModel(reg, rows[i].formName).value.verboseName
    ensures var rows := InstrumentsOf(instrs, project.name);
      r.Err? ==> exists i :: 0 <= i < |rows| && r.error == LookupError(rows[i].formName)
  {
    var forms := FormNames(InstrumentsOf(instrs, project.name));
    RelatedInfosSpec(reg, db, project, forms);
    RelatedInfos(reg, db, project, forms)
  }

  /** One entry of `get_project_details`. */
  datatype Detail = Detail(name: string, id: nat, verboseName: Option<string>,
                           instruments: nat, records: int)

  function RecordCounts(infos: seq<ModelInfo>): (counts: seq<int>)
    ensures |counts| == |infos|
    ensures forall i :: 0 <= i < |infos| ==> counts[i] == infos[i].recordsCount
  {
    seq(|infos|, i requires 0 <= i < |infos| => infos[i].recordsCount)
  }

  /** The entry of one project over its related-model entries. */
  function DetailFor(p: Project, infos: seq<ModelInfo>): Detail {
    Detail(p.name, p.id, p.verboseName, |infos|, Sum(RecordCounts(infos)))
  }

  /** Details of the given projects, in order, where `related` yields a
      project's related-model entries (`get_related_models_info`). */
  function DetailsOf(related: Project -> Result<seq<ModelInfo>, ViewError>, ps: seq<Project>): Result<seq<Detail>, ViewError>
    decreases |ps|
  {
    if |ps| == 0 then Ok([])
    else
      var prev :- DetailsOf(related, ps[..|ps| - 1]);
      var infos :- related(ps[|ps| - 1]);
      Ok(prev + [DetailFor(ps[|ps| - 1], infos)])
  }

  /** The related-model entries of the given projects, concatenated in order. */
  function FormsOf(related: Project -> Result<seq<ModelInfo>, ViewError>, ps: seq<Project>): Result<seq<ModelInfo>, ViewError>
    decreases |ps|
  {
    if |ps| == 0 then Ok([])
    else
      var prev :- FormsOf(related, ps[..|ps| - 1]);
      var infos :- related(ps[|ps| - 1]);
      Ok(prev + infos)
  }

  /** Every project's related-model entries can be built. */
  predicate AllRelated(related: Project -> Result<seq<ModelInfo>, ViewError>, ps: seq<Project>) {
    forall i :: 0 <= i < |ps| ==> related(ps[i]).Ok?
  }

  /** Project `i` is the first whose related-model entries fail. */
  predicate FirstFailure(related: Project -> Result<seq<ModelInfo>, ViewError>, ps: seq<Project>, i: int) {
    0 <= i < |ps| && related(ps[i]).Err? && forall j :: 0 <= j < i ==> related(ps[j]).Ok?
  }

  /** The related-model entries of each project, in project order. */
  function RelatedOf(related: Project -> Result<seq<ModelInfo>, ViewError>, ps: seq<Project>): (r: seq<seq<ModelInfo>>)
    requires AllRelated(related, ps)
    ensures |r| == |ps| && forall i :: 0 <= i < |ps| ==> r[i] == related(ps[i]).value
  {
    seq(|ps|, i requires 0 <= i < |ps| => related(ps[i]).value)
  }

  /** The per-project loop of `get_project_details` succeeds exactly when
      every project's entries can be built, and otherwise stops with the
      exception of the first project that fails. */
  lemma {:induction false} DetailsOfOutcome(related: Project -> Result<seq<ModelInfo>, ViewError>, ps: seq<Project>)
    ensures DetailsOf(related, ps).Ok? <==> AllRelated(related, ps)
    ensures DetailsOf(related, ps).Err? ==>
      exists i :: FirstFailure(related, ps, i) && DetailsOf(related, ps).error == related(ps[i]).error
    decreases |ps|
  {
    if |ps| > 0 {
      var init := ps[..|ps| - 1];
      DetailsOfOutcome(related, init);
      assert forall j :: 0 <= j < |init| ==> init[j] == ps[j];
      if DetailsOf(related, init).Err? {
        var i :| FirstFailure(related, init, i) && DetailsOf(related, init).error == related(init[i]).error;
        assert FirstFailure(related, ps, i);
      } else if related(ps[|ps| - 1]).Err? {
        assert FirstFailure(related, ps, |ps| - 1);
      }
    }
  }

  /** The per-project loop of `get_forms_details` succeeds exactly when
      every project's entries can be built, and then yields those entries
      joined in project order; otherwise it stops with the exception of the
      first project that fails. */
  lemma {:induction false} FormsOfSpec(related: Project -> Result<seq<ModelInfo>, ViewError>, ps: seq<Project>)
    ensures FormsOf(related, ps).Ok? <==> AllRelated(related, ps)
    ensures FormsOf(related, ps).Ok? ==> FormsOf(related, ps).value == Flatten(RelatedOf(related, ps))
    ensures FormsOf(related, ps).Err? ==>
      exists i :: FirstFailure(related, ps, i) && FormsOf(related, ps).error == related(ps[i]).error
    decreases |ps|
  {
    if |ps| > 0 {
      var init := ps[..|ps| - 1];
      var last := ps[|ps| - 1];
      FormsOfSpec(related, init);
      assert forall j :: 0 <= j < |init| ==> init[j] == ps[j];
      if FormsOf(related, init).Err? {
        var i :| FirstFailure(related, init, i) && FormsOf(related, init).error == related(init[i]).error;
        assert FirstFailure(related, ps, i);
      } else if related(last).Err? {
        assert FirstFailure(related, ps, |ps| - 1);
      } else {
        assert RelatedOf(related, ps) == RelatedOf(related, init) + [related(last).value];
        FlattenSnoc(RelatedOf(related, init), related(last).value);
      }
    }
  }

  /** The related-model entries of each selected project, in order. */
  function ProjectInfos(reg: Registry, db: Db, instrs: seq<Instrument>, selected: seq<Project>): (r: seq<seq<ModelInfo>>)
    requires forall i :: 0 <= i < |selected| ==> RelatedModelsInfo(reg, db, instrs, selected[i]).Ok?
    ensures |r| == |selected|
    ensures forall i :: 0 <= i < |selected| ==> r[i] == RelatedModelsInfo(reg, db, instrs, selected[i]).value
  {
    seq(|selected|, i requires 0 <= i < |selected| => RelatedModelsInfo(reg, db, instrs, selected[i]).value)
  }

  /** `get_project_details(project_names)`. */
  function ProjectDetails(reg: Registry, db: Db, instrs: seq<Instrument>, ps: seq<Project>, names: seq<string>): (r: Result<seq<Detail>, ViewError>)
    ensures var selected := ProjectsByName(ps, names);
      r.Ok? <==> forall i :: 0 <= i < |selected| ==> RelatedModelsInfo(reg, db, instrs, selected[i]).Ok?
    ensures var selected := ProjectsByName(ps, names);
      r.Ok? ==> |r.value| == |selected| && forall i :: 0 <= i < |selected| ==>
        RelatedModelsInfo(reg, db, instrs, selected[i]).Ok?
        && r.value[i] == DetailFor(selected[i], RelatedModelsInfo(reg, db, instrs, selected[i]).value)
    ensures var selected := ProjectsByName(ps, names);
      r.Err? ==>
        exists i :: 0 <= i < |selected| && RelatedModelsInfo(reg, db, instrs, selected[i]).Err?
          && (forall j :: 0 <= j < i ==> RelatedModelsInfo(reg, db, instrs, selected[j]).Ok?)
          && r.error == RelatedModelsInfo(reg, db, instrs, selected[i]).error
  {
    var related := p => RelatedModelsInfo(reg, db, instrs, p);
    var selected := ProjectsByName(ps, names);
    DetailsOfSelected(reg, db, instrs, selected, related);
    if DetailsOf(related, selected).Ok? then
      DetailsDescribeProjects(related, selected);
      DetailsOf(related, selected)
    else DetailsOf(related, selected)
  }

  /** `DetailsOfOutcome` for the entries `get_related_models_info` builds. */
  lemma DetailsOfSelected(reg: Registry, db: Db, instrs: seq<Instrument>, selected: seq<Project>,
                          related: Project -> Result<seq<ModelInfo>, ViewError>)
    requires forall p :: related(p) == RelatedModelsInfo(reg, db, instrs, p)
    ensures DetailsOf(related, selected).Ok? <==>
      forall i :: 0 <= i < |selected| ==> RelatedModelsInfo(reg, db, instrs, selected[i]).Ok?
    ensures DetailsOf(related, selected).Err? ==>
      exists i :: 0 <= i < |selected| && RelatedModelsInfo(reg, db, instrs, selected[i]).Err?
        && (forall j :: 0 <= j < i ==> RelatedModelsInfo(reg, db, instrs, selected[j]).Ok?)
        && DetailsOf(related, selected).error == RelatedModelsInfo(reg, db, instrs, selected[i]).error
  {
    DetailsOfOutcome(related, selected);
    if DetailsOf(related, selected).Err? {
      var i :| FirstFailure(related, selected, i) && DetailsOf(related, selected).error == related(selected[i]).error;
      assert RelatedModelsInfo(reg, db, instrs, selected[i]).Err?;
    }
  }

  /** `get_forms_details(project_names)`. */
  function FormsDetails(reg: Registry, db: Db, instrs: seq<Instrument>, ps: seq<Project>, names: seq<string>): (r: Result<seq<ModelInfo>, ViewError>)
    ensures var selected := ProjectsByName(ps, names);
      r.Ok? <==> forall i :: 0 <= i < |selected| ==> RelatedModelsInfo(reg, db, instrs, selected[i]).Ok?
    ensures r.Ok? <==> ProjectDetails(reg, db, instrs, ps, names).Ok?
    ensures var selected := ProjectsByName(ps, names);
      r.Ok? ==> r.value == Flatten(ProjectInfos(reg, db, instrs, selected))
    ensures var selected := ProjectsByName(ps, names);
      r.Err? ==>
        exists i :: 0 <= i < |selected| && RelatedModelsInfo(reg, db, instrs, selected[i]).Err?
          && (forall j :: 0 <= j < i ==> RelatedModelsInfo(reg, db, instrs, selected[j]).Ok?)
          && r.error == RelatedModelsInfo(reg, db, instrs, selected[i]).error
    ensures r.Ok? ==> |r.value| == Sum(InstrumentCounts(ProjectDetails(reg, db, instrs, ps, names).value))
  {
    var related := p => RelatedModelsInfo(reg, db, instrs, p);
    var selected := ProjectsByName(ps, names);
    FormsMatchDetails(related, selected);
    FormsOfSelected(reg, db, instrs, selected, related);
    FormsOf(related, selected)
  }

  /** `FormsOfSpec` for the entries `get_related_models_info` builds. */
  lemma FormsOfSelected(reg: Registry, db: Db, instrs: seq<Instrument>, selected: seq<Project>,
                        related: Project -> Result<seq<ModelInfo>, ViewError>)
    requires forall p :: related(p) == RelatedModelsInfo(reg, db, instrs, p)
    ensures FormsOf(related, selected).Ok? <==>
      forall i :: 0 <= i < |selected| ==> RelatedModelsInfo(reg, db, instrs, selected[i]).Ok?
    ensures FormsOf(related, selected).Ok? ==>
      FormsOf(related, selected).value == Flatten(ProjectInfos(reg, db, instrs, selected))
    ensures FormsOf(related, selected).Err? ==>
      exists i :: 0 <= i < |selected| && RelatedModelsInfo(reg, db, instrs, selected[i]).Err?
        && (forall j :: 0 <= j < i ==> RelatedModelsInfo(reg, db, instrs, selected[j]).Ok?)
        && FormsOf(related, selected).error == RelatedModelsInfo(reg, db, instrs, selected[i]).error
  {
    FormsOfSpec(related, selected);
    if FormsOf(related, selected).Ok? {
      assert RelatedOf(related, selected) == ProjectInfos(reg, db, instrs, selected);
    } else {
      var i :| FirstFailure(related, selected, i) && FormsOf(related, selected).error == related(selected[i]).error;
      assert RelatedModelsInfo(reg, db, instrs, selected[i]).Err?;
    }
  }

  function InstrumentCounts(ds: seq<Detail>): (counts: seq<int>)
    ensures |counts| == |ds|
    ensures forall i :: 0 <= i < |ds| ==> counts[i] == ds[i].instruments
  {
    seq(|ds|, i requires 0 <= i < |ds| => ds[i].instruments)
  }

  function Records(ds: seq<Detail>): (counts: seq<int>)
    ensures |counts| == |ds|
    ensures forall i :: 0 <= i < |ds| ==> counts[i] == ds[i].records
  {
    seq(|ds|, i requires 0 <= i < |ds| => ds[i].records)
  }

  /** Each detail describes its project: one detail per project, in order,
      whose instrument count is the number of the project's entries and whose
      record count is the sum of their row counts. */
  lemma {:induction false} DetailsDescribeProjects(related: Project -> Result<seq<ModelInfo>, ViewError>, ps: seq<Project>)
    requires DetailsOf(related, ps).Ok?
    ensures var ds := DetailsOf(related, ps).value;
      |ds| == |ps|
      && forall i :: 0 <= i < |ps| ==>
           related(ps[i]).Ok?
           && ds[i] == DetailFor(ps[i], related(ps[i]).value)
    decreases |ps|
  {
    if |ps| > 0 {
      var init := ps[..|ps| - 1];
      var p := ps[|ps| - 1];
      assert DetailsOf(related, init).Ok?;
      assert related(p).Ok?;
      DetailsDescribeProjects(related, init);
      var ds := DetailsOf(related, init).value;
      var infos := related(p).value;
      var all := DetailsOf(related, ps).value;
      assert all == ds + [DetailFor(p, infos)];
      forall i | 0 <= i < |ps|
        ensures related(ps[i]).Ok?
        ensures all[i] == DetailFor(ps[i], related(ps[i]).value)
      {
        if i < |init| {
          assert init[i] == ps[i] && all[i] == ds[i];
        } else {
          assert ps[i] == p && all[i] == DetailFor(p, infos);
        }
      }
    }
  }

  /** The forms listing and the project details agree: both fail or both
      succeed, the listing has as many entries as the details count
      instruments, and its record counts add up to the details' records. */
  lemma {:induction false} FormsMatchDetails(related: Project -> Result<seq<ModelInfo>, ViewError>, ps: seq<Project>)
    ensures FormsOf(related, ps).Ok? <==> DetailsOf(related, ps).Ok?
    ensures FormsOf(related, ps).Ok? ==>
      var fs := FormsOf(related, ps).value;
      var ds := DetailsOf(related, ps).value;
      |fs| == Sum(InstrumentCounts(ds)) && Sum(RecordCounts(fs)) == Sum(Records(ds))
    decreases |ps|
  {
    if |ps| > 0 {
      var init := ps[..|ps| - 1];
      FormsMatchDetails(related, init);
      var infos := related(ps[|ps| - 1]);
      if FormsOf(related, ps).Ok? {
        var fs := FormsOf(related, init).value;
        var ds := DetailsOf(related, init).value;
        var d := DetailFor(ps[|ps| - 1], infos.value);
        assert FormsOf(related, ps).value == fs + infos.value;
        assert DetailsOf(related, ps).value == ds + [d];
        CountsStep(ds, d);
        assert RecordCounts(fs + infos.value) == RecordCounts(fs) + RecordCounts(infos.value);
        SumAppend(RecordCounts(fs), RecordCounts(infos.value));
      }
    }
  }

  lemma CountsStep(ds: seq<Detail>, d: Detail)
    ensures Sum(InstrumentCounts(ds + [d])) == Sum(InstrumentCounts(ds)) + d.instruments
    ensures Sum(Records(ds + [d])) == Sum(Records(ds)) + d.records
  {
    assert InstrumentCounts(ds + [d])[..|ds|] == InstrumentCounts(ds);
    assert Records(ds + [d])[..|ds|] == Records(ds);
  }

  /** `get_related_models_info` yields one entry per catalog row of the
      project when every such row names a model. */
  lemma RelatedModelsInfoCount(reg: Registry, db: Db, instrs: seq<Instrument>, p: Project)
    requires RelatedModelsInfo(reg, db, instrs, p).Ok?
    ensures |RelatedModelsInfo(reg, db, instrs, p).value| == |InstrumentsOf(instrs, p.name)|
  {
    RelatedInfosSpec(reg, db, p, FormNames(InstrumentsOf(instrs, p.name)));
  }

  /** The two export pages agree for the same project names: the details
      and the forms listing fail together, each detail counts its project's
      catalog rows, the listing is as long as those counts added up, and the
      record counts add up to the same total. */
  lemma PagesAgree(reg: Registry, db: Db, instrs: seq<Instrument>, ps: seq<Project>, names: seq<string>)
    ensures FormsDetails(reg, db, instrs, ps, names).Ok? <==> ProjectDetails(reg, db, instrs, ps, names).Ok?
    ensures ProjectDetails(reg, db, instrs, ps, names).Ok? ==>
      var ds := ProjectDetails(reg, db, instrs, ps, names).value;
      var fs := FormsDetails(reg, db, instrs, ps, names).value;
      var selected := ProjectsByName(ps, names);
      |ds| == |selected|
      && (forall i :: 0 <= i < |ds| ==>
            ds[i].name == selected[i].name && ds[i].instruments == |InstrumentsOf(instrs, selected[i].name)|)
      && |fs| == Sum(InstrumentCounts(ds))
      && Sum(RecordCounts(fs)) == Sum(Records(ds))
  {
    var related := p => RelatedModelsInfo(reg, db, instrs, p);
    var selected := ProjectsByName(ps, names);
    FormsMatchDetails(related, selected);
    if ProjectDetails(reg, db, instrs, ps, names).Ok? {
      DetailsDescribeProjects(related, selected);
      forall i | 0 <= i < |selected|
        ensures RelatedModelsInfo(reg, db, instrs, selected[i]).Ok?
        ensures |RelatedModelsInfo(reg, db, instrs, selected[i]).value| == |InstrumentsOf(instrs, selected[i].name)|
      {
        assert related(selected[i]).Ok?;
        RelatedModelsInfoCount(reg, db, instrs, selected[i]);
      }
    }
  }

  /** A table column: its heading and the key of the JSON entry it shows. */
  datatype Column = Column(title: string, data: string)

  /** The keys of a `get_project_details` entry. */
  const DetailKeys: set<string> := {"name", "id", "verbose_name", "instruments", "records"}

  /** The keys of a `get_related_models_info` entry. */
  const ModelInfoKeys: set<string> := {"project_name", "model_name", "verbose_name", "records_count"}

  /** The projects table: four columns, each showing a key of the project
      details entries. */
  function ProjectColumns(): (cols: seq<Column>)
    ensures |cols| == 4
    ensures forall i :: 0 <= i < |cols| ==> cols[i].data in DetailKeys
  {
    [Column("Project Name", "verbose_name"), Column("Project ID", "id"),
     Column("Records", "records"), Column("Instruments", "instruments")]
  }

  /** The instruments table: three columns, each showing a key of the
      related-model entries. */
  function FormsColumns(): (cols: seq<Column>)
    ensures |cols| == 3
    ensures forall i :: 0 <= i < |cols| ==> cols[i].data in ModelInfoKeys
  {
    [Column("Instrument Name", "verbose_name"), Column("Project Name", "project_name"),
     Column("Records", "records_count")]
  }

  /** The fields table: two columns, the field's verbose name and type. */
  function FieldsColumns(): (cols: seq<Column>)
    ensures |cols| == 2
    ensures cols[0].data == "verbose_name" && cols[1].data == "field_type"
  {
    [Column("Field Name", "verbose_name"), Column("Field Type", "field_type")]
  }
}
