/** The `pull_tsepamo_redcap_data` command: selects projects from the
    project-to-models map and hands each selected project, in map order, to
    the export task together with the recipients. */
module PullCommand {
  import opened Wrappers

  /** `project_models_map`, in dictionary order. */
  const ProjectModelsMap: seq<(string, seq<string>)> := [
    ("tsepamo_1", ["tsepamo.tsepamo", "tsepamo.outcomes"]),
    ("tsepamo_2", ["tsepamo.tsepamo", "tsepamo.outcomes", "tsepamo.switcheripms",
                   "tsepamo.personalidentifiers", "tsepamo.ipmstwo"]),
    ("tsepamo_3", ["tsepamo.tsepamo", "tsepamo.outcomes", "tsepamo.switcheripms",
                   "tsepamo.personalidentifiers"]),
    ("tsepamo_4", ["tsepamo.tsepamo", "tsepamo.outcomes", "tsepamo.switcheripms",
                   "tsepamo.personalidentifiers"])
  ]

  function Keys(m: seq<(string, seq<string>)>): (ks: seq<string>)
    ensures |ks| == |m|
    ensures forall i :: 0 <= i < |m| ==> ks[i] == m[i].0
  {
    seq(|m|, i requires 0 <= i < |m| => m[i].0)
  }

  /** The parsed options; `--emails` is required, `--project_names`
      optional. */
  datatype Options = Options(projectNames: Option<seq<string>>, emails: Option<seq<string>>)

  /** The project names the loop accepts: the given ones, or every map key
      when none are given. */
  function Selected(m: seq<(string, seq<string>)>, names: Option<seq<string>>): (sel: seq<string>)
    ensures names.None? || |names.value| == 0 ==> sel == Keys(m)
    ensures names.Some? && |names.value| > 0 ==> sel == names.value
  {
    if names.Some? && |names.value| > 0 then names.value else Keys(m)
  }

  /** One hand-off to the export task: project, recipients, model list. */
  datatype Call = Call(project: string, emails: seq<string>, models: seq<string>)

  datatype PullError =
    | MissingEmails
    | CommandError(project: string)

  /** The calls that went through and the error that stopped the command. */
  datatype Outcome = Outcome(calls: seq<Call>, error: Option<PullError>)

  /** The dispatch loop over the map. `dispatch` tells whether the hand-off
      of a call succeeds; a failure raises `CommandError` and ends the
      loop. */
  function Dispatch(m: seq<(string, seq<string>)>, selected: seq<string>, emails: seq<string>,
                    dispatch: Call -> bool): (r: Outcome)
    ensures forall i :: 0 <= i < |r.calls| ==>
      r.calls[i].project in selected && r.calls[i].emails == emails
      && (r.calls[i].project, r.calls[i].models) in m && dispatch(r.calls[i])
    ensures r.error.Some? ==>
      exists e :: e in m && e.0 in selected && r.error.value == CommandError(e.0) && !dispatch(Call(e.0, emails, e.1))
    decreases |m|
  {
    if |m| == 0 then Outcome([], None)
    else
      var prev := Dispatch(m[..|m| - 1], selected, emails, dispatch);
      var e := m[|m| - 1];
      if prev.error.Some? || e.0 !in selected then prev
      else if dispatch(Call(e.0, emails, e.1)) then Outcome(prev.calls + [Call(e.0, emails, e.1)], None)
      else Outcome(prev.calls, Some(CommandError(e.0)))
  }

  /** `handle`: a missing `--emails` is a usage error before any dispatch. */
  function Handle(opts: Options, dispatch: Call -> bool): (r: Outcome)
    ensures opts.emails.None? ==> r == Outcome([], Some(MissingEmails))
  {
    if opts.emails.None? then Outcome([], Some(MissingEmails))
    else Dispatch(ProjectModelsMap, Selected(ProjectModelsMap, opts.projectNames), opts.emails.value, dispatch)
  }

  /** The map entries the loop does not skip, in map order. */
  function Wanted(m: seq<(string, seq<string>)>, selected: seq<string>): (w: seq<(string, seq<string>)>)
    ensures |w| <= |m|
    ensures forall i :: 0 <= i < |w| ==> w[i] in m && w[i].0 in selected
    ensures forall i :: 0 <= i < |m| && m[i].0 in selected ==> m[i] in w
    decreases |m|
  {
    if |m| == 0 then []
    else Wanted(m[..|m| - 1], selected) + (if m[|m| - 1].0 in selected then [m[|m| - 1]] else [])
  }

  /** The hand-offs for the given entries. */
  function CallsFor(entries: seq<(string, seq<string>)>, emails: seq<string>): (calls: seq<Call>)
    ensures |calls| == |entries|
    ensures forall i :: 0 <= i < |entries| ==> calls[i] == Call(entries[i].0, emails, entries[i].1)
  {
    seq(|entries|, i requires 0 <= i < |entries| => Call(entries[i].0, emails, entries[i].1))
  }

  /** The hand-offs of the given entries in order, stopping at the first
      failure: the loop of `handle` seen after skipping unselected entries. */
  function RunCalls(w: seq<(string, seq<string>)>, emails: seq<string>, dispatch: Call -> bool): Outcome
    decreases |w|
  {
    if |w| == 0 then Outcome([], None)
    else
      var prev := RunCalls(w[..|w| - 1], emails, dispatch);
      var c := Call(w[|w| - 1].0, emails, w[|w| - 1].1);
      if prev.error.Some? then prev
      else if dispatch(c) then Outcome(prev.calls + [c], None)
      else Outcome(prev.calls, Some(CommandError(c.project)))
  }

  /** Skipping unselected entries inside the loop is the same as handing off
      the wanted entries. */
  lemma {:induction false} DispatchIsRunCalls(m: seq<(string, seq<string>)>, selected: seq<string>,
                                              emails: seq<string>, dispatch: Call -> bool)
    ensures Dispatch(m, selected, emails, dispatch) == RunCalls(Wanted(m, selected), emails, dispatch)
    decreases |m|
  {
    if |m| > 0 {
      var init := m[..|m| - 1];
      var e := m[|m| - 1];
      DispatchIsRunCalls(init, selected, emails, dispatch);
      var w0 := Wanted(init, selected);
      if e.0 in selected {
        var w := w0 + [e];
        assert w[..|w| - 1] == w0;
      } else {
        assert Wanted(m, selected) == w0;
      }
    }
  }

  predicate Succeeds(w: seq<(string, seq<string>)>, emails: seq<string>, dispatch: Call -> bool, i: nat)
    requires i < |w|
  {
    dispatch(Call(w[i].0, emails, w[i].1))
  }

  /** Every hand-off succeeds: all entries are handed off, in order, each
      with its own model list and the same recipients. Otherwise the
      first failing entry is named and only the entries before it went
      through. */
  lemma {:induction false} RunCallsSpec(w: seq<(string, seq<string>)>, emails: seq<string>, dispatch: Call -> bool)
    ensures RunCalls(w, emails, dispatch).error.None? <==> forall i :: 0 <= i < |w| ==> Succeeds(w, emails, dispatch, i)
    ensures RunCalls(w, emails, dispatch).error.None? ==> RunCalls(w, emails, dispatch).calls == CallsFor(w, emails)
    ensures RunCalls(w, emails, dispatch).error.Some? ==>
      exists k :: 0 <= k < |w| && !Succeeds(w, emails, dispatch, k)
        && (forall i :: 0 <= i < k ==> Succeeds(w, emails, dispatch, i))
        && RunCalls(w, emails, dispatch) == Outcome(CallsFor(w[..k], emails), Some(CommandError(w[k].0)))
    decreases |w|
  {
    if |w| > 0 {
      var init := w[..|w| - 1];
      RunCallsSpec(init, emails, dispatch);
      assert forall i :: 0 <= i < |init| ==> init[i] == w[i];
      assert forall i :: 0 <= i < |init| ==> (Succeeds(init, emails, dispatch, i) <==> Succeeds(w, emails, dispatch, i));
      var prev := RunCalls(init, emails, dispatch);
      if prev.error.Some? {
        var k :| 0 <= k < |init| && !Succeeds(init, emails, dispatch, k)
          && (forall i :: 0 <= i < k ==> Succeeds(init, emails, dispatch, i))
          && prev == Outcome(CallsFor(init[..k], emails), Some(CommandError(init[k].0)));
        assert init[..k] == w[..k];
      } else if !Succeeds(w, emails, dispatch, |w| - 1) {
        assert init == w[..|w| - 1];
      } else {
        assert CallsFor(w, emails) == CallsFor(init, emails) + [Call(w[|w| - 1].0, emails, w[|w| - 1].1)];
      }
    }
  }

  /** With recipients given, `handle` hands off the selected entries of the
      map in map order and stops at the first failure. */
  lemma HandleSpec(opts: Options, dispatch: Call -> bool)
    requires opts.emails.Some?
    ensures Handle(opts, dispatch)
         == RunCalls(Wanted(ProjectModelsMap, Selected(ProjectModelsMap, opts.projectNames)), opts.emails.value, dispatch)
  {
    DispatchIsRunCalls(ProjectModelsMap, Selected(ProjectModelsMap, opts.projectNames), opts.emails.value, dispatch);
  }

  /** With no project names given every project of the map is wanted. */
  lemma NoNamesSelectsAll(names: Option<seq<string>>)
    requires names.None? || |names.value| == 0
    ensures Wanted(ProjectModelsMap, Selected(ProjectModelsMap, names)) == ProjectModelsMap
  {
    WantedAll(ProjectModelsMap);
  }

  /** Selecting every key keeps every entry. */
  lemma {:induction false} WantedAll(m: seq<(string, seq<string>)>)
    ensures Wanted(m, Keys(m)) == m
  {
    WantedSuperset(m, Keys(m));
  }

  lemma {:induction false} WantedSuperset(m: seq<(string, seq<string>)>, selected: seq<string>)
    requires forall i :: 0 <= i < |m| ==> m[i].0 in selected
    ensures Wanted(m, selected) == m
    decreases |m|
  {
    if |m| > 0 {
      WantedSuperset(m[..|m| - 1], selected);
    }
  }

  /** A selected name that is not a key of the map changes nothing. */
  lemma {:induction false} UnknownNamesIgnored(m: seq<(string, seq<string>)>, selected: seq<string>, extra: string,
                                               emails: seq<string>, dispatch: Call -> bool)
    requires forall i :: 0 <= i < |m| ==> m[i].0 != extra
    ensures Dispatch(m, selected + [extra], emails, dispatch) == Dispatch(m, selected, emails, dispatch)
    decreases |m|
  {
    if |m| > 0 {
      UnknownNamesIgnored(m[..|m| - 1], selected, extra, emails, dispatch);
      assert m[|m| - 1].0 in selected + [extra] <==> m[|m| - 1].0 in selected;
    }
  }
}
