/** What a plan report says of each step of a workflow, told by the step's place in the workflow. */
module PlanFacts {
  import opened Text
  import opened Planning

  /** How many steps the first phases have. */
  function StepsBefore(phases: seq<Phase>, i: nat): nat
    requires i <= |phases|
  {
    if i == 0 then 0 else StepsBefore(phases, i - 1) + |phases[i - 1].steps|
  }

  /** Step j of phase i is at this position in the list of all steps. */
  ghost predicate IsStepAt(phases: seq<Phase>, i: nat, j: nat, k: nat) {
    i < |phases| && j < |phases[i].steps| && k == StepsBefore(phases, i) + j
  }

  lemma {:induction false} FlatPrefix(phases: seq<Phase>, i: nat)
    requires i <= |phases|
    ensures |Flat(phases[..i])| == StepsBefore(phases, i)
  {
    if i > 0 {
      FlatPrefix(phases, i - 1);
      assert phases[..i][..i - 1] == phases[..i - 1];
    }
  }

  /** The list of all steps has each step of each phase at its place. */
  lemma FlatAt(phases: seq<Phase>, i: nat, j: nat)
    requires i < |phases| && j < |phases[i].steps|
    ensures StepsBefore(phases, i) + j < |Flat(phases)|
    ensures Flat(phases)[StepsBefore(phases, i) + j] == Placed(phases[i].name, phases[i].steps[j])
  {
    hide Flat;
    FlatPrefix(phases, i);
    FlatUpTo(phases, i, |phases[i].steps|);
    assert PlacedSteps(phases[i])[..|phases[i].steps|] == PlacedSteps(phases[i]);
    var front := Flat(phases[..i]) + PlacedSteps(phases[i]);
    assert front[|Flat(phases[..i])| + j] == PlacedSteps(phases[i])[j];
  }

  /** And nothing else. */
  lemma {:induction false} EveryPlaceIsAStep(phases: seq<Phase>, n: nat, k: nat) returns (i: nat, j: nat)
    requires n <= |phases| && k < StepsBefore(phases, n)
    ensures i < n && IsStepAt(phases, i, j, k)
  {
    if k >= StepsBefore(phases, n - 1) {
      i, j := n - 1, k - StepsBefore(phases, n - 1);
    } else {
      i, j := EveryPlaceIsAStep(phases, n - 1, k);
    }
  }

  lemma FlatLength(phases: seq<Phase>)
    ensures |Flat(phases)| == StepsBefore(phases, |phases|)
  {
    FlatPrefix(phases, |phases|);
    assert phases[..|phases|] == phases;
  }

  // ---------------------------------------------------------------------------------------------
  // The report

  /** What the plan does with a step: its phase was completed, or its condition decides. */
  ghost predicate IsEntry(e: Entry, p: Phase, step: Step, completed: seq<string>, conditions: Conditions) {
    && e.phase == p.name && e.step == step
    && (e.action == SkipCompleted <==> p.name in completed)
    && (e.action == RunStep <==> p.name !in completed && conditions(step.when) == Some(true))
    && (e.action == SkipWhen <==> p.name !in completed && conditions(step.when) == Some(false))
  }

  /** The condition of step j of phase i is looked at, and cannot be evaluated. */
  ghost predicate Broken(phases: seq<Phase>, i: nat, j: nat, completed: seq<string>, conditions: Conditions) {
    i < |phases| && j < |phases[i].steps| && phases[i].name !in completed
    && conditions(phases[i].steps[j].when) == None
  }

  /** The entries have one for step j of phase i, at its place. */
  ghost predicate HasEntry(
    es: seq<Entry>, phases: seq<Phase>, i: nat, j: nat, completed: seq<string>, conditions: Conditions)
    requires i < |phases| && j < |phases[i].steps|
  {
    var k := StepsBefore(phases, i) + j;
    k < |es| && IsEntry(es[k], phases[i], phases[i].steps[j], completed, conditions)
  }

  lemma EntryAt(phases: seq<Phase>, completed: seq<string>, conditions: Conditions, i: nat, j: nat)
    requires i < |phases| && j < |phases[i].steps|
    requires PlanReport(phases, Some(completed), conditions).Report?
    ensures HasEntry(PlanReport(phases, Some(completed), conditions).steps, phases, i, j, completed, conditions)
    ensures !Broken(phases, i, j, completed, conditions)
  {
    hide Flat, StepsBefore, Tally, Evaluable;
    FlatAt(phases, i, j);
    var xs, k := Flat(phases), StepsBefore(phases, i) + j;
    assert Evaluable(xs, Names(completed), conditions) == |xs|;
    assert !Fails(xs[k], Names(completed), conditions);
    var es := Entries(xs, Names(completed), conditions);
    EntryForIs(phases[i], phases[i].steps[j], completed, conditions);
    assert es[k] == EntryFor(xs[k], Names(completed), conditions);
    assert PlanReport(phases, Some(completed), conditions).steps == es;
  }

  lemma EntryForIs(p: Phase, step: Step, completed: seq<string>, conditions: Conditions)
    requires !Fails(Placed(p.name, step), Names(completed), conditions)
    ensures IsEntry(EntryFor(Placed(p.name, step), Names(completed), conditions), p, step, completed, conditions)
  {
    assert p.name in Names(completed) <==> p.name in completed;
    if conditions(step.when).Some? {
      var b := conditions(step.when).value;
      assert conditions(step.when) == Some(b);
      if b {
        assert conditions(step.when) == Some(true);
      } else {
        assert conditions(step.when) == Some(false);
      }
    }
  }

  /** A report has one entry for every step of every phase, at its place, which says what happens to that step;
      and there is a report exactly when the state could be read and no condition is broken. */
  lemma ReportSays(phases: seq<Phase>, completed: seq<string>, conditions: Conditions)
    ensures var r := PlanReport(phases, Some(completed), conditions);
            (r.Report? <==> forall i: nat, j: nat :: !Broken(phases, i, j, completed, conditions)) &&
            (r.Report? ==>
              |r.steps| == StepsBefore(phases, |phases|) &&
              forall i, j | 0 <= i < |phases| && 0 <= j < |phases[i].steps| ::
                HasEntry(r.steps, phases, i, j, completed, conditions))
  {
    hide PlanReport, StepsBefore, HasEntry;
    var r := PlanReport(phases, Some(completed), conditions);
    if r.Report? {
      forall i: nat, j: nat ensures !Broken(phases, i, j, completed, conditions) {
        if i < |phases| && j < |phases[i].steps| { EntryAt(phases, completed, conditions, i, j); }
      }
      forall i, j | 0 <= i < |phases| && 0 <= j < |phases[i].steps|
        ensures HasEntry(r.steps, phases, i, j, completed, conditions)
      {
        EntryAt(phases, completed, conditions, i, j);
      }
      ReportLength(phases, completed, conditions);
    } else {
      var i, j := ErrorNamesFirst(phases, completed, conditions);
    }
  }

  lemma ReportLength(phases: seq<Phase>, completed: seq<string>, conditions: Conditions)
    requires PlanReport(phases, Some(completed), conditions).Report?
    ensures |PlanReport(phases, Some(completed), conditions).steps| == StepsBefore(phases, |phases|)
  {
    hide Flat, StepsBefore, Tally, Evaluable;
    FlatLength(phases);
  }

  /** Otherwise it names the first step, in order, whose condition is broken. */
  lemma ErrorNamesFirst(phases: seq<Phase>, completed: seq<string>, conditions: Conditions) returns (i: nat, j: nat)
    requires !PlanReport(phases, Some(completed), conditions).Report?
    ensures Broken(phases, i, j, completed, conditions)
    ensures PlanReport(phases, Some(completed), conditions) == WhenError(phases[i].steps[j])
    ensures forall a, b | Broken(phases, a, b, completed, conditions) ::
              StepsBefore(phases, i) + j <= StepsBefore(phases, a) + b
  {
    hide Flat, StepsBefore, Evaluable;
    var done, xs := Names(completed), Flat(phases);
    var n := Evaluable(xs, done, conditions);
    FlatLength(phases);
    i, j := EveryPlaceIsAStep(phases, |phases|, n);
    FlatAt(phases, i, j);
    forall a: nat, b: nat | Broken(phases, a, b, completed, conditions) ensures n <= StepsBefore(phases, a) + b {
      FlatAt(phases, a, b);
      assert Fails(xs[StepsBefore(phases, a) + b], done, conditions);
    }
  }

  /** Where in the plan something is done. */
  ghost function Positions(es: seq<Entry>, a: Action): set<nat> {
    set k: nat | k < |es| && es[k].action == a
  }

  lemma {:induction false} CountIsCardinality(es: seq<Entry>, a: Action)
    ensures Count(es, a) == |Positions(es, a)|
  {
    if es == [] {
      assert Positions(es, a) == {};
    } else {
      var n := |es| - 1;
      CountIsCardinality(es[..n], a);
      PositionsStep(es, a);
    }
  }

  lemma PositionsStep(es: seq<Entry>, a: Action)
    requires es != []
    ensures Positions(es, a) == Positions(es[..|es| - 1], a) + if es[|es| - 1].action == a then {|es| - 1} else {}
    ensures |es| - 1 !in Positions(es[..|es| - 1], a)
  {
  }

  /** Each counter is the number of the entries it is named after. */
  lemma SummaryCounts(phases: seq<Phase>, completed: seq<string>, conditions: Conditions)
    requires PlanReport(phases, Some(completed), conditions).Report?
    ensures var r := PlanReport(phases, Some(completed), conditions);
            r.summary.total == |r.steps| &&
            r.summary.run == |Positions(r.steps, RunStep)| &&
            r.summary.skipCompleted == |Positions(r.steps, SkipCompleted)| &&
            r.summary.skipWhen == |Positions(r.steps, SkipWhen)| &&
            r.summary.skip == r.summary.skipCompleted + r.summary.skipWhen
  {
    hide Flat, Evaluable, Count, Positions;
    var es := PlanReport(phases, Some(completed), conditions).steps;
    CountIsCardinality(es, RunStep);
    CountIsCardinality(es, SkipCompleted);
    CountIsCardinality(es, SkipWhen);
  }

  // ---------------------------------------------------------------------------------------------
  // Which phases are planned

  /** Without a phase name the plan is of every step of every phase, in order; a workflow of bare steps is one
      phase of them, named "default". */
  lemma WholeWorkflow(wf: Workflow, name: string)
    requires TrimSpace(name) == ""
    ensures BuildExecutionWorkflow(wf, name)
         == Some(if wf.phases != [] then wf.phases
                 else if wf.steps != [] then [Phase("default", 0, wf.steps)] else [])
  {
  }

  /** With a name it is the first phase of that name alone, and an error exactly when there is none. */
  lemma NamedPhase(wf: Workflow, name: string)
    requires TrimSpace(name) != ""
    ensures var all := BuildExecutionWorkflow(wf, "").value;
            match BuildExecutionWorkflow(wf, name)
            case None => forall p | p in all :: p.name != name
            case Some(phases) => exists i :: 0 <= i < |all| && phases == [all[i]] && all[i].name == name
                                             && forall k | 0 <= k < i :: all[k].name != name
  {
    BlankName();
    hide TrimSpace, FindPhase;
    var all, i := NormalizedPhases(wf), FindPhase(NormalizedPhases(wf), name);
    if i != -1 { assert all[i].name == name; }
  }

  lemma BlankName()
    ensures TrimSpace("") == ""
  {
  }

  /** Every step of the workflow has its entry in the plan without a phase name. */
  lemma EveryStepIsPlanned(wf: Workflow, completed: seq<string>, conditions: Conditions)
    ensures var phases := if wf.phases != [] then wf.phases
                          else if wf.steps != [] then [Phase("default", 0, wf.steps)] else [];
            var r := PlanReport(BuildExecutionWorkflow(wf, "").value, Some(completed), conditions);
            r.Report? ==>
              |r.steps| == StepsBefore(phases, |phases|) &&
              forall i, j | 0 <= i < |phases| && 0 <= j < |phases[i].steps| ::
                HasEntry(r.steps, phases, i, j, completed, conditions)
  {
    hide PlanReport, BuildExecutionWorkflow, StepsBefore, HasEntry;
    BlankName();
    WholeWorkflow(wf, "");
    ReportSays(BuildExecutionWorkflow(wf, "").value, completed, conditions);
  }

  // ---------------------------------------------------------------------------------------------
  // The dry run

  /** A phase that is open and has no broken condition is shown by its name and one line for each step, which says
      whether the step would run; a completed one by its name and a note. */
  lemma DryPhaseShows(p: Phase, completed: seq<string>, conditions: Conditions)
    requires p.name in completed || forall j | 0 <= j < |p.steps| :: conditions(p.steps[j].when).Some?
    ensures var (lines, end) := DryPhase(p, Names(completed), conditions);
            end == Done && lines[0] == PhaseLine(p.name) &&
            if p.name in completed then lines[1..] == [CompletedLine]
            else |lines| == |p.steps| + 1 &&
                 forall j | 0 <= j < |p.steps| ::
                   lines[j + 1] == StepLine(p.steps[j].id, p.steps[j].kind, conditions(p.steps[j].when) == Some(true))
  {
    hide Evaluable;
    var xs := PlacedSteps(p);
    if p.name !in completed {
      EvaluableAt(xs, |xs|, Names(completed), conditions);
      assert p.steps[..|p.steps|] == p.steps;
    }
  }

  /** Without a phase to show, or a state to read, it shows nothing: the error names the phase that was asked for. */
  lemma DryRunShowsNothing(phases: seq<Phase>, selected: string, completed: Option<seq<string>>, conditions: Conditions)
    requires phases == [] || completed == None
    ensures var (lines, end) := DryRun(phases, selected, completed, conditions);
            lines == [] && (end == NoState <==> phases != []) &&
            (end == NoPhases <==> phases == [] && selected == "") &&
            (end == PhaseNotFound(selected) <==> phases == [] && selected != "")
  {
  }
}
