/** Planning an apply run without running it: the plan report, the dry run and the slicing of a
    workflow to one phase (internal/applycli, internal/config/phases.go). */
module Planning {
  import opened Text

  /** A step as planning sees it; when is the condition that guards it. */
  datatype Step = Step(id: string, kind: string, when: string)

  datatype Phase = Phase(name: string, maxParallelism: int, steps: seq<Step>)

  datatype Workflow = Workflow(phases: seq<Phase>, steps: seq<Step>)

  /** install.EvaluateWhenWithContext with the variables of one run: true, false or an error. */
  type Conditions = string -> Option<bool>

  datatype Action = RunStep | SkipCompleted | SkipWhen

  /** PlanStep */
  datatype Entry = Entry(phase: string, step: Step, action: Action)

  /** The step counters of PlanSummary */
  datatype Summary = Summary(total: nat, run: nat, skip: nat, skipCompleted: nat, skipWhen: nat)

  datatype Report = Report(summary: Summary, steps: seq<Entry>) | StateError | WhenError(step: Step)

  datatype Line = PhaseLine(name: string) | CompletedLine | StepLine(id: string, kind: string, run: bool)

  datatype Outcome = Done | NoPhases | PhaseNotFound(name: string) | NoState | WhenFailed(step: Step)

  // ---------------------------------------------------------------------------------------------
  // Reference: what happens to each step, one at a time and in order

  /** A step in its phase. */
  datatype Placed = Placed(phase: string, step: Step)

  function PlacedSteps(p: Phase): (r: seq<Placed>)
    ensures |r| == |p.steps|
  {
    seq(|p.steps|, i requires 0 <= i < |p.steps| => Placed(p.name, p.steps[i]))
  }

  /** All steps of the phases in order. */
  function Flat(phases: seq<Phase>): seq<Placed> {
    if phases == [] then [] else Flat(phases[..|phases| - 1]) + PlacedSteps(phases[|phases| - 1])
  }

  function Names(completed: seq<string>): set<string> {
    set c | c in completed
  }

  /** The condition of a step is only looked at when its phase has not been completed. */
  predicate Fails(x: Placed, done: set<string>, conditions: Conditions) {
    x.phase !in done && conditions(x.step.when) == None
  }

  function EntryFor(x: Placed, done: set<string>, conditions: Conditions): Entry {
    Entry(x.phase, x.step,
          if x.phase in done then SkipCompleted
          else if conditions(x.step.when) == Some(true) then RunStep else SkipWhen)
  }

  function Entries(xs: seq<Placed>, done: set<string>, conditions: Conditions): (r: seq<Entry>)
    ensures |r| == |xs|
  {
    seq(|xs|, i requires 0 <= i < |xs| => EntryFor(xs[i], done, conditions))
  }

  /** How many steps there are before the first whose condition cannot be evaluated. */
  function Evaluable(xs: seq<Placed>, done: set<string>, conditions: Conditions): (n: nat)
    ensures n <= |xs|
    ensures forall i | 0 <= i < n :: !Fails(xs[i], done, conditions)
    ensures n < |xs| ==> Fails(xs[n], done, conditions)
  {
    if xs == [] || Fails(xs[0], done, conditions) then 0 else 1 + Evaluable(xs[1..], done, conditions)
  }

  function Count(es: seq<Entry>, a: Action): (n: nat)
    ensures n <= |es|
  {
    if es == [] then 0 else Count(es[..|es| - 1], a) + if es[|es| - 1].action == a then 1 else 0
  }

  function Tally(es: seq<Entry>): Summary {
    var completed, when := Count(es, SkipCompleted), Count(es, SkipWhen);
    Summary(|es|, Count(es, RunStep), completed + when, completed, when)
  }

  lemma EvaluableAt(xs: seq<Placed>, n: nat, done: set<string>, conditions: Conditions)
    requires n <= |xs| && forall i | 0 <= i < n :: !Fails(xs[i], done, conditions)
    requires n < |xs| ==> Fails(xs[n], done, conditions)
    ensures Evaluable(xs, done, conditions) == n
  {
  }

  lemma {:induction false} FlatJoin(a: seq<Phase>, b: seq<Phase>)
    ensures Flat(a + b) == Flat(a) + Flat(b)
  {
    if b == [] {
      assert a + b == a;
    } else {
      var init, last := b[..|b| - 1], b[|b| - 1];
      var x, y, z := Flat(a), Flat(init), PlacedSteps(last);
      assert (a + b)[..|a + b| - 1] == a + init && (a + b)[|a + b| - 1] == last;
      hide PlacedSteps;
      FlatJoin(a, init);
      assert Flat(a + b) == (x + y) + z && Flat(b) == y + z;
      assert (x + y) + z == x + (y + z);
    }
  }

  /** The steps before step j of phase i are the beginning of the flat list. */
  lemma FlatUpTo(phases: seq<Phase>, i: nat, j: nat)
    requires i < |phases| && j <= |phases[i].steps|
    ensures Flat(phases[..i + 1]) == Flat(phases[..i]) + PlacedSteps(phases[i])
    ensures Flat(phases[..i]) + PlacedSteps(phases[i])[..j] <= Flat(phases)
  {
    assert phases[..i + 1][..i] == phases[..i];
    assert phases == phases[..i + 1] + phases[i + 1..];
    FlatJoin(phases[..i + 1], phases[i + 1..]);
  }

  lemma CountStep(es: seq<Entry>, e: Entry, a: Action)
    ensures Count(es + [e], a) == Count(es, a) + if e.action == a then 1 else 0
  {
    assert (es + [e])[..|es|] == es;
  }

  /** Every entry is either run or skipped, and every skip has one of two reasons. */
  lemma {:induction false} Conservation(es: seq<Entry>)
    ensures Count(es, RunStep) + Count(es, SkipCompleted) + Count(es, SkipWhen) == |es|
    ensures Tally(es).total == Tally(es).run + Tally(es).skip
  {
    if es != [] {
      Conservation(es[..|es| - 1]);
    }
  }

  // ---------------------------------------------------------------------------------------------
  // The plan report

  function PlanReport(phases: seq<Phase>, completed: Option<seq<string>>, conditions: Conditions): Report {
    if completed == None then StateError else
      var done := Names(completed.value);
      var xs := Flat(phases);
      var n := Evaluable(xs, done, conditions);
      if n < |xs| then WhenError(xs[n].step)
      else Report(Tally(Entries(xs, done, conditions)), Entries(xs, done, conditions))
  }

  /** The loops of BuildPlanReportWithContext; completed holds the phases of the loaded state. */
  method BuildPlanReport(phases: seq<Phase>, completed: Option<seq<string>>, conditions: Conditions)
    returns (r: Report)
    ensures r == PlanReport(phases, completed, conditions)
    ensures r.Report? ==> r.summary.total == r.summary.run + r.summary.skip == |Flat(phases)|
  {
    hide Evaluable, Flat, Count;
    if completed == None {
      return StateError;
    }
    var done := Names(completed.value);
    var steps: seq<Entry> := [];
    var summary := Summary(0, 0, 0, 0, 0);
    ghost var seen: seq<Placed> := [];
    EmptyTally();
    for i := 0 to |phases|
      invariant seen == Flat(phases[..i])
      invariant steps == Entries(seen, done, conditions) && summary == Tally(steps)
      invariant forall k | 0 <= k < |seen| :: !Fails(seen[k], done, conditions)
    {
      var phase := phases[i];
      ghost var before := seen;
      for j := 0 to |phase.steps|
        invariant seen == before + PlacedSteps(phase)[..j]
        invariant steps == Entries(seen, done, conditions) && summary == Tally(steps)
        invariant forall k | 0 <= k < |seen| :: !Fails(seen[k], done, conditions)
      {
        var step := phase.steps[j];
        FlatUpTo(phases, i, j + 1);
        assert PlacedSteps(phase)[..j + 1] == PlacedSteps(phase)[..j] + [Placed(phase.name, step)];
        var action := SkipCompleted;
        if phase.name !in done {
          var ok := conditions(step.when);
          if ok == None {
            assert Flat(phases)[|seen|] == Placed(phase.name, step);
            assert forall k | 0 <= k < |seen| :: Flat(phases)[k] == seen[k];
            EvaluableAt(Flat(phases), |seen|, done, conditions);
            return WhenError(step);
          }
          action := if ok.value then RunStep else SkipWhen;
        }
        var entry := Entry(phase.name, step, action);
        seen := seen + [Placed(phase.name, step)];
        summary := Counted(summary, steps, entry);
        steps := steps + [entry];
      }
      FlatUpTo(phases, i, |phase.steps|);
    }
    assert phases[..|phases|] == phases;
    EvaluableAt(Flat(phases), |seen|, done, conditions);
    Conservation(steps);
    return Report(summary, steps);
  }

  lemma EmptyTally()
    ensures Tally([]) == Summary(0, 0, 0, 0, 0) && Flat([]) == []
  {
  }

  /** The counters after one more entry. */
  function Counted(summary: Summary, ghost es: seq<Entry>, e: Entry): (r: Summary)
    requires summary == Tally(es)
    ensures r == Tally(es + [e])
  {
    CountStep(es, e, RunStep);
    CountStep(es, e, SkipCompleted);
    CountStep(es, e, SkipWhen);
    match e.action
    case RunStep => summary.(total := summary.total + 1, run := summary.run + 1)
    case SkipCompleted =>
      summary.(total := summary.total + 1, skip := summary.skip + 1, skipCompleted := summary.skipCompleted + 1)
    case SkipWhen =>
      summary.(total := summary.total + 1, skip := summary.skip + 1, skipWhen := summary.skipWhen + 1)
  }

  // ---------------------------------------------------------------------------------------------
  // The dry run

  function StepLines(steps: seq<Step>, conditions: Conditions): (r: seq<Line>)
    ensures |r| == |steps|
  {
    seq(|steps|, i requires 0 <= i < |steps| =>
      StepLine(steps[i].id, steps[i].kind, conditions(steps[i].when) == Some(true)))
  }

  /** What the dry run prints for a phase, and whether it goes on after it. */
  function DryPhase(p: Phase, done: set<string>, conditions: Conditions): (seq<Line>, Outcome) {
    if p.name in done then ([PhaseLine(p.name), CompletedLine], Done) else
      var n := Evaluable(PlacedSteps(p), done, conditions);
      ([PhaseLine(p.name)] + StepLines(p.steps[..n], conditions),
       if n < |p.steps| then WhenFailed(p.steps[n]) else Done)
  }

  function DryPhases(phases: seq<Phase>, done: set<string>, conditions: Conditions): (seq<Line>, Outcome) {
    if phases == [] then ([], Done) else
      var before := DryPhases(phases[..|phases| - 1], done, conditions);
      if before.1 != Done then before else
        var last := DryPhase(phases[|phases| - 1], done, conditions);
        (before.0 + last.0, last.1)
  }

  function DryRun(phases: seq<Phase>, selected: string, completed: Option<seq<string>>, conditions: Conditions)
    : (seq<Line>, Outcome)
  {
    if phases == [] then ([], if selected == "" then NoPhases else PhaseNotFound(selected))
    else if completed == None then ([], NoState)
    else DryPhases(phases, Names(completed.value), conditions)
  }

  lemma {:induction false} DryPhasesStop(phases: seq<Phase>, i: nat, done: set<string>, conditions: Conditions)
    requires i < |phases|
    requires DryPhases(phases[..i], done, conditions).1 == Done
    requires DryPhase(phases[i], done, conditions).1 != Done
    ensures DryPhases(phases, done, conditions) ==
            (DryPhases(phases[..i], done, conditions).0 + DryPhase(phases[i], done, conditions).0,
             DryPhase(phases[i], done, conditions).1)
  {
    hide DryPhase;
    var n := |phases| - 1;
    if i < n {
      assert phases[..n][..i] == phases[..i];
      DryPhasesStop(phases[..n], i, done, conditions);
    }
  }

  /** The loops of writeApplyDryRun; every line it prints is collected. */
  method WriteApplyDryRun(phases: seq<Phase>, selected: string, completed: Option<seq<string>>, conditions: Conditions)
    returns (lines: seq<Line>, outcome: Outcome)
    ensures (lines, outcome) == DryRun(phases, selected, completed, conditions)
  {
    hide Evaluable, DryPhases;
    lines := [];
    if phases == [] {
      return lines, if selected == "" then NoPhases else PhaseNotFound(selected);
    }
    if completed == None {
      return lines, NoState;
    }
    var done := Names(completed.value);
    DryPhasesStart(done, conditions);
    for i := 0 to |phases|
      invariant (lines, Done) == DryPhases(phases[..i], done, conditions)
    {
      var phase := phases[i];
      ghost var before := lines;
      DryPhasesNext(phases, i, done, conditions);
      lines := lines + [PhaseLine(phase.name)];
      if phase.name in done {
        lines := lines + [CompletedLine];
        assert lines == before + DryPhase(phase, done, conditions).0;
        continue;
      }
      for j := 0 to |phase.steps|
        invariant lines == before + ([PhaseLine(phase.name)] + StepLines(phase.steps[..j], conditions))
        invariant forall k | 0 <= k < j :: !Fails(PlacedSteps(phase)[k], done, conditions)
      {
        var step := phase.steps[j];
        var ok := conditions(step.when);
        if ok == None {
          EvaluableAt(PlacedSteps(phase), j, done, conditions);
          DryPhasesStop(phases, i, done, conditions);
          return lines, WhenFailed(step);
        }
        lines := lines + [StepLine(step.id, step.kind, ok.value)];
      }
      EvaluableAt(PlacedSteps(phase), |phase.steps|, done, conditions);
    }
    assert phases[..|phases|] == phases;
    outcome := Done;
  }

  lemma DryPhasesStart(done: set<string>, conditions: Conditions)
    ensures DryPhases([], done, conditions) == ([], Done)
  {
  }

  lemma DryPhasesNext(phases: seq<Phase>, i: nat, done: set<string>, conditions: Conditions)
    requires i < |phases| && DryPhases(phases[..i], done, conditions).1 == Done
    ensures var last := DryPhase(phases[i], done, conditions);
            DryPhases(phases[..i + 1], done, conditions)
            == (DryPhases(phases[..i], done, conditions).0 + last.0, last.1)
  {
    assert phases[..i + 1][..i] == phases[..i];
  }

  // ---------------------------------------------------------------------------------------------
  // The two agree

  /** The step lines a reader of the dry run sees. */
  function ShownByDryRun(lines: seq<Line>): seq<Line> {
    if lines == [] then [] else
      var rest := ShownByDryRun(lines[..|lines| - 1]);
      if lines[|lines| - 1].StepLine? then rest + [lines[|lines| - 1]] else rest
  }

  /** The step lines the entries of a plan call for: one per step of a phase that is not completed. */
  function ShownByPlan(es: seq<Entry>): seq<Line> {
    if es == [] then [] else
      var rest, e := ShownByPlan(es[..|es| - 1]), es[|es| - 1];
      if e.action == SkipCompleted then rest else rest + [StepLine(e.step.id, e.step.kind, e.action == RunStep)]
  }

  lemma {:induction false} ShownByDryRunJoin(a: seq<Line>, b: seq<Line>)
    ensures ShownByDryRun(a + b) == ShownByDryRun(a) + ShownByDryRun(b)
  {
    if b == [] {
      assert a + b == a;
    } else {
      ShownByDryRunJoin(a, b[..|b| - 1]);
      assert (a + b)[..|a + b| - 1] == a + b[..|b| - 1];
    }
  }

  lemma {:induction false} ShownByPlanJoin(a: seq<Entry>, b: seq<Entry>)
    ensures ShownByPlan(a + b) == ShownByPlan(a) + ShownByPlan(b)
  {
    if b == [] {
      assert a + b == a;
    } else {
      ShownByPlanJoin(a, b[..|b| - 1]);
      assert (a + b)[..|a + b| - 1] == a + b[..|b| - 1];
    }
  }

  lemma {:induction false} AllStepLines(lines: seq<Line>)
    requires forall l | l in lines :: l.StepLine?
    ensures ShownByDryRun(lines) == lines
  {
    if lines != [] {
      AllStepLines(lines[..|lines| - 1]);
      assert lines == lines[..|lines| - 1] + [lines[|lines| - 1]];
    }
  }

  /** Entries of evaluable steps in an uncompleted phase show as the lines of those steps. */
  lemma {:induction false} ShownOfOpenPhase(p: Phase, n: nat, done: set<string>, conditions: Conditions)
    requires n <= |p.steps| && p.name !in done
    ensures ShownByPlan(Entries(PlacedSteps(p)[..n], done, conditions)) == StepLines(p.steps[..n], conditions)
  {
    if n > 0 {
      ShownOfOpenPhase(p, n - 1, done, conditions);
      var es := Entries(PlacedSteps(p)[..n], done, conditions);
      assert es[..|es| - 1] == Entries(PlacedSteps(p)[..n - 1], done, conditions);
      assert StepLines(p.steps[..n], conditions)
          == StepLines(p.steps[..n - 1], conditions) + [StepLines(p.steps[..n], conditions)[n - 1]];
    }
  }

  lemma {:induction false} ShownOfClosedPhase(es: seq<Entry>)
    requires forall e | e in es :: e.action == SkipCompleted
    ensures ShownByPlan(es) == []
  {
    if es != [] {
      ShownOfClosedPhase(es[..|es| - 1]);
    }
  }

  /** One phase: it fails on its first step that cannot be evaluated, after showing the steps before it. */
  lemma DryPhaseAgrees(p: Phase, done: set<string>, conditions: Conditions)
    ensures var xs := PlacedSteps(p);
            var n := Evaluable(xs, done, conditions);
            var dry := DryPhase(p, done, conditions);
            && ShownByDryRun(dry.0) == ShownByPlan(Entries(xs[..n], done, conditions))
            && dry.1 == if n < |xs| then WhenFailed(xs[n].step) else Done
  {
    hide Evaluable, ShownByDryRun, ShownByPlan;
    var xs := PlacedSteps(p);
    var n := Evaluable(xs, done, conditions);
    if p.name in done {
      EvaluableAt(xs, |xs|, done, conditions);
      ShownOfClosedPhase(Entries(xs[..n], done, conditions));
      NoStepLines(p.name);
    } else {
      ShownOfOpenPhase(p, n, done, conditions);
      var lines := StepLines(p.steps[..n], conditions);
      AllStepLines(lines);
      ShownByDryRunJoin([PhaseLine(p.name)], lines);
      NoStepLines(p.name);
    }
  }

  lemma NoStepLines(name: string)
    ensures ShownByDryRun([PhaseLine(name)]) == []
    ensures ShownByDryRun([PhaseLine(name), CompletedLine]) == []
  {
    var both := [PhaseLine(name), CompletedLine];
    assert both[..1] == [PhaseLine(name)];
  }

  /** The number of evaluable steps of two lists, one after the other. */
  lemma {:induction false} EvaluableJoin(a: seq<Placed>, b: seq<Placed>, done: set<string>, conditions: Conditions)
    ensures var n := Evaluable(a, done, conditions);
            Evaluable(a + b, done, conditions)
            == if n < |a| then n else |a| + Evaluable(b, done, conditions)
  {
    var n, m := Evaluable(a, done, conditions), Evaluable(b, done, conditions);
    var k := if n < |a| then n else |a| + m;
    forall i | 0 <= i < k ensures !Fails((a + b)[i], done, conditions) {
      assert i >= |a| ==> (a + b)[i] == b[i - |a|];
    }
    EvaluableAt(a + b, k, done, conditions);
  }

  /** All phases: the dry run stops on the step on which the report fails, having shown exactly the
      steps planned before it. */
  lemma {:induction false} DryPhasesAgree(phases: seq<Phase>, done: set<string>, conditions: Conditions)
    ensures var xs := Flat(phases);
            var n := Evaluable(xs, done, conditions);
            var dry := DryPhases(phases, done, conditions);
            && ShownByDryRun(dry.0) == ShownByPlan(Entries(xs[..n], done, conditions))
            && dry.1 == if n < |xs| then WhenFailed(xs[n].step) else Done
  {
    hide Evaluable, ShownByDryRun, ShownByPlan, DryPhase;
    if phases == [] {
      NothingShown();
    } else {
      var init, last := phases[..|phases| - 1], phases[|phases| - 1];
      var a, b := Flat(init), PlacedSteps(last);
      var n, m := Evaluable(a, done, conditions), Evaluable(b, done, conditions);
      DryPhasesAgree(init, done, conditions);
      DryPhaseAgrees(last, done, conditions);
      EvaluableJoin(a, b, done, conditions);
      if n < |a| {
        assert (a + b)[..n] == a[..n];
      } else {
        assert (a + b)[..|a| + m] == a[..n] + b[..m];
        var ea, eb := Entries(a[..n], done, conditions), Entries(b[..m], done, conditions);
        assert Entries(a[..n] + b[..m], done, conditions) == ea + eb;
        ShownByPlanJoin(ea, eb);
        ShownByDryRunJoin(DryPhases(init, done, conditions).0, DryPhase(last, done, conditions).0);
      }
    }
  }

  lemma NothingShown()
    ensures ShownByDryRun([]) == ShownByPlan([]) == []
  {
  }

  /** The dry run and the report agree on every workflow that has phases: one succeeds exactly when the
      other does, they fail on the same step, and then the dry run announces each step that the report
      does not count as completed, in order, as planned exactly when the report runs it. Without phases
      the report is empty and the dry run fails. */
  lemma DryRunAgreesWithReport(
    phases: seq<Phase>, selected: string, completed: Option<seq<string>>, conditions: Conditions)
    ensures var report := PlanReport(phases, completed, conditions);
            var dry := DryRun(phases, selected, completed, conditions);
            && (dry.1 == Done <==> phases != [] && report.Report?)
            && (report.WhenError? <==> dry.1.WhenFailed?)
            && (report.WhenError? ==> dry.1.step == report.step)
            && (report.Report? ==> ShownByDryRun(dry.0) == ShownByPlan(report.steps))
  {
    hide Evaluable, ShownByDryRun, ShownByPlan, DryPhases;
    NothingShown();
    if phases != [] && completed != None {
      var done := Names(completed.value);
      DryPhasesAgree(phases, done, conditions);
      var xs := Flat(phases);
      assert xs[..|xs|] == xs;
    }
    assert phases == [] ==> Evaluable([], {}, conditions) == 0;
  }

  // ---------------------------------------------------------------------------------------------
  // Slicing

  const IMPLICIT_PHASE := "default"

  /** config.NormalizedPhases: a workflow of bare steps has one implicit phase. */
  function NormalizedPhases(wf: Workflow): seq<Phase> {
    if wf.phases != [] then wf.phases
    else if wf.steps == [] then []
    else [Phase(IMPLICIT_PHASE, 0, wf.steps)]
  }

  /** findWorkflowPhaseByName */
  function FindPhase(phases: seq<Phase>, name: string): (i: int)
    ensures i == -1 ==> forall p | p in phases :: p.name != name
    ensures i != -1 ==> 0 <= i < |phases| && phases[i].name == name && forall k | 0 <= k < i :: phases[k].name != name
  {
    if phases == [] then -1
    else if phases[0].name == name then 0
    else
      var i := FindPhase(phases[1..], name);
      if i == -1 then -1 else i + 1
  }

  /** BuildExecutionWorkflow: all phases, the selected one alone, or an error. */
  function BuildExecutionWorkflow(wf: Workflow, name: string): Option<seq<Phase>> {
    var phases := NormalizedPhases(wf);
    if TrimSpace(name) == "" then Some(phases) else
      var i := FindPhase(phases, name);
      if i == -1 then None else Some([phases[i]])
  }

  /** The entries of a plan that belong to a phase of the given name. */
  function OfPhase(es: seq<Entry>, name: string): seq<Entry> {
    if es == [] then [] else
      var rest := OfPhase(es[..|es| - 1], name);
      if es[|es| - 1].phase == name then rest + [es[|es| - 1]] else rest
  }

  lemma {:induction false} OfPhaseJoin(a: seq<Entry>, b: seq<Entry>, name: string)
    ensures OfPhase(a + b, name) == OfPhase(a, name) + OfPhase(b, name)
  {
    if b == [] {
      assert a + b == a;
    } else {
      OfPhaseJoin(a, b[..|b| - 1], name);
      assert (a + b)[..|a + b| - 1] == a + b[..|b| - 1];
    }
  }

  lemma {:induction false} OfPhaseUniform(es: seq<Entry>, phase: string, name: string)
    requires forall e | e in es :: e.phase == phase
    ensures OfPhase(es, name) == if phase == name then es else []
  {
    if es != [] {
      OfPhaseUniform(es[..|es| - 1], phase, name);
      assert es == es[..|es| - 1] + [es[|es| - 1]];
    }
  }

  /** No step of these phases is in a phase of that name. */
  predicate NoStepsNamed(phases: seq<Phase>, name: string) {
    forall p | p in phases :: p.name == name ==> p.steps == []
  }

  /** The entries of one more phase. */
  lemma OfPhaseNext(phases: seq<Phase>, p: Phase, name: string, done: set<string>, conditions: Conditions)
    ensures OfPhase(Entries(Flat(phases + [p]), done, conditions), name)
         == OfPhase(Entries(Flat(phases), done, conditions), name)
            + if p.name == name then Entries(PlacedSteps(p), done, conditions) else []
  {
    hide OfPhase;
    assert (phases + [p])[..|phases|] == phases;
    var a, b := Entries(Flat(phases), done, conditions), Entries(PlacedSteps(p), done, conditions);
    assert Entries(Flat(phases + [p]), done, conditions) == a + b;
    OfPhaseJoin(a, b, name);
    OfPhaseUniform(b, p.name, name);
  }

  lemma {:induction false} NothingOfPhase(phases: seq<Phase>, name: string, done: set<string>, conditions: Conditions)
    ensures OfPhase(Entries(Flat(phases), done, conditions), name) == [] <==> NoStepsNamed(phases, name)
  {
    if phases != [] {
      var init, last := phases[..|phases| - 1], phases[|phases| - 1];
      assert phases == init + [last];
      NothingOfPhase(init, name, done, conditions);
      OfPhaseNext(init, last, name, done, conditions);
      assert NoStepsNamed(phases, name) <==> NoStepsNamed(init, name) && NoStepsNamed([last], name);
    }
  }

  /** Planning the selected phase is filtering the plan of the whole workflow exactly when the phases
      that repeat its name have no steps. A plan of the whole that succeeds makes the slice succeed. */
  lemma SliceIsFilter(wf: Workflow, name: string, completed: Option<seq<string>>, conditions: Conditions)
    requires TrimSpace(name) != ""
    requires BuildExecutionWorkflow(wf, name).Some?
    requires PlanReport(NormalizedPhases(wf), completed, conditions).Report?
    ensures var phases := NormalizedPhases(wf);
            var whole := PlanReport(phases, completed, conditions);
            var slice := PlanReport(BuildExecutionWorkflow(wf, name).value, completed, conditions);
            && slice.Report?
            && (slice.steps == OfPhase(whole.steps, name)
                <==> NoStepsNamed(phases[FindPhase(phases, name) + 1..], name))
  {
    hide Evaluable, Flat, OfPhase, FindPhase;
    var phases := NormalizedPhases(wf);
    var done := Names(completed.value);
    var i := FindPhase(phases, name);
    SliceOfPhases(phases, i, name, done, conditions);
  }

  lemma SliceOfPhases(phases: seq<Phase>, i: nat, name: string, done: set<string>, conditions: Conditions)
    requires i < |phases| && phases[i].name == name && forall k | 0 <= k < i :: phases[k].name != name
    requires Evaluable(Flat(phases), done, conditions) == |Flat(phases)|
    ensures Flat([phases[i]]) == PlacedSteps(phases[i])
    ensures Evaluable(Flat([phases[i]]), done, conditions) == |phases[i].steps|
    ensures OfPhase(Entries(Flat(phases), done, conditions), name) == Entries(PlacedSteps(phases[i]), done, conditions)
            <==> NoStepsNamed(phases[i + 1..], name)
  {
    hide Evaluable, OfPhase, Flat;
    var p := phases[i];
    var before, from, after := Flat(phases[..i]), PlacedSteps(p), Flat(phases[i + 1..]);
    FlatOne(p);
    FlatUpTo(phases, i, |p.steps|);
    FlatJoin(phases[..i + 1], phases[i + 1..]);
    assert phases == phases[..i + 1] + phases[i + 1..];
    assert Flat(phases) == before + from + after;
    EvaluableJoin(before + from, after, done, conditions);
    EvaluableJoin(before, from, done, conditions);
    var kept := OfPhase(Entries(before + from, done, conditions), name);
    assert phases[..i + 1] == phases[..i] + [p];
    OfPhaseNext(phases[..i], p, name, done, conditions);
    NothingOfPhase(phases[..i], name, done, conditions);
    assert NoStepsNamed(phases[..i], name);
    assert kept == Entries(from, done, conditions);
    var rest := Entries(after, done, conditions);
    NothingOfPhase(phases[i + 1..], name, done, conditions);
    assert Entries(Flat(phases), done, conditions) == Entries(before + from, done, conditions) + rest;
    OfPhaseJoin(Entries(before + from, done, conditions), rest, name);
  }

  lemma FlatOne(p: Phase)
    ensures Flat([p]) == PlacedSteps(p)
  {
    assert [p][..0] == [];
  }
}
