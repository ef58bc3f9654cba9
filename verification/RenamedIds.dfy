/** The ids a workflow has after the duplicate-id repair, step by step. */
module RenamedIds {
  import opened Text
  import opened WorkflowDoc
  import opened StepIds

  /** How many steps the first phases have. */
  function StepsBefore(phases: seq<Phase>, i: nat): nat
    requires i <= |phases|
  {
    if i == 0 then 0 else StepsBefore(phases, i - 1) + |phases[i - 1].steps|
  }

  /** Step j of phase i comes after all top-level steps and all steps of earlier phases, with its phase's prefix. */
  ghost predicate HasPhaseStep(items: seq<Item>, w: Workflow, i: nat, j: nat)
    requires i < |w.phases| && j < |w.phases[i].steps|
  {
    var k := |w.steps| + StepsBefore(w.phases, i) + j;
    k < |items| && items[k] == Item(w.phases[i].steps[j].id, SanitizeName(w.phases[i].name))
  }

  lemma {:induction false} PhaseItemsAre(phases: seq<Phase>, n: nat)
    requires n <= |phases|
    ensures |PhaseItems(phases[..n])| == StepsBefore(phases, n)
    ensures forall i, j | 0 <= i < n && 0 <= j < |phases[i].steps| :: IsPhaseStep(PhaseItems(phases[..n]), phases, i, j)
  {
    hide SanitizeName;
    if n > 0 {
      PhaseItemsAre(phases, n - 1);
      assert phases[..n][..n - 1] == phases[..n - 1];
      var before, all := PhaseItems(phases[..n - 1]), PhaseItems(phases[..n]);
      var last := StepItems(phases[n - 1].steps, SanitizeName(phases[n - 1].name));
      assert all == before + last;
      forall i, j | 0 <= i < n && 0 <= j < |phases[i].steps| ensures IsPhaseStep(all, phases, i, j) {
        if i < n - 1 {
          assert IsPhaseStep(before, phases, i, j);
        } else {
          assert all[|before| + j] == last[j];
        }
      }
    }
  }

  ghost predicate IsPhaseStep(items: seq<Item>, phases: seq<Phase>, i: nat, j: nat)
    requires i < |phases| && j < |phases[i].steps|
  {
    var k := StepsBefore(phases, i) + j;
    k < |items| && items[k] == Item(phases[i].steps[j].id, SanitizeName(phases[i].name))
  }

  /** The steps are taken top-level first, with the prefix "step", and then phase by phase. */
  lemma StepsInOrder(w: Workflow)
    ensures |Items(w)| == |w.steps| + StepsBefore(w.phases, |w.phases|)
    ensures forall j | 0 <= j < |w.steps| :: Items(w)[j] == Item(w.steps[j].id, "step")
    ensures forall i, j | 0 <= i < |w.phases| && 0 <= j < |w.phases[i].steps| :: HasPhaseStep(Items(w), w, i, j)
  {
    hide SanitizeName, PhaseItems;
    PhaseItemsAre(w.phases, |w.phases|);
    assert w.phases[..|w.phases|] == w.phases;
    var inner := PhaseItems(w.phases);
    forall i, j | 0 <= i < |w.phases| && 0 <= j < |w.phases[i].steps| ensures HasPhaseStep(Items(w), w, i, j) {
      assert IsPhaseStep(inner, w.phases, i, j);
      assert Items(w)[|w.steps| + StepsBefore(w.phases, i) + j] == inner[StepsBefore(w.phases, i) + j];
    }
  }

  /** Some step before k came with the id, or has got it. */
  ghost predicate Taken(before: seq<Item>, after: seq<Item>, k: nat, id: string)
    requires k <= |before| && k <= |after|
  {
    exists j :: 0 <= j < k && (TrimSpace(before[j].id) == id || after[j].id == id)
  }

  lemma OneCounts(current: string, prefix: string, seen: Seen, id: string)
    ensures var u := UniqueStepIdSpec(current, prefix, seen);
            Count(u.seen, id) != 0 <==>
              Count(seen, id) != 0 || (TrimSpace(current) != "" && id in {TrimSpace(current), u.id})
  {
    hide SanitizeName, TrimSpace, Numbered;
  }

  /** A run up to k, and the step it takes there. */
  lemma {:induction false} RunAt(items: seq<Item>, k: nat)
    requires k < |items|
    ensures var run, before := RenameIds(items, map[]), RenameIds(items[..k], map[]);
            run.ids[..k] == before.ids && run.ids[k] == UniqueStepIdSpec(items[k].id, items[k].prefix, before.seen).id
  {
    hide UniqueStepIdSpec;
    var n := |items| - 1;
    if k < n {
      RunAt(items[..n], k);
      assert items[..n][..k] == items[..k];
    }
  }

  /** The counters know the ids the steps came with and those they got. */
  lemma {:induction false} CountsAre(items: seq<Item>, id: string)
    requires id != ""
    ensures var run := RenameIds(items, map[]);
            Count(run.seen, id) != 0 <==>
              exists j :: 0 <= j < |items| && (TrimSpace(items[j].id) == id || run.ids[j] == id)
  {
    hide UniqueStepIdSpec, TrimSpace;
    if items != [] {
      var n := |items| - 1;
      var init := items[..n];
      var before, run := RenameIds(init, map[]), RenameIds(items, map[]);
      CountsAre(init, id);
      OneCounts(items[n].id, items[n].prefix, before.seen, id);
      UniqueFacts(items[n].id, items[n].prefix, before.seen);
      assert forall j | 0 <= j < n :: init[j] == items[j] && before.ids[j] == run.ids[j];
      assert run.ids[n] == UniqueStepIdSpec(items[n].id, items[n].prefix, before.seen).id;
    }
  }

  lemma NewIdIs(current: string, prefix: string, seen: Seen, taken: string -> bool)
    requires forall x | x != "" :: taken(x) <==> Count(seen, x) != 0
    ensures var id, new_ := TrimSpace(current), UniqueStepIdSpec(current, prefix, seen).id;
            var base := SanitizeName(prefix) + "-" + id;
            if id == "" || !taken(id) then new_ == id
            else if !taken(base) then new_ == base
            else IsNextFree(base, new_, taken)
  {
    hide SanitizeName, TrimSpace, IsNextFree, FirstFree;
    if TrimSpace(current) != "" && taken(TrimSpace(current)) { RenamedIdIs(current, prefix, seen, taken); }
  }

  /** Every step keeps its trimmed id unless a step before it came with that id or has got it; then the id takes the
      prefix in front, and if that is taken as well the least free number from 2 on behind it. */
  lemma IdsAreFreed(w: Workflow, k: nat)
    requires k < |Items(w)|
    ensures |Items(RenameWorkflow(w).workflow)| == |Items(w)|
    ensures var before, after := Items(w), Items(RenameWorkflow(w).workflow);
            var taken := x => Taken(before, after, k, x);
            var id, base := TrimSpace(before[k].id), SanitizeName(before[k].prefix) + "-" + TrimSpace(before[k].id);
            if id == "" || !taken(id) then after[k].id == id
            else if !taken(base) then after[k].id == base
            else IsNextFree(base, after[k].id, taken)
  {
    hide RenameWorkflow, Items, RenameIds, SanitizeName, TrimSpace, Decimal, UniqueStepIdSpec, IsNextFree;
    WorkflowAsRun(w);
    var before, after := Items(w), Items(RenameWorkflow(w).workflow);
    var run, seen := RenameIds(before, map[]), RenameIds(before[..k], map[]).seen;
    RunAt(before, k);
    forall x | x != "" ensures Count(seen, x) != 0 <==> Taken(before, after, k, x) {
      CountsAre(before[..k], x);
      assert forall j | 0 <= j < k :: before[..k][j] == before[j] && run.ids[..k][j] == run.ids[j] == after[j].id;
    }
    NewIdIs(before[k].id, before[k].prefix, seen, x => Taken(before, after, k, x));
  }
}
