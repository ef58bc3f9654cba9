/** Renaming duplicate step ids: renameDuplicateStepIDs, uniqueStepID and sanitizeName of
    internal/askrepair/repair.go. */
module StepIds {
  import opened Text
  import opened WorkflowDoc

  function SpaceToDash(c: char): char {
    if c == ' ' then '-' else c
  }

  predicate IsDash(c: char) { c == '-' }

  function DashSpaces(s: string): (r: string)
    ensures |r| == |s| && forall i :: 0 <= i < |s| ==> r[i] == SpaceToDash(s[i])
  {
    seq(|s|, i requires 0 <= i < |s| => SpaceToDash(s[i]))
  }

  function SanitizeName(value: string): (r: string)
    ensures r != ""
  {
    var cleaned := Trim(DashSpaces(ToLower(TrimSpace(value))), IsDash);
    if cleaned == "" then "step" else cleaned
  }

  /** The counters of the source's `seen` map; an id that is not a key counts 0. */
  type Seen = map<string, nat>

  function Count(seen: Seen, id: string): nat {
    if id in seen then seen[id] else 0
  }

  function Numbered(base: string, suffix: nat): string {
    base + "-" + Decimal(suffix)
  }

  lemma NumberedInjective(base: string, m: nat, n: nat)
    requires Numbered(base, m) == Numbered(base, n)
    ensures m == n
  {
    assert Numbered(base, m)[|base| + 1..] == Decimal(m);
    assert Numbered(base, n)[|base| + 1..] == Decimal(n);
    DecimalInjective(m, n);
  }

  /** The used ids among the numbered candidates that the search has yet to try. */
  ghost function Ahead(seen: Seen, base: string, from: nat): set<string> {
    set id | id in seen && (exists n: nat :: n >= from && id == Numbered(base, n))
  }

  /** The search runs out of used candidates: each rejected one leaves the set for good. */
  lemma AheadShrinks(seen: Seen, base: string, from: nat)
    requires Count(seen, Numbered(base, from)) != 0
    ensures Ahead(seen, base, from + 1) < Ahead(seen, base, from)
  {
    assert Numbered(base, from) in Ahead(seen, base, from);
    forall id | id in Ahead(seen, base, from + 1) ensures id in Ahead(seen, base, from) && id != Numbered(base, from) {
      var n: nat :| n >= from + 1 && id == Numbered(base, n);
      if id == Numbered(base, from) { NumberedInjective(base, n, from); }
    }
  }

  /** The first free numbered candidate from `suffix` on. The search has no bound of its own. */
  function FirstFree(seen: Seen, base: string, suffix: nat): (n: nat)
    ensures n >= suffix && Count(seen, Numbered(base, n)) == 0
    ensures forall k: nat | suffix <= k < n :: Count(seen, Numbered(base, k)) != 0
    decreases Ahead(seen, base, suffix)
  {
    if Count(seen, Numbered(base, suffix)) == 0 then suffix
    else
      AheadShrinks(seen, base, suffix);
      FirstFree(seen, base, suffix + 1)
  }

  datatype Unique = Unique(id: string, changed: bool, seen: Seen)

  /** What one call of uniqueStepID returns, and the counters it leaves. */
  function UniqueStepIdSpec(current: string, prefix: string, seen: Seen): Unique {
    var id := TrimSpace(current);
    if id == "" then Unique(id, false, seen)
    else if Count(seen, id) == 0 then Unique(id, false, seen[id := 1])
    else
      var counted := seen[id := Count(seen, id) + 1];
      var base := SanitizeName(prefix) + "-" + id;
      var free := if Count(counted, base) == 0 then base else Numbered(base, FirstFree(counted, base, 2));
      Unique(free, true, counted[free := 1])
  }

  /** What a caller may rely on: an id handed out was free before, an unchanged id is the trimmed one,
      a change happens exactly on a used one, and no counter ever goes back to 0. */
  lemma UniqueFacts(current: string, prefix: string, seen: Seen)
    ensures var u, id := UniqueStepIdSpec(current, prefix, seen), TrimSpace(current);
            (u.id == "" <==> id == "") &&
            (u.id != "" ==> Count(seen, u.id) == 0 && Count(u.seen, u.id) != 0) &&
            (id != "" ==> Count(u.seen, id) != 0) &&
            (u.changed <==> id != "" && Count(seen, id) != 0) &&
            (!u.changed ==> u.id == id && u.seen.Keys == seen.Keys + (if id == "" then {} else {id})) &&
            (forall k | Count(seen, k) != 0 :: Count(u.seen, k) != 0)
  {
    hide SanitizeName, TrimSpace, Decimal;
  }

  method UniqueStepId(current: string, prefix: string, seen: Seen) returns (r: Unique)
    ensures r == UniqueStepIdSpec(current, prefix, seen)
  {
    hide SanitizeName, TrimSpace, Decimal, Ahead;
    var id := TrimSpace(current);
    if id == "" { return Unique(id, false, seen); }
    var count := Count(seen, id);
    var counted := seen[id := count + 1];
    if count == 0 { return Unique(id, false, counted); }
    var base := SanitizeName(prefix) + "-" + id;
    if Count(counted, base) == 0 {
      return Unique(base, true, counted[base := 1]);
    }
    var suffix := 2;
    while true
      invariant suffix >= 2
      invariant FirstFree(counted, base, 2) == FirstFree(counted, base, suffix)
      decreases Ahead(counted, base, suffix)
    {
      var candidate := Numbered(base, suffix);
      if Count(counted, candidate) == 0 {
        return Unique(candidate, true, counted[candidate := 1]);
      }
      AheadShrinks(counted, base, suffix);
      suffix := suffix + 1;
    }
  }

  /** The loop over one list of steps: the renamed steps, whether any changed, and the counters. */
  datatype Renamed = Renamed(steps: seq<Step>, changed: bool, seen: Seen)

  function RenameSteps(steps: seq<Step>, prefix: string, seen: Seen): (r: Renamed)
    ensures |r.steps| == |steps|
  {
    hide UniqueStepIdSpec;
    if steps == [] then Renamed([], false, seen)
    else
      var before := RenameSteps(steps[..|steps| - 1], prefix, seen);
      var last := steps[|steps| - 1];
      var u := UniqueStepIdSpec(last.id, prefix, before.seen);
      Renamed(before.steps + [last.(id := u.id)], before.changed || u.changed, u.seen)
  }

  datatype RenamedPhases = RenamedPhases(phases: seq<Phase>, changed: bool, seen: Seen)

  function RenamePhases(phases: seq<Phase>, seen: Seen): (r: RenamedPhases)
    ensures |r.phases| == |phases|
  {
    hide SanitizeName, RenameSteps;
    if phases == [] then RenamedPhases([], false, seen)
    else
      var before := RenamePhases(phases[..|phases| - 1], seen);
      var last := phases[|phases| - 1];
      var r := RenameSteps(last.steps, SanitizeName(last.name), before.seen);
      RenamedPhases(before.phases + [last.(steps := r.steps)], before.changed || r.changed, r.seen)
  }

  datatype Outcome = Outcome(workflow: Workflow, renamed: bool)

  /** Top-level steps first, then the steps of every phase, sharing one set of counters. */
  function RenameWorkflow(w: Workflow): Outcome {
    var top := RenameSteps(w.steps, "step", map[]);
    var nested := RenamePhases(w.phases, top.seen);
    Outcome(w.(steps := top.steps, phases := nested.phases), top.changed || nested.changed)
  }

  /** Only ids differ: the steps keep their number, order and other fields. */
  ghost predicate SameButIds(before: seq<Step>, after: seq<Step>) {
    |after| == |before| && forall i | 0 <= i < |before| :: after[i].fields == before[i].fields
  }

  lemma {:induction false} StepsKeepFields(steps: seq<Step>, prefix: string, seen: Seen)
    ensures SameButIds(steps, RenameSteps(steps, prefix, seen).steps)
  {
    hide UniqueStepIdSpec;
    if steps != [] {
      StepsKeepFields(steps[..|steps| - 1], prefix, seen);
    }
  }

  lemma {:induction false} PhasesKeepFields(phases: seq<Phase>, seen: Seen)
    ensures var r := RenamePhases(phases, seen).phases;
            forall i | 0 <= i < |phases| :: r[i].name == phases[i].name && r[i].fields == phases[i].fields
                                            && SameButIds(phases[i].steps, r[i].steps)
  {
    hide SanitizeName, RenameSteps;
    if phases != [] {
      var n := |phases| - 1;
      PhasesKeepFields(phases[..n], seen);
      StepsKeepFields(phases[n].steps, SanitizeName(phases[n].name), RenamePhases(phases[..n], seen).seen);
    }
  }

  /** Phases, steps, their order and every field but the step ids survive the renaming. */
  lemma RenameKeepsEverythingElse(w: Workflow)
    ensures var r := RenameWorkflow(w).workflow;
            r.fields == w.fields && SameButIds(w.steps, r.steps) && |r.phases| == |w.phases| &&
            forall i | 0 <= i < |w.phases| ::
              r.phases[i].name == w.phases[i].name && r.phases[i].fields == w.phases[i].fields
              && SameButIds(w.phases[i].steps, r.phases[i].steps)
  {
    hide RenameSteps, RenamePhases;
    StepsKeepFields(w.steps, "step", map[]);
    PhasesKeepFields(w.phases, RenameSteps(w.steps, "step", map[]).seen);
  }

  /** The inner loop: one list of steps with one prefix. */
  method RenameList(steps: seq<Step>, prefix: string, seen0: Seen) returns (r: Renamed)
    ensures r == RenameSteps(steps, prefix, seen0)
  {
    hide UniqueStepIdSpec;
    var out, renamed, seen := steps, false, seen0;
    for i := 0 to |steps|
      invariant |out| == |steps| && forall j | i <= j < |out| :: out[j] == steps[j]
      invariant RenameSteps(steps[..i], prefix, seen0) == Renamed(out[..i], renamed, seen)
    {
      assert steps[..i + 1][..i] == steps[..i];
      ghost var done := out[..i];
      var u := UniqueStepId(out[i].id, prefix, seen);
      out, seen, renamed := out[i := out[i].(id := u.id)], u.seen, renamed || u.changed;
      assert out[..i + 1] == done + [out[i]];
    }
    assert steps[..|steps|] == steps;
    r := Renamed(out, renamed, seen);
  }

  method RenameDuplicateStepIds(w: Workflow) returns (r: Outcome)
    ensures r == RenameWorkflow(w)
  {
    hide RenameSteps, SanitizeName;
    var top := RenameList(w.steps, "step", map[]);
    var phases, renamed, seen := w.phases, false, top.seen;
    for i := 0 to |phases|
      invariant |phases| == |w.phases| && forall j | i <= j < |phases| :: phases[j] == w.phases[j]
      invariant RenamePhases(w.phases[..i], top.seen) == RenamedPhases(phases[..i], renamed, seen)
    {
      assert w.phases[..i + 1][..i] == w.phases[..i];
      ghost var done := phases[..i];
      var inner := RenameList(phases[i].steps, SanitizeName(phases[i].name), seen);
      phases, seen, renamed := phases[i := phases[i].(steps := inner.steps)], inner.seen, renamed || inner.changed;
      assert phases[..i + 1] == done + [phases[i]];
    }
    assert w.phases[..|phases|] == w.phases;
    r := Outcome(w.(steps := top.steps, phases := phases), top.changed || renamed);
  }

  // ---------------------------------------------------------------------------------------------
  // The same run seen as one flat list of ids

  datatype Item = Item(id: string, prefix: string)

  function StepItems(steps: seq<Step>, prefix: string): (r: seq<Item>)
    ensures |r| == |steps| && forall i | 0 <= i < |steps| :: r[i] == Item(steps[i].id, prefix)
  {
    seq(|steps|, i requires 0 <= i < |steps| => Item(steps[i].id, prefix))
  }

  function PhaseItems(phases: seq<Phase>): seq<Item> {
    if phases == [] then []
    else
      var last := phases[|phases| - 1];
      PhaseItems(phases[..|phases| - 1]) + StepItems(last.steps, SanitizeName(last.name))
  }

  /** Every step of a workflow in the order the renaming visits it. */
  function Items(w: Workflow): seq<Item> {
    StepItems(w.steps, "step") + PhaseItems(w.phases)
  }

  datatype Run = Run(ids: seq<string>, changed: bool, seen: Seen)

  function RenameIds(items: seq<Item>, seen: Seen): (r: Run)
    ensures |r.ids| == |items|
  {
    if items == [] then Run([], false, seen)
    else
      var before := RenameIds(items[..|items| - 1], seen);
      var last := items[|items| - 1];
      var u := UniqueStepIdSpec(last.id, last.prefix, before.seen);
      Run(before.ids + [u.id], before.changed || u.changed, u.seen)
  }

  function WithIds(items: seq<Item>, ids: seq<string>): (r: seq<Item>)
    requires |ids| == |items|
    ensures |r| == |items| && forall i | 0 <= i < |items| :: r[i] == Item(ids[i], items[i].prefix)
  {
    seq(|items|, i requires 0 <= i < |items| => Item(ids[i], items[i].prefix))
  }

  lemma {:induction false} RenameIdsAppend(a: seq<Item>, b: seq<Item>, seen: Seen)
    ensures var first := RenameIds(a, seen);
            var second := RenameIds(b, first.seen);
            RenameIds(a + b, seen) == Run(first.ids + second.ids, first.changed || second.changed, second.seen)
  {
    hide UniqueStepIdSpec, SanitizeName;
    if b == [] {
      assert a + b == a;
    } else {
      assert (a + b)[..|a + b| - 1] == a + b[..|b| - 1];
      RenameIdsAppend(a, b[..|b| - 1], seen);
    }
  }

  lemma {:induction false} StepsAsRun(steps: seq<Step>, prefix: string, seen: Seen)
    ensures var r, run := RenameSteps(steps, prefix, seen), RenameIds(StepItems(steps, prefix), seen);
            r.changed == run.changed && r.seen == run.seen &&
            StepItems(r.steps, prefix) == WithIds(StepItems(steps, prefix), run.ids)
  {
    hide UniqueStepIdSpec, SanitizeName;
    if steps != [] {
      var n := |steps| - 1;
      StepsAsRun(steps[..n], prefix, seen);
      assert StepItems(steps, prefix)[..n] == StepItems(steps[..n], prefix);
    }
  }

  lemma WithIdsAppend(a: seq<Item>, b: seq<Item>, x: seq<string>, y: seq<string>)
    requires |x| == |a| && |y| == |b|
    ensures WithIds(a + b, x + y) == WithIds(a, x) + WithIds(b, y)
  {
  }

  lemma {:induction false} PhasesAsRun(phases: seq<Phase>, seen: Seen)
    ensures var r, run := RenamePhases(phases, seen), RenameIds(PhaseItems(phases), seen);
            r.changed == run.changed && r.seen == run.seen &&
            PhaseItems(r.phases) == WithIds(PhaseItems(phases), run.ids)
  {
    if phases != [] {
      hide RenameSteps, RenameIds, SanitizeName, StepItems, WithIds;
      var n := |phases| - 1;
      var prefix := SanitizeName(phases[n].name);
      var before, items := RenamePhases(phases[..n], seen), PhaseItems(phases[..n]);
      var last := StepItems(phases[n].steps, prefix);
      PhasesAsRun(phases[..n], seen);
      StepsAsRun(phases[n].steps, prefix, before.seen);
      RenameIdsAppend(items, last, seen);
      WithIdsAppend(items, last, RenameIds(items, seen).ids, RenameIds(last, before.seen).ids);
      assert RenamePhases(phases, seen).phases[..n] == before.phases;
    }
  }

  /** The workflow-level renaming is the flat run: same ids in the same places, same verdict. */
  lemma WorkflowAsRun(w: Workflow)
    ensures var r, run := RenameWorkflow(w), RenameIds(Items(w), map[]);
            r.renamed == run.changed && Items(r.workflow) == WithIds(Items(w), run.ids)
  {
    hide RenameSteps, RenameIds, RenamePhases, StepItems, PhaseItems, WithIds;
    var top := RenameSteps(w.steps, "step", map[]);
    var a, b := StepItems(w.steps, "step"), PhaseItems(w.phases);
    StepsAsRun(w.steps, "step", map[]);
    PhasesAsRun(w.phases, top.seen);
    RenameIdsAppend(a, b, map[]);
    WithIdsAppend(a, b, RenameIds(a, map[]).ids, RenameIds(b, top.seen).ids);
  }

  // ---------------------------------------------------------------------------------------------
  // What the renaming achieves

  ghost predicate DistinctIds(ids: seq<string>) {
    forall i, j | 0 <= i < j < |ids| && ids[i] != "" :: ids[i] != ids[j]
  }

  /** Two steps whose ids agree after trimming and are not blank. */
  ghost predicate HasDuplicate(items: seq<Item>) {
    exists i, j :: 0 <= i < j < |items| && TrimSpace(items[i].id) == TrimSpace(items[j].id) != ""
  }

  /** Ids handed out so far are counted, and so is every id met so far. */
  lemma {:induction false} RunCounts(items: seq<Item>)
    ensures var r := RenameIds(items, map[]);
            (forall i | 0 <= i < |items| && r.ids[i] != "" :: Count(r.seen, r.ids[i]) != 0) &&
            (forall i | 0 <= i < |items| && TrimSpace(items[i].id) != "" ::
               Count(r.seen, TrimSpace(items[i].id)) != 0) &&
            DistinctIds(r.ids)
  {
    hide UniqueStepIdSpec, TrimSpace;
    if items != [] {
      var n := |items| - 1;
      RunCounts(items[..n]);
      UniqueFacts(items[n].id, items[n].prefix, RenameIds(items[..n], map[]).seen);
    }
  }

  /** Up to the first rename the run is plain trimming, and the counters know just the ids met. */
  lemma {:induction false} UnchangedRun(items: seq<Item>)
    requires !RenameIds(items, map[]).changed
    ensures var r := RenameIds(items, map[]);
            (forall i | 0 <= i < |items| :: r.ids[i] == TrimSpace(items[i].id)) &&
            (forall id | id in r.seen :: exists i :: 0 <= i < |items| && TrimSpace(items[i].id) == id != "")
  {
    hide UniqueStepIdSpec, TrimSpace;
    if items != [] {
      var n := |items| - 1;
      var before := RenameIds(items[..n], map[]);
      UnchangedRun(items[..n]);
      UniqueFacts(items[n].id, items[n].prefix, before.seen);
      var r := RenameIds(items, map[]);
      forall id | id in r.seen ensures exists i :: 0 <= i < |items| && TrimSpace(items[i].id) == id != "" {
        if id in before.seen {
          var i :| 0 <= i < n && TrimSpace(items[..n][i].id) == id != "";
          assert TrimSpace(items[i].id) == id;
        } else {
          assert TrimSpace(items[n].id) == id;
        }
      }
    }
  }

  /** The first rename of a run answers to a duplicate. */
  lemma {:induction false} ChangedMeansDuplicate(items: seq<Item>)
    requires RenameIds(items, map[]).changed
    ensures HasDuplicate(items)
  {
    hide UniqueStepIdSpec, TrimSpace;
    var n := |items| - 1;
    var before, id := RenameIds(items[..n], map[]), TrimSpace(items[n].id);
    assert forall k | 0 <= k < n :: items[..n][k] == items[k];
    if before.changed {
      ChangedMeansDuplicate(items[..n]);
      var i, j :| 0 <= i < j < n && TrimSpace(items[..n][i].id) == TrimSpace(items[..n][j].id) != "";
      assert TrimSpace(items[i].id) == TrimSpace(items[j].id);
    } else {
      UnchangedRun(items[..n]);
      UniqueFacts(items[n].id, items[n].prefix, before.seen);
      var i :| 0 <= i < n && TrimSpace(items[..n][i].id) == id;
      assert TrimSpace(items[i].id) == TrimSpace(items[n].id);
    }
  }

  /** A rename happens exactly when two non-blank ids agree after trimming. */
  lemma ChangedIffDuplicate(items: seq<Item>)
    ensures RenameIds(items, map[]).changed <==> HasDuplicate(items)
  {
    hide TrimSpace, RenameIds;
    if RenameIds(items, map[]).changed {
      ChangedMeansDuplicate(items);
    } else {
      UnchangedRun(items);
      RunCounts(items);
    }
  }

  /** The workflow-level statement: step ids of the result are pairwise distinct, and a rename is
      reported exactly when two non-blank ids of the input agree after trimming. */
  lemma RenamedIdsAreDistinct(w: Workflow)
    ensures var r := RenameWorkflow(w);
            (r.renamed <==> HasDuplicate(Items(w))) &&
            |Items(r.workflow)| == |Items(w)| &&
            DistinctIds(seq(|Items(w)|, i requires 0 <= i < |Items(w)| => Items(r.workflow)[i].id))
  {
    hide RenameWorkflow, Items, RenameIds;
    WorkflowAsRun(w);
    RunCounts(Items(w));
    ChangedIffDuplicate(Items(w));
  }

  // ---------------------------------------------------------------------------------------------
  // Running the renaming on its own output

  /** No whitespace but the plain space. */
  predicate PlainSpaces(s: string) {
    forall c | c in s :: IsSpace(c) ==> c == ' '
  }

  predicate NoSpace(s: string) {
    forall c | c in s :: !IsSpace(c)
  }

  /** Lower-casing and dashing leave no whitespace where only plain spaces were. */
  lemma DashedHasNoSpace(s: string)
    requires PlainSpaces(s)
    ensures NoSpace(DashSpaces(ToLower(s)))
  {
    var r := DashSpaces(ToLower(s));
    forall i | 0 <= i < |r| ensures !IsSpace(r[i]) {
      assert s[i] in s;
    }
  }

  lemma SanitizedHasNoSpace(name: string)
    requires PlainSpaces(name)
    ensures NoSpace(SanitizeName(name))
  {
    hide IsSpace, Trim, DashSpaces;
    TrimElements(name, IsSpace);
    DashedHasNoSpace(TrimSpace(name));
    TrimElements(DashSpaces(ToLower(TrimSpace(name))), IsDash);
    NoSpaceInStep();
  }

  lemma NoSpaceInStep()
    ensures NoSpace("step")
  {
  }

  /** The prefix made from this name does not start with whitespace. */
  predicate CleanPrefix(name: string) {
    !IsSpace(SanitizeName(name)[0])
  }

  lemma PlainIsClean(name: string)
    requires PlainSpaces(name)
    ensures CleanPrefix(name)
  {
    hide SanitizeName, IsSpace;
    SanitizedHasNoSpace(name);
    assert SanitizeName(name)[0] in SanitizeName(name);
  }

  lemma PrefixedIsTrimmed(prefix: string, id: string)
    requires prefix != "" && !IsSpace(prefix[0]) && id != "" && TrimSpace(id) == id
    ensures TrimSpace(prefix + "-" + id) == prefix + "-" + id
  {
    hide IsSpace;
    var base := prefix + "-" + id;
    assert base[0] == prefix[0] && base[|base| - 1] == id[|id| - 1];
    TrimFixed(id, IsSpace);
    TrimFixed(base, IsSpace);
  }

  lemma DigitsAreNotSpaces(n: nat)
    ensures !IsSpace(Decimal(n)[|Decimal(n)| - 1])
  {
    hide Decimal;
    assert Decimal(n)[|Decimal(n)| - 1] in Decimal(n);
  }

  lemma NumberedIsTrimmed(base: string, n: nat)
    requires TrimSpace(base) == base != ""
    ensures TrimSpace(Numbered(base, n)) == Numbered(base, n)
  {
    hide TrimLeft, TrimRight, IsSpace;
    var r := Numbered(base, n);
    assert r[0] == base[0] && r[|r| - 1] == Decimal(n)[|Decimal(n)| - 1];
    DigitsAreNotSpaces(n);
    TrimFixed(base, IsSpace);
    TrimFixed(r, IsSpace);
  }

  /** A renamed id made with a clean prefix is already trimmed. */
  lemma RenamedIdIsTrimmed(current: string, prefix: string, seen: Seen)
    requires CleanPrefix(prefix)
    ensures var id := UniqueStepIdSpec(current, prefix, seen).id; TrimSpace(id) == id
  {
    hide SanitizeName, Numbered, Trim, IsSpace, FirstFree, Count;
    TrimIdempotent(current, IsSpace);
    var id := TrimSpace(current);
    if id != "" && Count(seen, id) != 0 {
      var base, counted := SanitizeName(prefix) + "-" + id, seen[id := Count(seen, id) + 1];
      PrefixedIsTrimmed(SanitizeName(prefix), id);
      NumberedIsTrimmed(base, FirstFree(counted, base, 2));
    }
  }

  /** With clean prefixes, re-running the renaming on its output renames nothing and changes no id. */
  lemma RenameStable(items: seq<Item>)
    requires forall i | 0 <= i < |items| :: CleanPrefix(items[i].prefix)
    ensures var out := WithIds(items, RenameIds(items, map[]).ids);
            !RenameIds(out, map[]).changed && RenameIds(out, map[]).ids == RenameIds(items, map[]).ids
  {
    hide RenameIds, TrimSpace, CleanPrefix;
    var r := RenameIds(items, map[]);
    var out := WithIds(items, r.ids);
    RunCounts(items);
    forall i | 0 <= i < |items| ensures TrimSpace(r.ids[i]) == r.ids[i] {
      RunIdsTrimmed(items, i);
    }
    ChangedIffDuplicate(out);
    UnchangedRun(out);
  }

  lemma {:induction false} RunIdsTrimmed(items: seq<Item>, i: nat)
    requires i < |items| && CleanPrefix(items[i].prefix)
    ensures var id := RenameIds(items, map[]).ids[i]; TrimSpace(id) == id
  {
    hide UniqueStepIdSpec, TrimSpace, CleanPrefix;
    var n := |items| - 1;
    if i == n {
      RenamedIdIsTrimmed(items[n].id, items[n].prefix, RenameIds(items[..n], map[]).seen);
    } else {
      RunIdsTrimmed(items[..n], i);
    }
  }

  lemma FirstUse(id: string, prefix: string, seen: Seen)
    requires TrimSpace(id) == id != "" && Count(seen, id) == 0
    ensures UniqueStepIdSpec(id, prefix, seen) == Unique(id, false, seen[id := 1])
  {
    hide TrimSpace, SanitizeName;
  }

  lemma SecondUse(id: string, prefix: string, seen: Seen)
    requires TrimSpace(id) == id != "" && Count(seen, id) != 0
    requires SanitizeName(prefix) + "-" + id !in seen.Keys + {id}
    ensures UniqueStepIdSpec(id, prefix, seen).id == SanitizeName(prefix) + "-" + id
  {
    hide TrimSpace, SanitizeName;
  }

  /** The ids of a run on t, "a" and "a", for a t other than "a". */
  lemma ThreeIds(t: string, prefix: string)
    requires TrimSpace(t) == t && t != "" && t != "a"
    requires SanitizeName(prefix) + "-" + "a" !in {t, "a"}
    ensures RenameIds([Item(t, prefix), Item("a", prefix), Item("a", prefix)], map[]).ids
         == [t, "a", SanitizeName(prefix) + "-" + "a"]
  {
    hide SanitizeName, IsSpace, TrimSpace, UniqueStepIdSpec;
    var items := [Item(t, prefix), Item("a", prefix), Item("a", prefix)];
    SpaceSamples();
    TrimsToItself("a");
    FirstUse(t, prefix, map[]);
    FirstUse("a", prefix, map[t := 1]);
    SecondUse("a", prefix, map[t := 1, "a" := 1]);
    assert items[..2][..1] == items[..1] && items[..1][..0] == [] && items[..2] == [items[0], items[1]];
    assert RenameIds(items[..1][..0], map[]) == Run([], false, map[]);
    assert RenameIds(items[..1], map[]) == Run([t], false, map[t := 1]);
    assert RenameIds(items[..2], map[]) == Run([t, "a"], false, map[t := 1, "a" := 1]);
  }

  lemma TrimsToItself(s: string)
    requires s != "" && !IsSpace(s[0]) && !IsSpace(s[|s| - 1])
    ensures TrimSpace(s) == s
  {
    TrimFixed(s, IsSpace);
  }

  /** The condition is exact: a prefix that does start with whitespace makes an id that agrees, after
      trimming, with one already there, and the second pass renames it. */
  lemma UncleanPrefixBreaks(prefix: string) returns (items: seq<Item>)
    requires !CleanPrefix(prefix)
    ensures (forall i | 0 <= i < |items| :: items[i].prefix == prefix)
    ensures RenameIds(WithIds(items, RenameIds(items, map[]).ids), map[]).changed
  {
    hide SanitizeName, TrimSpace, RenameIds, HasDuplicate;
    TrimmedMadeUpId(SanitizeName(prefix));
    var base := SanitizeName(prefix) + "-" + "a";
    ThreeIds(TrimSpace(base), prefix);
    items := [Item(TrimSpace(base), prefix), Item("a", prefix), Item("a", prefix)];
    FirstAndThird(WithIds(items, RenameIds(items, map[]).ids));
    ChangedIffDuplicate(WithIds(items, RenameIds(items, map[]).ids));
  }

  lemma FirstAndThird(items: seq<Item>)
    requires |items| == 3 && TrimSpace(items[0].id) == TrimSpace(items[2].id) != ""
    ensures HasDuplicate(items)
  {
    hide TrimSpace;
  }

  lemma TrimmedMadeUpId(prefix: string)
    requires prefix != "" && IsSpace(prefix[0])
    ensures var base := prefix + "-" + "a"; var t := TrimSpace(base);
            t != base && t != "" && t != "a" && base != "a" && TrimSpace(t) == t
  {
    hide IsSpace, Trim;
    var base := prefix + "-" + "a";
    assert base[0] == prefix[0] && |base| >= 3;
    KeepsDashA(prefix);
    TrimIdempotent(base, IsSpace);
    TrimFixed(base, IsSpace);
  }

  lemma KeepsDashA(prefix: string)
    ensures |TrimSpace(prefix + "-" + "a")| >= 2
  {
    var s := prefix + "-" + "a";
    SpaceSamples();
    hide IsSpace;
    assert s == prefix + "-a";
    TrimLeftKeeps(prefix, "-a");
    var l := TrimLeft(s, IsSpace);
    assert l[|l| - 1] == l[|l| - 2..][1] == 'a';
  }

  lemma {:induction false} TrimLeftKeeps(prefix: string, rest: string)
    requires rest != "" && !IsSpace(rest[0])
    ensures |TrimLeft(prefix + rest, IsSpace)| >= |rest|
    ensures TrimLeft(prefix + rest, IsSpace)[|TrimLeft(prefix + rest, IsSpace)| - |rest|..] == rest
  {
    hide IsSpace;
    if prefix == [] {
      assert prefix + rest == rest;
    } else {
      assert (prefix + rest)[1..] == prefix[1..] + rest;
      TrimLeftKeeps(prefix[1..], rest);
    }
  }

  lemma TrimOne(c: char, r: string, drop: char -> bool)
    requires drop(c) && r != "" && !drop(r[0]) && !drop(r[|r| - 1])
    ensures Trim([c] + r, drop) == r
  {
    var s := [c] + r;
    assert s[0] == c && s[1..] == r;
    assert TrimLeft(s, drop) == TrimLeft(r, drop) == r;
  }

  lemma SanitizeSteps(name: string, trimmed: string, core: string)
    requires TrimSpace(name) == trimmed && Trim(trimmed, IsDash) == core != ""
    requires forall c | c in trimmed :: c != ' ' && LowerRune(c) == c
    ensures SanitizeName(name) == core
  {
    hide Trim;
    assert forall i | 0 <= i < |trimmed| :: trimmed[i] in trimmed;
    assert DashSpaces(ToLower(trimmed)) == trimmed;
  }

  /** A phase whose name yields such a prefix: dashes shield the tab from both trimmings. */
  lemma UncleanPhaseName()
    ensures !CleanName("-\t-\tx")
  {
    hide SanitizeName, Trim, IsSpace;
    SpaceSamples();
    TrimsToItself("-\t-\tx");
    TrimOne('-', "\t-\tx", IsDash);
    assert ['-'] + "\t-\tx" == "-\t-\tx";
    SanitizeSteps("-\t-\tx", "-\t-\tx", "\t-\tx");
    TrimOne('\t', "-\tx", IsSpace);
    assert ['\t'] + "-\tx" == "\t-\tx";
    TrimOne('-', "\tx", IsDash);
    assert ['-'] + "\tx" == "-\tx";
    SanitizeSteps("\t-\tx", "-\tx", "\tx");
  }

  lemma SpaceSamples()
    ensures !IsSpace('-') && !IsSpace('x') && !IsSpace('a') && IsSpace('\t')
  {
  }

  /** The prefix that a phase of this name gives to renamed ids does not start with whitespace. */
  predicate CleanName(name: string) {
    CleanPrefix(SanitizeName(name))
  }

  /** If all phases have clean names, a repaired workflow needs no further repair: a second pass reports no
      rename and leaves every id as it is. */
  lemma SecondPassRenamesNothing(w: Workflow)
    requires forall i | 0 <= i < |w.phases| :: CleanName(w.phases[i].name)
    ensures var once := RenameWorkflow(w).workflow;
            var twice := RenameWorkflow(once);
            !twice.renamed && Items(twice.workflow) == Items(once)
  {
    ItemPrefixesClean(w);
    hide RenameWorkflow, Items, RenameIds, CleanName, CleanPrefix;
    WorkflowAsRun(w);
    WorkflowAsRun(RenameWorkflow(w).workflow);
    RenameStable(Items(w));
  }

  /** The condition is exact, name by name: a name is clean if and only if no workflow whose phases all have
      that name needs a second repair. */
  lemma CleanNameIff(name: string)
    ensures CleanName(name) <==>
            forall w: Workflow | AllNamed(w, name) :: !RenameWorkflow(RenameWorkflow(w).workflow).renamed
  {
    hide RenameWorkflow, CleanName;
    if CleanName(name) {
      forall w: Workflow | AllNamed(w, name) ensures !RenameWorkflow(RenameWorkflow(w).workflow).renamed {
        SecondPassRenamesNothing(w);
      }
    } else {
      var w := UncleanNameBreaks(name);
    }
  }

  predicate AllNamed(w: Workflow, name: string) {
    forall i | 0 <= i < |w.phases| :: w.phases[i].name == name
  }

  /** A workflow with one phase of an unclean name that the second pass renames again. */
  lemma UncleanNameBreaks(name: string) returns (w: Workflow)
    requires !CleanName(name)
    ensures AllNamed(w, name) && |w.phases| == 1
    ensures RenameWorkflow(RenameWorkflow(w).workflow).renamed
  {
    hide RenameIds, CleanPrefix, RenameWorkflow;
    var prefix := SanitizeName(name);
    var items := UncleanPrefixBreaks(prefix);
    var steps := seq(|items|, i requires 0 <= i < |items| => Step(items[i].id, map[]));
    w := Workflow(map[], [Phase(name, map[], steps)], []);
    OnePhaseItems(w);
    assert Items(w) == items;
    WorkflowAsRun(w);
    WorkflowAsRun(RenameWorkflow(w).workflow);
  }

  lemma OnePhaseItems(w: Workflow)
    requires w.steps == [] && |w.phases| == 1
    ensures Items(w) == StepItems(w.phases[0].steps, SanitizeName(w.phases[0].name))
  {
    hide SanitizeName;
    var last := StepItems(w.phases[0].steps, SanitizeName(w.phases[0].name));
    assert w.phases[..0] == [] && PhaseItems(w.phases) == PhaseItems([]) + last == last;
    assert StepItems(w.steps, "step") == [] && [] + last == last;
  }

  lemma ItemPrefixesClean(w: Workflow)
    requires forall i | 0 <= i < |w.phases| :: CleanName(w.phases[i].name)
    ensures forall i | 0 <= i < |Items(w)| :: CleanPrefix(Items(w)[i].prefix)
  {
    hide CleanPrefix, CleanName;
    NoSpaceInStep();
    NoSpaceIsClean("step");
    PhasePrefixesClean(w.phases);
  }

  lemma NoSpaceIsClean(s: string)
    requires NoSpace(s)
    ensures CleanPrefix(s)
  {
    PlainIsClean(s);
  }

  lemma {:induction false} PhasePrefixesClean(phases: seq<Phase>)
    requires forall i | 0 <= i < |phases| :: CleanName(phases[i].name)
    ensures forall i | 0 <= i < |PhaseItems(phases)| :: CleanPrefix(PhaseItems(phases)[i].prefix)
  {
    hide SanitizeName, CleanPrefix;
    if phases != [] {
      var n := |phases| - 1;
      PhasePrefixesClean(phases[..n]);
      assert CleanName(phases[n].name);
    }
  }

  /** Names without whitespace other than the plain space are clean. */
  lemma PlainNameIsClean(name: string)
    requires PlainSpaces(name)
    ensures CleanName(name)
  {
    hide SanitizeName, PlainSpaces, NoSpace;
    SanitizedHasNoSpace(name);
    NoSpaceIsClean(SanitizeName(name));
  }

  // ---------------------------------------------------------------------------------------------
  // What a renamed id looks like

  /** The id is the base with the least number from 2 on behind it that is not taken. */
  ghost predicate IsNextFree(base: string, id: string, taken: string -> bool) {
    exists n: nat :: n >= 2 && id == base + "-" + Decimal(n) && !taken(id)
                     && forall m: nat | 2 <= m < n :: taken(base + "-" + Decimal(m))
  }

  /** A used id gets the prefix in front, joined by a dash; and if that is used as well, the least number from 2 on
      behind it that makes it free. */
  lemma RenamedIdIs(current: string, prefix: string, seen: Seen, taken: string -> bool)
    requires forall x | x != "" :: taken(x) <==> Count(seen, x) != 0
    requires TrimSpace(current) != "" && taken(TrimSpace(current))
    ensures var id := UniqueStepIdSpec(current, prefix, seen).id;
            var base := SanitizeName(prefix) + "-" + TrimSpace(current);
            if !taken(base) then id == base else IsNextFree(base, id, taken)
  {
    hide SanitizeName, TrimSpace, Decimal, FirstFree;
    var id := TrimSpace(current);
    var base := SanitizeName(prefix) + "-" + id;
    var counted := seen[id := Count(seen, id) + 1];
    assert forall x :: Count(counted, x) != 0 <==> Count(seen, x) != 0;
    if Count(seen, base) != 0 {
      var n := FirstFree(counted, base, 2);
      FreeFacts(counted, base, n);
      assert base + "-" + Decimal(n) == Numbered(base, n) != "";
      forall m: nat | 2 <= m < n ensures taken(base + "-" + Decimal(m)) {
        assert base + "-" + Decimal(m) != "";
      }
    }
  }

  lemma FreeFacts(seen: Seen, base: string, n: nat)
    requires n == FirstFree(seen, base, 2)
    ensures n >= 2 && Count(seen, base + "-" + Decimal(n)) == 0
    ensures forall k: nat | 2 <= k < n :: Count(seen, base + "-" + Decimal(k)) != 0
  {
    hide Decimal;
    forall k: nat | 2 <= k < n ensures Count(seen, base + "-" + Decimal(k)) != 0 {
      assert Count(seen, Numbered(base, k)) != 0;
    }
    assert Count(seen, Numbered(base, n)) == 0;
  }

  /** The prefix of a phase: its name in lower case, dashes for spaces, without dashes at the ends; "step" if nothing
      is left. */
  lemma SanitizedIs(value: string, lead: string, core: string, trail: string)
    requires ToLower(TrimSpace(value)) == lead + core + trail
    requires forall i | 0 <= i < |lead| :: lead[i] in {' ', '-'}
    requires forall i | 0 <= i < |trail| :: trail[i] in {' ', '-'}
    requires core == "" ==> trail == ""
    requires core != "" ==> core[0] !in {' ', '-'} && core[|core| - 1] !in {' ', '-'}
    ensures |SanitizeName(value)| == if core == "" then 4 else |core|
    ensures core == "" ==> SanitizeName(value) == "step"
    ensures core != "" ==> forall i | 0 <= i < |core| ::
              SanitizeName(value)[i] == if core[i] == ' ' then '-' else core[i]
  {
    hide ToLower, TrimSpace;
    var dashed := DashSpaces(ToLower(TrimSpace(value)));
    var inner := DashSpaces(core);
    assert dashed == DashSpaces(lead) + inner + DashSpaces(trail);
    TrimDashes(DashSpaces(lead), inner, DashSpaces(trail));
  }

  lemma {:induction false} TrimDashes(lead: string, core: string, trail: string)
    requires (forall i | 0 <= i < |lead| :: lead[i] == '-') && forall i | 0 <= i < |trail| :: trail[i] == '-'
    requires (core == "" ==> trail == "") && (core != "" ==> core[0] != '-' && core[|core| - 1] != '-')
    ensures Trim(lead + core + trail, IsDash) == core
    decreases |lead| + |trail|
  {
    if lead != "" {
      assert (lead + core + trail)[1..] == lead[1..] + core + trail;
      TrimDashes(lead[1..], core, trail);
    } else {
      assert lead + core + trail == core + trail;
      if core != "" { assert (core + trail)[0] == core[0]; }
      assert TrimLeft(core + trail, IsDash) == core + trail;
      TrimTrail(core, trail);
    }
  }

  lemma {:induction false} TrimTrail(core: string, trail: string)
    requires forall i | 0 <= i < |trail| :: trail[i] == '-'
    requires core != "" ==> core[|core| - 1] != '-'
    ensures TrimRight(core + trail, IsDash) == core
  {
    if trail == "" {
      assert core + trail == core;
    } else {
      assert (core + trail)[..|core + trail| - 1] == core + trail[..|trail| - 1];
      TrimTrail(core, trail[..|trail| - 1]);
    }
  }
}
