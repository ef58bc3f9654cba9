/** Runs that commit something else than what was validated, at every place of a scope that allows it. */
module AliasedRuns {
  import opened Text
  import opened Files
  import opened GenerationValidate
  import opened Session
  import opened LintFacts
  import opened RepairFacts
  import opened CheckFacts
  import opened SessionInvariant
  import opened SessionRuns
  import opened SessionTheorems
  import opened AliasedScope
  import AutoRepair

  // ---------------------------------------------------------------------------------------------
  // Runs of two turns: some tool calls, and a finish call

  datatype Step = Step(call: ToolCall, world: World)

  function Uses(steps: seq<Step>): (calls: seq<ProviderCall>)
    ensures |calls| == |steps| && forall i | 0 <= i < |steps| :: calls[i] == Use(steps[i].call, steps[i].world)
  {
    seq(|steps|, i requires 0 <= i < |steps| => Use(steps[i].call, steps[i].world))
  }

  const FIRST_TURN := BeginTurn(INITIAL, 1)

  /** The state after the tool calls of the first turn. */
  ghost function After(cfg: Config, steps: seq<Step>): State {
    if steps == [] then FIRST_TURN
    else
      var last := steps[|steps| - 1];
      Execute(cfg, After(cfg, steps[..|steps| - 1]), 1, last.call, last.world)
  }

  lemma AfterOneMore(cfg: Config, steps: seq<Step>, step: Step)
    ensures After(cfg, steps + [step]) == Execute(cfg, After(cfg, steps), 1, step.call, step.world)
  {
    hide Execute;
    assert (steps + [step])[..|steps|] == steps;
  }

  lemma {:induction false} AfterKeepsInv(cfg: Config, steps: seq<Step>)
    ensures Inv(cfg, After(cfg, steps))
  {
    hide Inv, Execute;
    if steps == [] {
      InitialTurn(cfg);
      BeginTurnKeeps(cfg, INITIAL, 1);
    } else {
      var last := steps[|steps| - 1];
      AfterKeepsInv(cfg, steps[..|steps| - 1]);
      ExecuteKeepsInv(cfg, After(cfg, steps[..|steps| - 1]), 1, last.call, last.world);
    }
  }

  /** A turn of tool calls that ends with a validate takes the session there. */
  lemma {:induction false} TurnOfUses(cfg: Config, steps: seq<Step>, i: nat, readOnly: bool)
    requires i < |steps| && steps[|steps| - 1].call.tool == ValidateTool
    ensures HandleFrom(cfg, After(cfg, steps[..i]), 1, Uses(steps), i, readOnly)
         == (After(cfg, steps).(idle := 0), GoOn)
    decreases |steps| - i
  {
    hide Execute;
    var step := steps[i];
    var readOnly' := readOnly && IsReadOnly(step.call.tool);
    assert steps[..i + 1] == steps[..i] + [step];
    AfterOneMore(cfg, steps[..i], step);
    if i + 1 < |steps| {
      TurnOfUses(cfg, steps, i + 1, readOnly');
    } else {
      assert steps[..i + 1] == steps;
      assert HandleFrom(cfg, After(cfg, steps), 1, Uses(steps), i + 1, readOnly')
          == (CloseTurn(After(cfg, steps), false), GoOn);
    }
  }

  /** The provider makes these calls in the first turn and finishes in the second. */
  function Script(steps: seq<Step>, w: World): seq<TurnInput> {
    [TurnInput(Calls(Uses(steps)), w), TurnInput(Calls([Finish(true)]), w)]
  }

  lemma RunOfUses(cfg: Config, steps: seq<Step>, w: World)
    requires steps != [] && steps[|steps| - 1].call.tool == ValidateTool
    requires var s := After(cfg, steps);
             s.lintPassed && CandidateFiles(s.candidates) != [] && s.failures <= cfg.verificationBudget
    ensures Run(cfg, Script(steps, w), TurnInput(ProviderFailed, w))
         == (BeginTurn(After(cfg, steps).(idle := 0), 2), Finished(CandidateFiles(After(cfg, steps).candidates), true))
  {
    hide After, Execute, HandleFrom, CandidateFiles, AutoValidates, TurnLimit;
    var script, last := Script(steps, w), TurnInput(ProviderFailed, w);
    var s := After(cfg, steps);
    FirstTurn(cfg, steps, w);
    SecondTurn(cfg, s.(idle := 0), w);
    LimitValue(cfg);
    assert RunFrom(cfg, s.(idle := 0), 2, script, last)
        == (BeginTurn(s.(idle := 0), 2), Finished(CandidateFiles(s.candidates), true));
  }

  lemma FirstTurn(cfg: Config, steps: seq<Step>, w: World)
    requires steps != [] && steps[|steps| - 1].call.tool == ValidateTool
    requires After(cfg, steps).failures <= cfg.verificationBudget
    ensures RunTurn(cfg, INITIAL, 1, TurnInput(Calls(Uses(steps)), w)) == (After(cfg, steps).(idle := 0), None)
  {
    hide Execute, HandleFrom, CandidateFiles, AutoValidates;
    TurnOfUses(cfg, steps, 0, true);
    assert steps[..0] == [];
    var s := After(cfg, steps).(idle := 0);
    EndsInValidate(cfg, steps);
    NoBurstAfterValidate(s);
  }

  lemma EndsInValidate(cfg: Config, steps: seq<Step>)
    requires steps != [] && steps[|steps| - 1].call.tool == ValidateTool
    ensures var events := After(cfg, steps).events; events != [] && events[|events| - 1].name == "validate"
  {
    hide RunValidate;
  }

  lemma SecondTurn(cfg: Config, s: State, w: World)
    requires s.lintPassed && CandidateFiles(s.candidates) != []
    ensures RunTurn(cfg, s, 2, TurnInput(Calls([Finish(true)]), w))
         == (BeginTurn(s, 2), Some(Finished(CandidateFiles(s.candidates), true)))
  {
    hide CandidateFiles, AutoValidates;
  }

  // ---------------------------------------------------------------------------------------------
  // Calls that stage one name of a place and not another

  function WriteStaged(raw: string): ToolCall {
    ToolCall(FileWrite, raw, [], STAGED, 0, 0, "", "", false)
  }

  lemma WriteStages(cfg: Config, steps: seq<Step>, raw: string, p: string, w: World)
    requires cfg.normalize(raw) == Some(p) && p in AllowedPaths(cfg.plan)
    ensures var s, s' := After(cfg, steps), After(cfg, steps + [Step(WriteStaged(raw), w)]);
            s'.candidates == s.candidates[p := StagedFile(p)] && s'.failures == s.failures
  {
    hide AllowedPaths, NormalizeContent, After;
    AfterOneMore(cfg, steps, Step(WriteStaged(raw), w));
    TextsAreNormal(p);
  }

  /** A complaint about the prepare file r. */
  function Complaint(r: string): string {
    r + "\n" + "E_KIND_ROLE_MISMATCH role prepare"
  }

  lemma OccursInside(a: string, b: string, c: string)
    ensures Contains(a + b + c, b)
  {
    IndexFirst(a + b + c, b);
    MiddleSlice(a, b, c);
    assert OccursAt(a + b + c, b, |a|);
  }

  lemma ComplaintFacts(r: string)
    requires TrimSpace(r) == r != ""
    ensures TrimSpace(Complaint(r)) == Complaint(r) && IsPrepareIssue(Complaint(r)) && Contains(Complaint(r), r)
  {
    hide Contains, Trim;
    var m := Complaint(r);
    TrimFixed(r, IsSpace);
    TrimFixed(m, IsSpace);
    assert m[|m| - 1] == 'e' && m[0] == r[0];
    OccursInside("", r, "\n" + "E_KIND_ROLE_MISMATCH role prepare");
    OccursInside(r + "\n", "E_KIND_ROLE_MISMATCH", " role prepare");
    OccursInside(r + "\n" + "E_KIND_ROLE_MISMATCH ", "role prepare", "");
    assert m == "" + r + ("\n" + "E_KIND_ROLE_MISMATCH role prepare");
    assert m == (r + "\n") + "E_KIND_ROLE_MISMATCH" + " role prepare";
    assert m == (r + "\n" + "E_KIND_ROLE_MISMATCH ") + "role prepare" + "";
  }

  /** A listed prepare file that the message mentions is found, or one before it. */
  lemma {:induction false} SomeIsMentioned(files: seq<GeneratedFile>, message: string, f: GeneratedFile)
    requires f in files && Droppable(f.path) && Contains(TrimSpace(message), f.path)
    ensures MentionedPrepare(files, message).Some?
    ensures Contains(TrimSpace(message), MentionedPrepare(files, message).value)
  {
    hide Contains, TrimSpace, HasSuffix;
    if files[0] != f && !(Droppable(files[0].path) && Contains(TrimSpace(message), files[0].path)) {
      SomeIsMentioned(files[1..], message, f);
    }
  }

  function DropWorld(p: string, t: Target): World {
    Reacting(DiskAt({t}, STAGED), false, Complaint(p))
  }

  /** With nothing staged, the names of t are linted with the text on disk. */
  lemma DropLint(cfg: Config, p: string, t: Target)
    ensures forall f :: f in LintFiles(cfg, map[], DropWorld(p, t).disk)
                        <==> NamesPlace(cfg, f.path, t) && f == StagedFile(f.path)
    ensures GoodFiles(cfg, LintFiles(cfg, map[], DropWorld(p, t).disk))
  {
    hide AllowedPaths, LintFiles, NormalizeContent, OnDisk, GoodFile;
    LintMembers(cfg, map[], DropWorld(p, t).disk);
    forall r ensures OnDisk(cfg, DropWorld(p, t).disk, r)
                  == if cfg.resolve(r) == Some(t) then Some(StagedFile(r)) else None {
      TextsAreNormal(r);
      OnDiskAt(cfg, {t}, STAGED, r);
    }
  }

  /** The complaint has the repair drop a name of t, of which there is another. */
  lemma ComplaintDrops(cfg: Config, p: string, t: Target)
    requires NamesPlace(cfg, p, t) && Droppable(p) && !OneName(cfg, t)
    ensures var lint := LintFiles(cfg, map[], DropWorld(p, t).disk);
            var diags := DropWorld(p, t).diagnose(FileInvalid(0));
            DropsPrepare(lint, diags) && PreparePath(lint, diags).Some?
            && NamesPlace(cfg, PreparePath(lint, diags).value, t)
  {
    hide AllowedPaths, LintFiles, Contains, TrimSpace, IsPrepareIssue, MentionedPrepare, Droppable, GoodFiles,
         Complaint;
    var lint := LintFiles(cfg, map[], DropWorld(p, t).disk);
    var diags := DropWorld(p, t).diagnose(FileInvalid(0));
    DropLint(cfg, p, t);
    AllowedPathIsClean(cfg.plan, p);
    ComplaintFacts(p);
    SomeIsMentioned(lint, Complaint(p), StagedFile(p));
    MentionedIsListed(lint, Complaint(p));
    var path := MentionedPrepare(lint, Complaint(p)).value;
    AllowedPathIsClean(cfg.plan, path);
    assert PreparePath(lint, diags) == Some(path);
    var q :| NamesPlace(cfg, q, t) && q != path;
    AllowedPathIsClean(cfg.plan, q);
    assert StagedFile(q) in lint;
  }

  /** No set of files pleases that world, and the complaint about it is always the same. */
  lemma DropRejects(cfg: Config, p: string, t: Target, files: seq<GeneratedFile>)
    requires forall f | f in files :: AllowedGeneratedPath(f.path) && cfg.resolve(f.path).Some? && !f.delete
    requires files != []
    ensures ValidateIn(cfg, DropWorld(p, t), files) == Rejected(FileInvalid(0))
  {
    hide AllowedGeneratedPath, WriteAll, ContractSpec;
    var w := DropWorld(p, t);
    assert w.stageOk == (_ => true);
    AllWritten(cfg.resolve, WorkflowPart(w.disk.files), files);
  }

  /** The repair attempt stages all names of t but the dropped one, and they are looked at again. */
  lemma DropAttempt(cfg: Config, s: State, p: string, t: Target) returns (dropped: string)
    requires NamesPlace(cfg, p, t) && Droppable(p) && !OneName(cfg, t) && s == FIRST_TURN.(idle := 0)
    ensures NamesPlace(cfg, dropped, t)
    ensures var w := DropWorld(p, t);
            var attempt := TryRepair(cfg, s, w, LintFiles(cfg, map[], w.disk), w.diagnose(FileInvalid(0)));
            attempt.files.Some? && attempt.files.value != [] &&
            (forall f | f in attempt.files.value :: NamesPlace(cfg, f.path, t) && f == StagedFile(f.path)) &&
            (forall q :: q in attempt.state.candidates <==> NamesPlace(cfg, q, t) && q != dropped) &&
            (forall q | q in attempt.state.candidates :: attempt.state.candidates[q] == StagedFile(q)) &&
            attempt.state.failures == s.failures
  {
    hide LintFiles, DropWorld, TryRepair, PreparePath, DropsPrepare, NamesPlace, OneName, Droppable, GoodFiles,
         DistinctPaths, RemoveInvalidPrepare, AutoRepair.RepairSpec;
    var w := DropWorld(p, t);
    var lint := LintFiles(cfg, map[], w.disk);
    var diags := w.diagnose(FileInvalid(0));
    DropLint(cfg, p, t);
    assert StagedFile(p) in lint;
    ComplaintDrops(cfg, p, t);
    dropped := PreparePath(lint, diags).value;
    DroppingExcludesRepair(cfg, s, w, lint, diags);
    AttemptStaging(cfg, s, w, diags);
    var attempt := TryRepair(cfg, s, w, lint, diags);
    forall q ensures q in attempt.state.candidates <==> NamesPlace(cfg, q, t) && q != dropped {
      assert StagedFile(q) in attempt.files.value <==> StagedFile(q) in lint && q != dropped;
    }
  }

  /** What a validate in that world does to the first turn, before its transcript line. */
  lemma DropValidate(cfg: Config, p: string, t: Target) returns (dropped: string)
    requires Aliased(cfg, t) && NamesPlace(cfg, p, t) && Droppable(p)
    ensures NamesPlace(cfg, dropped, t)
    ensures var s := RunValidate(cfg, FIRST_TURN, DropWorld(p, t)).0;
            s.failures == 1 && (forall q :: q in s.candidates <==> NamesPlace(cfg, q, t) && q != dropped)
            && forall q | q in s.candidates :: s.candidates[q] == StagedFile(q)
  {
    hide LintFiles, DropWorld, TryRepair, ValidateIn, AllowedPaths, AllowedGeneratedPath, OneName, OutOfReach,
         EntryCannotPass, EntryInReach, Droppable, GoodFiles, Nameable;
    var w := DropWorld(p, t);
    var lint := LintFiles(cfg, map[], w.disk);
    var s0 := FIRST_TURN.(idle := 0);
    DropLint(cfg, p, t);
    assert StagedFile(p) in lint;
    DropRejects(cfg, p, t, lint);
    dropped := DropAttempt(cfg, s0, p, t);
    DropRejects(cfg, p, t, TryRepair(cfg, s0, w, lint, w.diagnose(FileInvalid(0))).files.value);
  }

  lemma DropStages(cfg: Config, p: string, t: Target) returns (dropped: string)
    requires Aliased(cfg, t) && NamesPlace(cfg, p, t) && Droppable(p)
    ensures NamesPlace(cfg, dropped, t)
    ensures var s := After(cfg, [Step(VALIDATE_CALL, DropWorld(p, t))]);
            s.failures == 1 && (forall q :: q in s.candidates <==> NamesPlace(cfg, q, t) && q != dropped)
            && forall q | q in s.candidates :: s.candidates[q] == StagedFile(q)
  {
    hide RunValidate, Aliased, NamesPlace, DropWorld, Droppable;
    dropped := DropValidate(cfg, p, t);
    assert [Step(VALIDATE_CALL, DropWorld(p, t))][..0] == [];
  }

  // ---------------------------------------------------------------------------------------------
  // The runs

  /** Some calls of a first turn split the names of an aliased place, at the cost of one failed validate. */
  lemma SplitIsReached(cfg: Config, t: Target) returns (steps: seq<Step>)
    requires Aliased(cfg, t)
    ensures var s := After(cfg, steps); Split(cfg, s.candidates, t) && s.failures <= 1
  {
    hide After, AllowedPaths, AllowedGeneratedPath, InWorkflows, RequiresEntryScenario, TrimSpace, DropWorld,
         OneName, EntryInReach, Droppable;
    steps := NamesApart(cfg, t);
    if NeedsEntry(cfg, t) && Nameable(cfg, Entry(cfg)) {
      EntryInScope(cfg);
      var raw :| cfg.normalize(raw) == Some(Entry(cfg));
      var w := DropWorld(Entry(cfg), t);
      WriteStages(cfg, steps, raw, Entry(cfg), w);
      steps := steps + [Step(WriteStaged(raw), w)];
    }
  }

  /** One name of t is staged and another is not; everything staged names t. */
  ghost predicate Apart(cfg: Config, s: State, t: Target) {
    && (exists p :: p in s.candidates && NamesPlace(cfg, p, t))
    && (exists q :: q !in s.candidates && NamesPlace(cfg, q, t))
    && forall k | k in s.candidates :: s.candidates[k] == StagedFile(k) && NamesPlace(cfg, k, t)
  }

  lemma AnotherName(cfg: Config, t: Target, p: string) returns (q: string)
    requires !OneName(cfg, t)
    ensures NamesPlace(cfg, q, t) && q != p
  {
    hide NamesPlace;
    var a, b :| NamesPlace(cfg, a, t) && NamesPlace(cfg, b, t) && a != b;
    q := if a != p then a else b;
  }

  lemma WriteApart(cfg: Config, t: Target, p: string) returns (steps: seq<Step>)
    requires NamesPlace(cfg, p, t) && Nameable(cfg, p) && !OneName(cfg, t)
    ensures var s := After(cfg, steps); s.failures == 0 && Apart(cfg, s, t)
  {
    hide Execute, AllowedPaths, OneName, DropWorld;
    var raw := RawName(cfg, p);
    WriteStages(cfg, [], raw, p, DropWorld(p, t));
    steps := [Step(WriteStaged(raw), DropWorld(p, t))];
    assert [] + steps == steps;
    var q := AnotherName(cfg, t, p);
  }

  lemma DropApart(cfg: Config, t: Target, p: string) returns (steps: seq<Step>)
    requires Aliased(cfg, t) && NamesPlace(cfg, p, t) && Droppable(p)
    ensures var s := After(cfg, steps); s.failures == 1 && Apart(cfg, s, t)
  {
    hide After, NamesPlace, DropWorld, Droppable, OneName, OutOfReach, EntryCannotPass, EntryInReach, InWorkflows,
         AllowedGeneratedPath;
    var q := DropStages(cfg, p, t);
    steps := [Step(VALIDATE_CALL, DropWorld(p, t))];
    var k := AnotherName(cfg, t, q);
  }

  /** Write a name that a call can name, or have one that ends like a prepare file dropped. */
  lemma NamesApart(cfg: Config, t: Target) returns (steps: seq<Step>)
    requires Aliased(cfg, t)
    ensures var s := After(cfg, steps); s.failures <= 1 && Apart(cfg, s, t)
  {
    hide After, NamesPlace, Droppable, Nameable, OneName, EntryCannotPass, EntryInReach, InWorkflows, Apart,
         AllowedGeneratedPath;
    var p :| NamesPlace(cfg, p, t) && (Nameable(cfg, p) || Droppable(p));
    if Nameable(cfg, p) {
      steps := WriteApart(cfg, t, p);
    } else {
      steps := DropApart(cfg, t, p);
    }
  }

  lemma RawName(cfg: Config, p: string) returns (raw: string)
    requires Nameable(cfg, p)
    ensures cfg.normalize(raw) == Some(p)
  {
    raw :| cfg.normalize(raw) == Some(p);
  }

  /** A validate of a split staging passes, and commits something else than what it saw. */
  lemma ValidateSplit(cfg: Config, steps: seq<Step>, t: Target)
    requires Aliased(cfg, t) && Split(cfg, After(cfg, steps).candidates, t)
    ensures var w := Reacting(DiskAt(Places(cfg, t), ON_DISK), true, "");
            var s, s' := After(cfg, steps), After(cfg, steps + [Step(VALIDATE_CALL, w)]);
            s'.candidates == s.candidates && s'.failures == s.failures && s'.lintPassed && !StagedSince(s'.history) &&
            LastCheck(s'.history).Some? && LastCheck(s'.history).value.verdict.Passed? &&
            Lookup(LastCheck(s'.history).value.verdict.shown, t) == Some(ON_DISK)
  {
    hide Aliased, Split, LintFiles, ValidateIn, LastCheck, StagedSince, Places, After;
    var w := Reacting(DiskAt(Places(cfg, t), ON_DISK), true, "");
    var s := After(cfg, steps);
    SplitPasses(cfg, s.candidates, t);
    AfterOneMore(cfg, steps, Step(VALIDATE_CALL, w));
    var r := RunValidate(cfg, s, w);
    LogReads(r.0, 1, "validate", true, r.1);
  }

  /** At a place with several names within reach, some run of two turns breaks the promise: the validators see
      the text on disk, the run finishes with nothing staged since, and its files put another text there. */
  lemma AliasBreaksCommit(cfg: Config, t: Target) returns (script: seq<TurnInput>, last: TurnInput)
    requires Aliased(cfg, t) && cfg.verificationBudget >= 1
    ensures var (s, end) := Run(cfg, script, last);
            end.Finished? && !StagedSince(s.history) &&
            LastCheck(s.history).Some? && LastCheck(s.history).value.verdict.Passed? &&
            var check := LastCheck(s.history).value;
            var written := WriteAll(cfg.resolve, _ => true, check.world.disk.files, end.files);
            written.failure.None? && Lookup(written.tree, t) == Some(STAGED) &&
            Lookup(check.verdict.shown, t) == Some(ON_DISK) && !CommitAgrees(cfg, s, _ => true, t)
  {
    hide After, Aliased, Split, WriteAll, LastCheck, StagedSince, CandidateFiles, Run, Script;
    var steps := SplitIsReached(cfg, t);
    var w := Reacting(DiskAt(Places(cfg, t), ON_DISK), true, "");
    ValidateSplit(cfg, steps, t);
    var all := steps + [Step(VALIDATE_CALL, w)];
    var s := After(cfg, all);
    var check := LastCheck(s.history).value;
    SplitCommits(cfg, s.candidates, t, check.world.disk.files);
    RunOfUses(cfg, all, w);
    script, last := Script(all, w), TurnInput(ProviderFailed, w);
  }

  /** A finished run with nothing staged since its last validate commits at t what that validate saw. */
  ghost predicate RunAgrees(cfg: Config, script: seq<TurnInput>, last: TurnInput, commitOk: Permissions, t: Target) {
    var (s, end) := Run(cfg, script, last);
    end.Finished? && !StagedSince(s.history) ==> CommitAgrees(cfg, s, commitOk, t)
  }

  ghost predicate EveryRunAgrees(cfg: Config, t: Target) {
    forall script, last, commitOk :: RunAgrees(cfg, script, last, commitOk, t)
  }

  /** If names of t are rejected, one of them blocks staging: not all read like a complaint about a prepare file. */
  ghost predicate PlainRejections(cfg: Config, t: Target) {
    (exists r :: NamesPlace(cfg, r, t) && BlocksStaging(r))
    || forall r | NamesPlace(cfg, r, t) :: AllowedGeneratedPath(r)
  }

  /** Every finished run of the session commits at t what its last verdict approved, exactly if t is harmless:
      it has one name in the scope, or no call can reach its names one by one, or one of them blocks staging, or
      no file set can pass for want of an entry scenario. A budget is at least one. */
  lemma HarmlessIff(cfg: Config, t: Target)
    requires InWorkflows(t) && cfg.verificationBudget >= 1
    requires PlainRejections(cfg, t) && EntryInReach(cfg, t)
    ensures Harmless(cfg, t) <==> EveryRunAgrees(cfg, t)
  {
    hide AllowedGeneratedPath, InWorkflows, BlocksStaging, EntryCannotPass, CommitAgrees, StagedSince, LastCheck,
         WriteAll, Lookup, AllowedPaths, Run, OneName, OutOfReach, EntryInReach, CandidateFiles;
    if Harmless(cfg, t) {
      forall script, last, commitOk ensures RunAgrees(cfg, script, last, commitOk, t) {
        if Run(cfg, script, last).1.Finished? && !StagedSince(Run(cfg, script, last).0.history) {
          CommitRefinesValidation(cfg, script, last, commitOk, t);
        }
      }
    } else {
      var script, last := AliasBreaksCommit(cfg, t);
      assert !RunAgrees(cfg, script, last, _ => true, t);
    }
  }

  // ---------------------------------------------------------------------------------------------
  // Two places, one of each kind

  const VARS := "workflows/vars.yaml"
  const DOT_VARS := "./workflows/vars.yaml"
  const SLASHES := "workflows/scenarios//a.yaml"
  const DOT := "workflows/scenarios/./a.yaml"
  const SCENARIO := "workflows/scenarios/a.yaml"

  function CleanPath(p: string): string {
    if p == DOT_VARS then VARS else if p == SLASHES || p == DOT then SCENARIO else p
  }

  /** A scope of four paths that name two places. */
  const EXAMPLE := Config(Plan([VARS, SLASHES], [DOT_VARS, DOT], [], [], "", "", "", false, [], OtherRoute),
                          p => Some(CleanPath(p)), p => Some(CleanPath(p)), true, 1)

  lemma NoDoubleDot(s: string)
    requires forall i | 0 <= i < |s| - 1 :: s[i] != '.' || s[i + 1] != '.'
    ensures !Contains(s, "..")
  {
    forall j ensures !OccursAt(s, "..", j) {
      if 0 <= j <= |s| - 2 {
        assert s[j..j + 2][0] == s[j] && s[j..j + 2][1] == s[j + 1];
      }
    }
    IndexFirst(s, "..");
  }

  lemma ExampleTrimmed(p: string)
    requires p in {VARS, DOT_VARS, SLASHES, DOT}
    ensures TrimSpace(p) == p
  {
    hide Trim;
    TrimFixed(p, IsSpace);
    assert p[0] in {'w', '.'} && p[|p| - 1] == 'l';
  }

  lemma ExampleHasNoDoubleDot(p: string)
    requires p in {VARS, DOT_VARS, SLASHES, DOT}
    ensures !Contains(p, "..")
  {
    hide Contains;
    if p == VARS { NoDoubleDot(VARS); }
    else if p == DOT_VARS { NoDoubleDot(DOT_VARS); }
    else if p == SLASHES { NoDoubleDot(SLASHES); }
    else { NoDoubleDot(DOT); }
  }

  lemma VarsAllowed(p: string)
    requires p == VARS || p == DOT_VARS
    ensures AllowedGeneratedPath(p)
  {
    hide TrimSpace, Contains;
    ExampleTrimmed(p);
    ExampleHasNoDoubleDot(p);
    if p == DOT_VARS {
      assert DOT_VARS[1..] == "/workflows/vars.yaml";
    }
  }

  lemma ScenariosAllowed(p: string)
    requires p == SLASHES || p == DOT
    ensures AllowedGeneratedPath(p)
  {
    hide TrimSpace, Contains;
    ExampleTrimmed(p);
    ExampleHasNoDoubleDot(p);
    assert p[..20] == "workflows/scenarios/";
  }

  lemma ExampleStays(p: string)
    requires p in {VARS, DOT_VARS, SLASHES, DOT}
    ensures !Droppable(p)
  {
    hide TrimSpace;
    ExampleTrimmed(p);
    var end := p[|p| - 12..];
    assert end[5] == p[|p| - 7] != 'e';
    assert "prepare.yaml"[5] == 'r';
  }

  lemma ExamplePath(p: string)
    requires p in {VARS, DOT_VARS, SLASHES, DOT}
    ensures AllowedGeneratedPath(p) && !Droppable(p)
  {
    hide AllowedGeneratedPath, Droppable;
    ExampleStays(p);
    if p == VARS || p == DOT_VARS { VarsAllowed(p); } else { ScenariosAllowed(p); }
  }

  lemma BlankStaysBlank()
    ensures TrimSpace("") == ""
  {
    TrimFixed("", IsSpace);
  }

  lemma ExampleScope()
    ensures AllowedPaths(EXAMPLE.plan) == {VARS, DOT_VARS, SLASHES, DOT}
    ensures Entry(EXAMPLE) == ""
  {
    hide TrimSpace;
    forall p | p in {VARS, DOT_VARS, SLASHES, DOT} ensures TrimSpace(p) == p {
      ExampleTrimmed(p);
    }
    BlankStaysBlank();
    var a, c := [VARS, SLASHES], [DOT_VARS, DOT];
    assert a[0] in a && a[1] in a && c[0] in c && c[1] in c;
    assert Cleaned(a) == {VARS, SLASHES} && Cleaned(c) == {DOT_VARS, DOT};
    assert [""][0] in [""];
    assert Cleaned([]) == Cleaned([""]) == {};
  }

  lemma ExampleNames()
    ensures Aliased(EXAMPLE, VARS) && OutOfReach(EXAMPLE, SCENARIO) && !OneName(EXAMPLE, SCENARIO)
    ensures forall p | p in AllowedPaths(EXAMPLE.plan) :: AllowedGeneratedPath(p)
  {
    hide AllowedPaths, TrimSpace, AllowedGeneratedPath, RequiresEntryScenario;
    ExampleScope();
    forall p | p in {VARS, DOT_VARS, SLASHES, DOT} ensures AllowedGeneratedPath(p) && !Droppable(p) {
      ExamplePath(p);
    }
    assert VARS != DOT_VARS && SLASHES != DOT && VARS != SCENARIO;
    assert NamesPlace(EXAMPLE, VARS, VARS) && NamesPlace(EXAMPLE, DOT_VARS, VARS);
    assert NamesPlace(EXAMPLE, SLASHES, SCENARIO) && NamesPlace(EXAMPLE, DOT, SCENARIO);
    assert EXAMPLE.normalize(VARS) == Some(VARS);
  }

  /** The two names of the variables file can be told apart, since a call can write one of them; the two of the
      scenario cannot, since both are cleaned to a third. So some run breaks the promise at the one place, and
      none does at the other. */
  lemma CleaningDecides()
    ensures Aliased(EXAMPLE, VARS) && OutOfReach(EXAMPLE, SCENARIO) && !OneName(EXAMPLE, SCENARIO)
    ensures !EveryRunAgrees(EXAMPLE, VARS) && EveryRunAgrees(EXAMPLE, SCENARIO)
  {
    hide AllowedPaths, TrimSpace, AllowedGeneratedPath, EveryRunAgrees, RequiresEntryScenario, OneName, OutOfReach;
    ExampleNames();
    ExampleScope();
    HarmlessIff(EXAMPLE, VARS);
    HarmlessIff(EXAMPLE, SCENARIO);
  }
}
