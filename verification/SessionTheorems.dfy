/** What the invariants of the authoring session give its users. */
module SessionTheorems {
  import opened Text
  import opened Files
  import opened GenerationValidate
  import opened Session
  import opened LintFacts
  import opened RepairFacts
  import opened SessionInvariant
  import opened SessionRuns
  import opened CheckFacts
  import AutoRepair

  // ---------------------------------------------------------------------------------------------
  // Commit refines validation

  /** A path of the plan's scope that names the place t. */
  ghost predicate NamesPlace(cfg: Config, p: string, t: Target) {
    p in AllowedPaths(cfg.plan) && cfg.resolve(p) == Some(t)
  }

  ghost predicate OneName(cfg: Config, t: Target) {
    forall p, q | NamesPlace(cfg, p, t) && NamesPlace(cfg, q, t) :: p == q
  }

  /** A path of the plan's scope that may not be written, and that no repair drops. */
  ghost predicate Obstacle(cfg: Config, p: string) {
    p in AllowedPaths(cfg.plan) && BlocksStaging(p) && !Droppable(p)
  }

  /** The plan requires an entry scenario that no file set can hold and pass: it may not be written itself, or
      it only comes from disk, along with a name of its place that may not be written. */
  ghost predicate EntryCannotPass(cfg: Config) {
    var entry := TrimSpace(cfg.plan.entryScenario);
    entry != "" && RequiresEntryScenario(cfg.plan) &&
    (!AllowedGeneratedPath(entry) || cfg.resolve(entry).None?
     || (!Nameable(cfg, entry) && exists q :: Obstacle(cfg, q) && cfg.resolve(q) == cfg.resolve(entry)))
  }

  /** No tool call can name the place, and no repair drops one of its names: they are staged all or none. */
  ghost predicate OutOfReach(cfg: Config, t: Target) {
    forall p | NamesPlace(cfg, p, t) :: !Nameable(cfg, p) && !Droppable(p)
  }

  /** What keeps the commit at t true to the validation, whatever a session does: t has one name in the
      scope, or no call can reach it, or one of its names blocks staging, or no file set can pass at all. */
  ghost predicate Harmless(cfg: Config, t: Target) {
    OneName(cfg, t) || OutOfReach(cfg, t) || (exists p :: NamesPlace(cfg, p, t) && BlocksStaging(p))
    || EntryCannotPass(cfg)
  }

  /** The tree after writing the files agrees at t with the tree the validators saw: exactly where a file
      is written, up to trailing line breaks elsewhere. */
  ghost predicate AgreeAt(resolve: Resolver, shown: Tree, written: Tree, files: seq<GeneratedFile>, t: Target) {
    var seen, left := Lookup(shown, t), Lookup(written, t);
    if exists f :: f in files && resolve(f.path) == Some(t) then seen == left && left.Some?
    else seen.Some? == left.Some? && (seen.Some? ==> SameButNewlines(seen.value, left.value))
  }

  /** The latest verdict passed, and committing the candidates to the disk it saw agrees with it at t. */
  ghost predicate CommitAgrees(cfg: Config, s: State, commitOk: Permissions, t: Target) {
    LastCheck(s.history).Some? && LastCheck(s.history).value.verdict.Passed? &&
    var check := LastCheck(s.history).value;
    var files := CandidateFiles(s.candidates);
    var written := WriteAll(cfg.resolve, commitOk, check.world.disk.files, files);
    written.failure.None? ==> AgreeAt(cfg.resolve, check.verdict.shown, written.tree, files, t)
  }

  /** In a state whose latest verdict passed and where nothing was staged since, the commit agrees with the
      verdict at every harmless place. */
  lemma CommitMatchesVerdict(cfg: Config, s: State, commitOk: Permissions, t: Target)
    requires Inv(cfg, s) && s.lintPassed && !StagedSince(s.history) && Harmless(cfg, t) && InWorkflows(t)
    ensures CommitAgrees(cfg, s, commitOk, t)
  {
    hide CandidateFiles, StageAll, WriteAll, Scoped, Tracked, Aligned, ShownFrom, InWorkflows, AllowedPaths, FilePasses,
         ContractSpec, SameButNewlines, SameWriterAt, Harmless, Complete, Grouped, Covered;
    var check := LastCheck(s.history).value;
    LastCheckInHistory(s.history);
    assert CheckSound(cfg, check);
    var w, disk := check.world, check.world.disk;
    PassesIff(cfg.resolve, w.checks, w.stageOk, disk, check.shown, cfg.plan);
    var files := CandidateFiles(s.candidates);
    SameWriter(cfg, check, s.candidates, t);
    if WriteAll(cfg.resolve, commitOk, disk.files, files).failure.None? {
      CommitMatchesStage(cfg.resolve, w.stageOk, commitOk, disk, check.shown, files, t);
    }
  }

  /** A passed check of what is staged now. */
  ghost predicate PassedCheck(cfg: Config, check: Record, c: Candidates) {
    && check.Checked? && check.verdict.Passed? && CheckSound(cfg, check) && Scoped(cfg, c) && Grouped(cfg, c)
    && ShownFrom(cfg.resolve, check.world.disk, check.shown, CandidateFiles(c))
  }

  /** The last file shown at a harmless place is the last one staged there. */
  lemma SameWriter(cfg: Config, check: Record, c: Candidates, t: Target)
    requires PassedCheck(cfg, check, c) && Harmless(cfg, t) && InWorkflows(t)
    ensures SameWriterAt(cfg.resolve, check.shown, CandidateFiles(c), t)
  {
    hide PassedCheck, OneName, OutOfReach, NamesPlace, BlocksStaging, EntryCannotPass, InWorkflows, CandidateFiles;
    EntryPassed(cfg, check, c);
    if LastWriter(cfg.resolve, CandidateFiles(c), t).Some? {
      if OneName(cfg, t) {
        OnlyWriter(cfg, check, c, t);
      } else if OutOfReach(cfg, t) {
        GroupWriter(cfg, check, c, t);
      } else {
        var p :| NamesPlace(cfg, p, t) && BlocksStaging(p);
        BlockedMeansOffDisk(cfg, check, c, p, t);
        OffDiskWriter(cfg, check, c, t);
      }
    }
  }

  /** A place with one name is shown once. */
  lemma OnlyWriter(cfg: Config, check: Record, c: Candidates, t: Target)
    requires PassedCheck(cfg, check, c) && OneName(cfg, t) && LastWriter(cfg.resolve, CandidateFiles(c), t).Some?
    ensures LastWriter(cfg.resolve, check.shown, t) == LastWriter(cfg.resolve, CandidateFiles(c), t)
  {
    hide CandidateFiles, AllowedPaths, NormalizeFile, Complete, Validate, Grouped;
    var f := LastWriter(cfg.resolve, CandidateFiles(c), t).value;
    assert f in check.shown;
    var g := LastWriter(cfg.resolve, check.shown, t).value;
    assert GoodFile(cfg, f) && GoodFile(cfg, g);
    assert NamesPlace(cfg, f.path, t) && NamesPlace(cfg, g.path, t);
    OnePerPath(check.shown, f, g);
  }

  /** A file set that passed has staged the entry scenario it needed. */
  lemma EntryPassed(cfg: Config, check: Record, c: Candidates)
    requires PassedCheck(cfg, check, c)
    ensures !EntryCannotPass(cfg)
  {
    hide AllowedPaths, AllowedGeneratedPath, BlocksStaging, RequiresEntryScenario, TrimSpace, PassedCheck, Nameable,
         Droppable;
    var entry := TrimSpace(cfg.plan.entryScenario);
    if entry != "" && RequiresEntryScenario(cfg.plan) {
      EntryWasShown(cfg, check, c);
      EntryInScope(cfg);
      NoneBlocked(cfg, check, c);
      forall q | Obstacle(cfg, q) && cfg.resolve(q) == cfg.resolve(entry) ensures Nameable(cfg, entry) {
        if !Nameable(cfg, entry) { GroupWasShown(cfg, check, c, entry, q); }
      }
    }
  }

  lemma EntryInScope(cfg: Config)
    requires TrimSpace(cfg.plan.entryScenario) != ""
    ensures TrimSpace(cfg.plan.entryScenario) in AllowedPaths(cfg.plan)
  {
    hide TrimSpace;
    assert cfg.plan.entryScenario in [cfg.plan.entryScenario];
  }

  lemma EntryWasShown(cfg: Config, check: Record, c: Candidates)
    requires PassedCheck(cfg, check, c)
    requires TrimSpace(cfg.plan.entryScenario) != "" && RequiresEntryScenario(cfg.plan)
    ensures var entry := TrimSpace(cfg.plan.entryScenario);
            entry in PathsOf(check.shown) && AllowedGeneratedPath(entry) && cfg.resolve(entry).Some?
  {
    hide AllowedPaths, NormalizeFile, Complete, AllowedGeneratedPath, RequiresEntryScenario, StageAll, FilePasses,
         TrimSpace, OutsideIssues, EntryIssues, Grouped, ShownFrom;
    var w := check.world;
    PassesIff(cfg.resolve, w.checks, w.stageOk, w.disk, check.shown, cfg.plan);
    ContractBlocksIff(check.shown, cfg.plan);
    WrittenWhenStaged(cfg, w, check.shown);
    forall f | f in check.shown ensures TrimSpace(f.path) == f.path {
      assert GoodFile(cfg, f);
      AllowedPathIsClean(cfg.plan, f.path);
    }
  }

  /** What follows a shown path was shown too, or was linted on disk. */
  lemma GroupWasShown(cfg: Config, check: Record, c: Candidates, p: string, q: string)
    requires PassedCheck(cfg, check, c) && p in PathsOf(check.shown) && Follows(cfg, p, q)
    ensures q in PathsOf(check.linted) || q in PathsOf(check.shown)
  {
    hide AllowedPaths, GoodFile, Nameable, Droppable, CandidateFiles, NormalizeContent, InOrder, Validate,
         DistinctPaths;
    var f :| f in check.shown && f.path == p;
    CandidateMembers(cfg, c);
    if f in CandidateFiles(c) {
      assert c[q] in CandidateFiles(c);
    } else {
      assert OnDisk(cfg, check.world.disk, q).Some?;
    }
  }

  lemma NoneBlocked(cfg: Config, check: Record, c: Candidates)
    requires PassedCheck(cfg, check, c)
    ensures forall q | q in PathsOf(check.linted) || q in PathsOf(check.shown) :: !BlocksStaging(q)
  {
    hide AllowedGeneratedPath, IsPrepareIssue, StageAll, FilePasses, ContractSpec, InOrder, ShownFrom, Grouped, Scoped;
    var w := check.world;
    PassesIff(cfg.resolve, w.checks, w.stageOk, w.disk, check.shown, cfg.plan);
    WrittenWhenStaged(cfg, w, check.shown);
  }

  lemma WrittenWhenStaged(cfg: Config, w: World, files: seq<GeneratedFile>)
    ensures StageAll(cfg.resolve, w.stageOk, w.disk, files).failure.None? ==>
              forall f | f in files :: AllowedGeneratedPath(f.path) && cfg.resolve(f.path).Some?
  {
    hide AllowedGeneratedPath;
    if StageAll(cfg.resolve, w.stageOk, w.disk, files).failure.None? {
      WrittenWasAllowed(cfg.resolve, w.stageOk, WorkflowPart(w.disk.files), files);
    }
  }

  /** If a name of t blocks staging, a verdict can pass only while nothing is on disk at t. */
  lemma BlockedMeansOffDisk(cfg: Config, check: Record, c: Candidates, p: string, t: Target)
    requires PassedCheck(cfg, check, c)
    requires NamesPlace(cfg, p, t) && BlocksStaging(p) && InWorkflows(t)
    ensures t !in check.world.disk.files
  {
    hide AllowedPaths, NormalizeContent, AllowedGeneratedPath, IsPrepareIssue, FilePasses, ContractSpec, WriteAll,
         InOrder, ShownFrom, Grouped, Scoped;
    var w := check.world;
    PassesIff(cfg.resolve, w.checks, w.stageOk, w.disk, check.shown, cfg.plan);
    assert forall f | f in check.linted :: f.path != p;
  }

  /** The files of the list that name t come in path order. */
  ghost predicate SortedAt(resolve: Resolver, files: seq<GeneratedFile>, t: Target) {
    forall i, j | 0 <= i < j < |files| && resolve(files[i].path) == resolve(files[j].path) == Some(t) ::
      Less(files[i].path, files[j].path)
  }

  /** The last writer of a place in a list sorted there is the greatest one. */
  lemma LastIsGreatest(resolve: Resolver, files: seq<GeneratedFile>, t: Target, g: GeneratedFile)
    requires SortedAt(resolve, files, t) && g in files && resolve(g.path) == Some(t)
    ensures var f := LastWriter(resolve, files, t); f.Some? && (f.value == g || Less(g.path, f.value.path))
  {
    hide Less;
    var f := LastWriter(resolve, files, t);
    var i := LastWriterIsLast(resolve, files, t);
    var k :| 0 <= k < |files| && files[k] == g;
    assert k <= i;
    assert k < i ==> Less(files[k].path, files[i].path);
  }

  /** If everything shown at t is staged, and comes in path order, the last one shown is the last one staged. */
  lemma StagedWriter(cfg: Config, check: Record, c: Candidates, t: Target)
    requires PassedCheck(cfg, check, c) && SortedAt(cfg.resolve, check.shown, t)
    requires forall f | f in check.shown && cfg.resolve(f.path) == Some(t) :: f in CandidateFiles(c)
    requires LastWriter(cfg.resolve, CandidateFiles(c), t).Some?
    ensures LastWriter(cfg.resolve, check.shown, t) == LastWriter(cfg.resolve, CandidateFiles(c), t)
  {
    hide CandidateFiles, CheckSound, Less, Scoped, Grouped, IsNormalisedBase;
    var staged := CandidateFiles(c);
    var f := LastWriter(cfg.resolve, staged, t).value;
    assert f in check.shown;
    var g := LastWriter(cfg.resolve, check.shown, t).value;
    StagedSorted(cfg, c);
    LastIsGreatest(cfg.resolve, staged, t, g);
    LastIsGreatest(cfg.resolve, check.shown, t, f);
    LessTotal(f.path, g.path);
  }

  /** At a place that is off disk everything shown is staged, and comes in the order of the staging. */
  lemma OffDiskWriter(cfg: Config, check: Record, c: Candidates, t: Target)
    requires PassedCheck(cfg, check, c) && t !in check.world.disk.files
    requires LastWriter(cfg.resolve, CandidateFiles(c), t).Some?
    ensures LastWriter(cfg.resolve, check.shown, t) == LastWriter(cfg.resolve, CandidateFiles(c), t)
  {
    hide CandidateFiles, AllowedPaths, NormalizeContent, NormalizeFile, Less, BlocksStaging, GoodFiles, Grouped,
         Follows, LastWriter;
    assert forall p | cfg.resolve(p) == Some(t) :: OnDisk(cfg, check.world.disk, p).None?;
    assert SortedAt(cfg.resolve, check.shown, t);
    StagedWriter(cfg, check, c, t);
  }

  /** So it is at a place out of reach, whose names are staged all or none. */
  lemma GroupWriter(cfg: Config, check: Record, c: Candidates, t: Target)
    requires PassedCheck(cfg, check, c) && OutOfReach(cfg, t) && LastWriter(cfg.resolve, CandidateFiles(c), t).Some?
    ensures LastWriter(cfg.resolve, check.shown, t) == LastWriter(cfg.resolve, CandidateFiles(c), t)
  {
    hide CandidateFiles, AllowedPaths, NormalizeContent, NormalizeFile, Less, BlocksStaging, OnDisk, Nameable,
         Droppable, LastWriter, IsNormalisedBase, Validate;
    CandidateMembers(cfg, c);
    var f := LastWriter(cfg.resolve, CandidateFiles(c), t).value;
    assert GoodFile(cfg, c[f.path]);
    forall g | g in check.shown && cfg.resolve(g.path) == Some(t)
      ensures NamesPlace(cfg, g.path, t) && g in CandidateFiles(c)
    {
      assert GoodFile(cfg, g);
      assert Follows(cfg, f.path, g.path);
      assert c[g.path] in check.shown;
      OnePerPath(check.shown, g, c[g.path]);
    }
    forall i, j | 0 <= i < j < |check.shown|
                  && cfg.resolve(check.shown[i].path) == cfg.resolve(check.shown[j].path) == Some(t)
      ensures Less(check.shown[i].path, check.shown[j].path)
    {
      assert check.shown[i] in check.shown && check.shown[j] in check.shown;
      assert Follows(cfg, check.shown[i].path, check.shown[j].path);
    }
    StagedWriter(cfg, check, c, t);
  }

  lemma {:induction false} LastCheckInHistory(h: seq<Record>)
    ensures LastCheck(h).Some? ==> LastCheck(h).value in h
  {
    if h != [] && !h[|h| - 1].Checked? {
      LastCheckInHistory(h[..|h| - 1]);
      assert forall r | r in h[..|h| - 1] :: r in h;
    }
  }

  /** A finished run after whose last validate nothing was staged commits, at every harmless place, what that
      validate approved, if the disk is still the one it saw. */
  lemma CommitRefinesValidation(
    cfg: Config, script: seq<TurnInput>, last: TurnInput, commitOk: Permissions, t: Target)
    requires var (s, end) := Run(cfg, script, last); end.Finished? && !StagedSince(s.history)
    requires Harmless(cfg, t) && InWorkflows(t)
    ensures var (s, end) := Run(cfg, script, last);
            end.files == CandidateFiles(s.candidates) && CommitAgrees(cfg, s, commitOk, t)
  {
    hide Run, Inv, CommitAgrees, CandidateFiles, TurnLimit, StagedSince, Harmless;
    EveryRunEndsWell(cfg, script, last);
    var (s, end) := Run(cfg, script, last);
    CommitMatchesVerdict(cfg, s, commitOk, t);
  }

  // ---------------------------------------------------------------------------------------------
  // Why both conditions are there

  /** Writing a file does not clear the verdict: right after a passing validate, any text whatever can be
      staged and the next finish call is accepted, without another validate. */
  lemma StagingKeepsVerdict(cfg: Config, s: State, turn: nat, call: ToolCall, w: World, p: string)
    requires Scoped(cfg, s.candidates) && s.lintPassed
    requires call.tool == FileWrite && cfg.normalize(call.path) == Some(p) && WriteAllowed(cfg, p)
    ensures var s' := Execute(cfg, s, turn, call, w);
            s'.lintPassed && TryFinish(cfg, s', turn + 1) == (s', Finishing) &&
            GeneratedFile(p, NormalizeContent(p, call.content), false) in CandidateFiles(s'.candidates) &&
            LastCheck(s'.history) == LastCheck(s.history) && StagedSince(s'.history)
  {
    hide CandidateFiles, LastCheck, FailedChecks, StagedSince, AllowedPaths, NormalizeContent;
    var f := GeneratedFile(p, NormalizeContent(p, call.content), false);
    var s' := Execute(cfg, s, turn, call, w);
    LogReads(Stage(s.(idle := 0), p, f.content), turn, "file_write", true,
             Used(FileWrite, true, Sights(cfg, s, call, w)));
    NormalizeStable(p, call.content);
    assert s'.candidates == s.candidates[p := f];
    assert GoodFile(cfg, f);
    CandidateMembers(cfg, s'.candidates);
  }

  /** What such a finish commits. In any state with a passing verdict, whatever was staged since: the commit
      agrees with the verdict at a workflow place exactly if nothing is staged there, or the last file staged
      there has the text the validators saw. */
  lemma StaleVerdictAgreesIff(cfg: Config, s: State, commitOk: Permissions, t: Target)
    requires Inv(cfg, s) && s.lintPassed && InWorkflows(t)
    ensures LastCheck(s.history).Some? && LastCheck(s.history).value.verdict.Passed? &&
            var check := LastCheck(s.history).value;
            var files := CandidateFiles(s.candidates);
            WriteAll(cfg.resolve, commitOk, check.world.disk.files, files).failure.None? ==>
              var f := LastWriter(cfg.resolve, files, t);
              (CommitAgrees(cfg, s, commitOk, t) <==>
                (f.Some? ==> Lookup(check.verdict.shown, t) == Some(f.value.content)))
  {
    hide CandidateFiles, LastCheck, FailedChecks, StagedSince, WriteAll, SameButNewlines, Tracked, Aligned, GoodFile,
         CheckSound, Grouped, Covered, InWorkflows;
    var check := LastCheck(s.history).value;
    LastCheckInHistory(s.history);
    var files := CandidateFiles(s.candidates);
    CandidateMembers(cfg, s.candidates);
    if WriteAll(cfg.resolve, commitOk, check.world.disk.files, files).failure.None? {
      WrittenTree(cfg.resolve, commitOk, check.world.disk.files, files, t);
      var f := LastWriter(cfg.resolve, files, t);
      if f.Some? {
        assert GoodFile(cfg, f.value) && !f.value.delete by { CandidateIsLive(cfg, s.candidates, f.value.path); }
      } else {
        UnstagedIsFromDisk(cfg, check, s.candidates, t);
      }
    }
  }

  lemma CandidateIsLive(cfg: Config, c: Candidates, p: string)
    requires Scoped(cfg, c) && p in c
    ensures GoodFile(cfg, c[p]) && !c[p].delete
  {
  }

  /** Where nothing is staged the validators saw what is on disk, up to trailing line breaks. */
  lemma UnstagedIsFromDisk(cfg: Config, check: Record, c: Candidates, t: Target)
    requires check.Checked? && check.verdict.Passed? && CheckSound(cfg, check) && Covered(cfg, check, c)
    requires Scoped(cfg, c) && LastWriter(cfg.resolve, CandidateFiles(c), t).None? && InWorkflows(t)
    ensures var seen, left := Lookup(check.verdict.shown, t), Lookup(check.world.disk.files, t);
            seen.Some? == left.Some? && (seen.Some? ==> SameButNewlines(seen.value, left.value))
  {
    hide CandidateFiles, StageAll, WriteAll, AllowedPaths, FilePasses, ContractSpec, SameButNewlines, Complete,
         NormalizeContent, NormalizeFile, InWorkflows;
    var w := check.world;
    PassesIff(cfg.resolve, w.checks, w.stageOk, w.disk, check.shown, cfg.plan);
    StagedTree(cfg.resolve, w.stageOk, w.disk, check.shown, t);
    CandidateMembers(cfg, c);
    assert forall p | p in c :: c[p] in CandidateFiles(c) && cfg.resolve(p) != Some(t);
    var f := LastWriter(cfg.resolve, check.shown, t);
    if f.Some? {
      assert GoodFile(cfg, f.value);
      NormalizeStable(f.value.path, w.disk.files[t]);
    } else if t in w.disk.files {
      SameAsItself(w.disk.files[t]);
    }
  }

  lemma StagedTree(resolve: Resolver, ok: Permissions, disk: Disk, files: seq<GeneratedFile>, t: Target)
    requires StageAll(resolve, ok, disk, files).failure.None? && InWorkflows(t)
    ensures Lookup(StageAll(resolve, ok, disk, files).tree, t)
         == Outcome(Lookup(disk.files, t), LastWriter(resolve, files, t))
  {
    hide WriteAll, LastWriter;
    WrittenTree(resolve, ok, WorkflowPart(disk.files), files, t);
  }

  /** The same for the files any finished run returns, at a workflow place with one name in the scope: its
      commit agrees with its last verdict exactly if the text returned for the place, if any, is the one the
      validators saw there, no matter how many writes and edits came after them. */
  lemma FinishedRunAgreesIff(cfg: Config, script: seq<TurnInput>, last: TurnInput, commitOk: Permissions, t: Target)
    requires Run(cfg, script, last).1.Finished? && InWorkflows(t) && OneName(cfg, t)
    ensures var (s, end) := Run(cfg, script, last);
            LastCheck(s.history).Some? && LastCheck(s.history).value.verdict.Passed? &&
            var check := LastCheck(s.history).value;
            WriteAll(cfg.resolve, commitOk, check.world.disk.files, end.files).failure.None? ==>
              (CommitAgrees(cfg, s, commitOk, t) <==>
                forall f | f in end.files && cfg.resolve(f.path) == Some(t) ::
                  Lookup(check.verdict.shown, t) == Some(f.content))
  {
    hide Run, CommitAgrees, CandidateFiles, TurnLimit, LastCheck, FailedChecks, StagedSince, WriteAll, Tracked, Aligned,
         GoodFile, ChecksSound, Grouped, Covered, InWorkflows, OneName, LastWriter, Lookup;
    EveryRunEndsWell(cfg, script, last);
    var (s, end) := Run(cfg, script, last);
    StaleVerdictAgreesIff(cfg, s, commitOk, t);
    CandidateMembers(cfg, s.candidates);
    forall f | f in end.files && cfg.resolve(f.path) == Some(t)
      ensures LastWriter(cfg.resolve, end.files, t) == Some(f)
    {
      assert NamesPlace(cfg, f.path, t) by { CandidateIsLive(cfg, s.candidates, f.path); }
      OneWriter(cfg, s.candidates, f.path, t);
    }
  }

  /** A place with one name has at most one candidate. */
  lemma OneWriter(cfg: Config, c: Candidates, p: string, t: Target)
    requires Scoped(cfg, c) && p in c && NamesPlace(cfg, p, t) && OneName(cfg, t)
    ensures LastWriter(cfg.resolve, CandidateFiles(c), t) == Some(c[p])
  {
    hide CandidateFiles, AllowedPaths, NormalizeFile;
    CandidateMembers(cfg, c);
    assert c[p] in CandidateFiles(c);
    var f := LastWriter(cfg.resolve, CandidateFiles(c), t).value;
    assert NamesPlace(cfg, f.path, t);
  }

  // ---------------------------------------------------------------------------------------------
  // Scope

  /** What would be linted is inside the plan's scope and holds no deletion, every candidate is listed
      under its own path, and everything an executed validate looked at was in scope too; none of those
      validates was turned down for leaving the scope. */
  ghost predicate StaysInScope(cfg: Config, s: State, disk: Disk) {
    && (forall f | f in LintFiles(cfg, s.candidates, disk) :: f.path in AllowedPaths(cfg.plan) && !f.delete)
    && (forall p | p in s.candidates ::
          s.candidates[p].path == p && p in AllowedPaths(cfg.plan) && !s.candidates[p].delete)
    && (forall r | r in s.history && r.Checked? :: CheckedInScope(cfg, r))
  }

  ghost predicate CheckedInScope(cfg: Config, r: Record)
    requires r.Checked?
  {
    && (forall f | f in r.linted + r.shown :: f.path in AllowedPaths(cfg.plan) && !f.delete)
    && forall p ::
         r.verdict.Rejected? && r.verdict.reason.ContractBroken? ==> OutsideScope(p) !in r.verdict.reason.blocking
  }

  lemma InvStaysInScope(cfg: Config, s: State, disk: Disk)
    requires Inv(cfg, s)
    ensures StaysInScope(cfg, s, disk)
  {
    hide LintFiles, AllowedPaths, NormalizeFile, Tracked, Aligned, Bookkept, Fresh, CheckSound, CheckedInScope;
    LintMembers(cfg, s.candidates, disk);
    forall f | f in LintFiles(cfg, s.candidates, disk) ensures f.path in AllowedPaths(cfg.plan) && !f.delete {
      assert GoodFile(cfg, f);
    }
    forall p | p in s.candidates ensures p in AllowedPaths(cfg.plan) && !s.candidates[p].delete {
      assert GoodFile(cfg, s.candidates[p]);
    }
    forall r | r in s.history && r.Checked? ensures CheckedInScope(cfg, r) {
      CheckInScope(cfg, r);
    }
  }

  /** At the start of every turn a run reaches, and at its end, after any writes, edits and automatic
      repairs, the session is inside the plan's scope. */
  lemma RunStaysInScope(cfg: Config, script: seq<TurnInput>, last: TurnInput, n: nat, disk: Disk)
    requires n >= 1
    ensures StateBefore(cfg, script, last, n).Some? ==> StaysInScope(cfg, StateBefore(cfg, script, last, n).value, disk)
    ensures StaysInScope(cfg, Run(cfg, script, last).0, disk)
  {
    hide StaysInScope, StateBefore, AutoValidates, Inv, Run, TurnLimit;
    EveryTurnStartsWell(cfg, script, last, n);
    EveryRunEndsWell(cfg, script, last);
    if StateBefore(cfg, script, last, n).Some? {
      InvStaysInScope(cfg, StateBefore(cfg, script, last, n).value, disk);
    }
    InvStaysInScope(cfg, Run(cfg, script, last).0, disk);
  }

  lemma CheckInScope(cfg: Config, r: Record)
    requires r.Checked? && CheckSound(cfg, r)
    ensures CheckedInScope(cfg, r)
  {
    hide AllowedPaths, NormalizeFile, Validate;
    forall f | f in r.linted + r.shown ensures f.path in AllowedPaths(cfg.plan) && !f.delete {
      assert f in r.linted || f in r.shown;
      assert GoodFile(cfg, f);
    }
    assert forall f | f in r.shown :: GoodFile(cfg, f);
    forall p {
      InScopeNeverOutside(cfg.resolve, r.world.checks, r.world.stageOk, r.world.disk, r.shown, cfg.plan, p);
    }
  }

  // ---------------------------------------------------------------------------------------------
  // No lost updates

  /** An edit of a staged file is never refused as unread, unreadable, stale or missing. */
  lemma StagedEditsAreNeverStale(cfg: Config, s: State, disk: Disk, call: ToolCall, p: string)
    requires Inv(cfg, s) && cfg.normalize(call.path) == Some(p) && p in s.candidates
    ensures EditResult(cfg, s, disk, call) in {NoChange, NotFound, Ambiguous} || EditResult(cfg, s, disk, call).Edited?
  {
    hide CandidateFiles, ChecksSound, Aligned, Bookkept, Fresh, NormalizeFile, AllowedPaths, ReadDisk, NormalizeContent;
    assert GoodFile(cfg, s.candidates[p]);
  }

  /** A validate that drops a candidate leaves its snapshot behind: an edit against the dropped text is then
      refused as stale unless the disk holds that very text. */
  lemma DroppedCandidateEdit(
    cfg: Config, s: State, turn: nat, validate: ToolCall, w: World, disk: Disk, call: ToolCall, p: string)
    requires Inv(cfg, s) && p in s.candidates && cfg.normalize(call.path) == Some(p)
    requires validate.tool == ValidateTool && p !in Execute(cfg, s, turn, validate, w).candidates
    ensures var end := EditResult(cfg, Execute(cfg, s, turn, validate, w), disk, call);
            match ReadDisk(cfg, disk, p)
            case Content(text) =>
              if text == s.candidates[p].content then end in {NoChange, NotFound, Ambiguous} || end.Edited?
              else end == Stale
            case Missing => end == Stale
            case Unreadable => end == EditReadError
  {
    hide CandidateFiles, ChecksSound, Aligned, Bookkept, Fresh, NormalizeFile, AllowedPaths, ReadDisk, NormalizeContent,
         RunValidate;
    var dropped := RunValidate(cfg, s, w).0;
    assert GoodFile(cfg, s.candidates[p]);
    DroppedKeepsSnapshot(cfg, s, w, p);
    assert p in dropped.readState && dropped.readState[p] == Snapshot(s.candidates[p].content, true, true, true);
  }

  /** Restaging other paths leaves a snapshot alone. */
  lemma {:induction false} RestageKeepsSnapshot(cfg: Config, s: State, files: seq<GeneratedFile>, p: string)
    requires p !in Restage(cfg, s, files).candidates
    ensures p in s.readState ==> p in Restage(cfg, s, files).readState
                                 && Restage(cfg, s, files).readState[p] == s.readState[p]
  {
    hide AllowedPaths;
    if files != [] {
      RestageKeepsSnapshot(cfg, s, files[..|files| - 1], p);
    }
  }

  lemma DroppedKeepsSnapshot(cfg: Config, s: State, w: World, p: string)
    requires Inv(cfg, s) && p in s.candidates && p !in RunValidate(cfg, s, w).0.candidates
    ensures p in RunValidate(cfg, s, w).0.readState && RunValidate(cfg, s, w).0.readState[p] == s.readState[p]
  {
    hide Restage, LintFiles, ValidateIn, Diagnostics, RemoveInvalidPrepare, AutoRepair.RepairSpec, RepairPaths,
         CandidateFiles, ChecksSound, Aligned, Bookkept, Fresh;
    hide Inv, Scoped;
    InvParts(cfg, s);
    var s0 := s.(idle := 0);
    var lint := LintFiles(cfg, s.candidates, w.disk);
    if lint != [] && ValidateIn(cfg, w, lint).Rejected? {
      var diags := Diagnostics(w, ValidateIn(cfg, w, lint).reason);
      var cleaned := RemoveInvalidPrepare(s.candidates, lint, diags);
      var s1 := s0.(candidates := cleaned.candidates);
      var paths := RepairPaths(cfg, cleaned.candidates);
      var outcome := AutoRepair.RepairSpec(w.helpers, cleaned.files, cleaned.diags, paths);
      match outcome
      case Failed =>
      case NotApplied =>
        if |cleaned.files| < |lint| { RestageKeepsSnapshot(cfg, s1, cleaned.files, p); }
      case Applied(repaired) => RestageKeepsSnapshot(cfg, s1, repaired, p);
    }
  }

  // ---------------------------------------------------------------------------------------------
  // Verdicts and budgets

  /** At the end of every run the flag says whether the latest executed validate passed, the counter is the
      number of executed validates that failed on files, and the transcript agrees with both. A run that
      finished has a passing verdict, and files unless it was told to finish on the refine route. */
  lemma VerdictBookkeeping(cfg: Config, script: seq<TurnInput>, last: TurnInput)
    ensures var (s, end) := Run(cfg, script, last);
            (s.lintPassed <==> LastCheck(s.history).Some? && LastCheck(s.history).value.verdict.Passed?) &&
            s.failures == FailedChecks(s.history) && Aligned(s.events, s.history) &&
            s.turnsUsed <= TurnLimit(cfg) &&
            (end.Finished? ==> (s.lintPassed && end.files == CandidateFiles(s.candidates) &&
                                (end.files == [] ==> end.explicit && cfg.plan.route == Refine)))
  {
    hide Run, CandidateFiles, TurnLimit, Scoped, Tracked, ChecksSound, Aligned, Fresh, LastCheck, FailedChecks;
    EveryRunEndsWell(cfg, script, last);
  }

  /** An automatic finish only happens when the candidates have not changed since the start of the turn
      before the one that finishes. */
  lemma AutoFinishIsQuiet(cfg: Config, script: seq<TurnInput>, last: TurnInput)
    ensures var (s, end) := Run(cfg, script, last);
            end.Finished? && !end.explicit ==>
              |s.marks| >= 2 && s.candidates != map[] &&
              s.candidates == s.marks[|s.marks| - 1] == s.marks[|s.marks| - 2] &&
              end.files == CandidateFiles(s.candidates)
  {
    hide Run, CandidateFiles, TurnLimit, Inv;
    EveryRunEndsWell(cfg, script, last);
  }

  /** When an automatic validate is due, in terms of the transcript cut before its trailing writes. */
  lemma AutoValidatesIff(s: State, before: seq<Event>, writes: seq<Event>)
    requires s.events == before + writes
    requires forall i | 0 <= i < |writes| :: writes[i].name in {"file_write", "file_edit"}
    requires before == [] || before[|before| - 1].name !in {"file_write", "file_edit"}
    ensures AutoValidates(s) <==>
      |s.candidates| > 0 && |writes| >= 3 && (before == [] || before[|before| - 1].name != "validate")
  {
    var n := |writes|;
    if before != [] {
      assert s.events[|s.events| - n - 1] == before[|before| - 1];
    }
    forall k: nat ensures TrailingWrites(s.events, k) <==> k <= n {
      if n < k <= |s.events| {
        assert !IsWriteName(s.events[|s.events| - n - 1].name);
      }
    }
    assert TrailingWrites(s.events, n) && !TrailingWrites(s.events, n + 1);
  }
}
