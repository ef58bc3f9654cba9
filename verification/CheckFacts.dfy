/** What a recorded validate says about the files on disk and about paths that may not be written. */
module CheckFacts {
  import opened Text
  import opened Files
  import opened GenerationValidate
  import opened Session
  import opened LintFacts
  import opened RepairFacts
  import AutoRepair

  /** Staging a file of this path fails, and the error does not read like a complaint about a prepare
      file, so the automatic repair does not drop it. */
  predicate BlocksStaging(path: string) {
    !AllowedGeneratedPath(path) && !IsPrepareIssue(RejectedMessage(path))
  }

  // ---------------------------------------------------------------------------------------------
  // Names that are staged together

  /** Some argument of a tool call is cleaned to this path. */
  ghost predicate Nameable(cfg: Config, path: string) {
    exists raw :: cfg.normalize(raw) == Some(path)
  }

  /** The automatic repair may take a file of this path for an invalid prepare file and drop it. */
  predicate Droppable(path: string) {
    HasSuffix(TrimSpace(path), "prepare.yaml")
  }

  /** Both are approved names of one place; p is only ever staged from disk, and q is never dropped. */
  ghost predicate Follows(cfg: Config, p: string, q: string) {
    && p in AllowedPaths(cfg.plan) && q in AllowedPaths(cfg.plan)
    && cfg.resolve(p).Some? && cfg.resolve(p) == cfg.resolve(q)
    && !Nameable(cfg, p) && !Droppable(q)
  }

  /** Staging p from disk staged q as well, and it has stayed. */
  ghost predicate Grouped(cfg: Config, c: Candidates) {
    forall p, q | p in c && Follows(cfg, p, q) :: q in c
  }

  /** Why two files come in path order: neither is on disk, or they are staged together. */
  ghost predicate KeepPathOrder(cfg: Config, disk: Disk, p: string, q: string) {
    (OnDisk(cfg, disk, p).None? && OnDisk(cfg, disk, q).None?) || Follows(cfg, p, q)
  }

  ghost predicate InOrder(cfg: Config, disk: Disk, files: seq<GeneratedFile>) {
    forall i, j | 0 <= i < j < |files| && KeepPathOrder(cfg, disk, files[i].path, files[j].path) ::
      Less(files[i].path, files[j].path)
  }

  /** Every approved file on disk was linted, a verdict that passed met no blocked path, and what was shown
      comes in path order as far as the staging has an order of its own. */
  ghost predicate Complete(cfg: Config, r: Record)
    requires r.Checked?
  {
    && (forall p | p in AllowedPaths(cfg.plan) && OnDisk(cfg, r.world.disk, p).Some? :: p in PathsOf(r.linted))
    && (r.verdict.Passed? ==> forall f | f in r.linted :: !BlocksStaging(f.path))
    && InOrder(cfg, r.world.disk, r.shown)
  }

  // ---------------------------------------------------------------------------------------------
  // Order

  ghost predicate PathSorted(files: seq<GeneratedFile>) {
    forall i, j | 0 <= i < j < |files| :: Less(files[i].path, files[j].path)
  }

  lemma StagedSorted(cfg: Config, c: Candidates)
    requires Scoped(cfg, c)
    ensures PathSorted(CandidateFiles(c))
  {
    hide GoodFile, Less;
    var keys := Sorted(c.Keys);
    forall i, j | 0 <= i < j < |keys| ensures Less(CandidateFiles(c)[i].path, CandidateFiles(c)[j].path) {
      assert keys[i] in keys && keys[j] in keys;
      assert c[keys[i]].path == keys[i] && c[keys[j]].path == keys[j];
    }
  }

  /** A sorted list stays sorted with a file in front whose path is less than all others. */
  lemma SortedCons(f: GeneratedFile, rest: seq<GeneratedFile>)
    requires PathSorted(rest) && forall g | g in rest :: Less(f.path, g.path)
    ensures PathSorted([f] + rest)
  {
    hide Less;
    var files := [f] + rest;
    forall i, j | 0 <= i < j < |files| ensures Less(files[i].path, files[j].path) {
      assert files[j] == rest[j - 1] && rest[j - 1] in rest;
    }
  }

  lemma {:induction false} BaseSorted(cfg: Config, disk: Disk, paths: seq<string>)
    requires StrictlySorted(paths)
    ensures PathSorted(BaseFiles(cfg, disk, paths))
  {
    hide ReadDisk, NormalizeContent, Less, OnDisk;
    if paths != [] {
      var rest := BaseFiles(cfg, disk, paths[1..]);
      BaseSorted(cfg, disk, paths[1..]);
      BaseMembers(cfg, disk, paths[1..]);
      forall g | g in rest ensures Less(paths[0], g.path) {
        var k :| 0 <= k < |paths[1..]| && paths[1..][k] == g.path;
        assert paths[k + 1] == g.path;
      }
      match ReadDisk(cfg, disk, paths[0])
      case Content(text) => SortedCons(GeneratedFile(paths[0], NormalizeContent(paths[0], text), false), rest);
      case _ =>
    }
  }

  lemma {:induction false} NotInSorted(files: seq<GeneratedFile>, seen: set<string>)
    requires PathSorted(files)
    ensures PathSorted(NotIn(files, seen))
  {
    hide Less;
    if files != [] {
      var rest := files[1..];
      assert PathSorted(rest) by { assert forall i | 0 <= i < |rest| :: rest[i] == files[i + 1]; }
      NotInSorted(rest, seen);
      NotInMembers(rest, seen);
      if files[0].path !in seen {
        forall g | g in NotIn(rest, seen) ensures Less(files[0].path, g.path) {
          var k :| 0 <= k < |rest| && rest[k] == g;
          assert files[k + 1] == g;
        }
        SortedCons(files[0], NotIn(rest, seen));
      }
    }
  }

  /** What is not staged is listed after what is; where the order matters the two do not mix. */
  lemma LintInOrder(cfg: Config, c: Candidates, disk: Disk)
    requires Scoped(cfg, c) && Grouped(cfg, c)
    ensures InOrder(cfg, disk, LintFiles(cfg, c, disk))
  {
    hide LintFiles, OnDisk, AllowedPaths, GoodFile, Less, Sorted, BaseFiles, NotIn, CandidateFiles, Follows,
         DistinctPaths;
    var staged := CandidateFiles(c);
    var base := BaseFiles(cfg, disk, ApprovedList(cfg));
    var others := NotIn(base, PathsOf(staged));
    var lint := LintFiles(cfg, c, disk);
    LintMembers(cfg, c, disk);
    StagedSorted(cfg, c);
    BaseSorted(cfg, disk, ApprovedList(cfg));
    NotInSorted(base, PathsOf(staged));
    OthersAreOnDisk(cfg, c, disk);
    forall i, j | 0 <= i < |staged| <= j < |lint| ensures !KeepPathOrder(cfg, disk, lint[i].path, lint[j].path) {
      assert lint[i] == staged[i] && staged[i] in staged;
      assert lint[j] == others[j - |staged|] && others[j - |staged|] in others;
    }
    forall i, j | 0 <= i < j < |lint| && KeepPathOrder(cfg, disk, lint[i].path, lint[j].path)
      ensures Less(lint[i].path, lint[j].path)
    {
      if j < |staged| {
        assert lint[i] == staged[i] && lint[j] == staged[j];
      } else {
        assert i >= |staged|;
        assert lint[i] == others[i - |staged|] && lint[j] == others[j - |staged|];
      }
    }
  }

  lemma OthersAreOnDisk(cfg: Config, c: Candidates, disk: Disk)
    requires Scoped(cfg, c)
    ensures var staged := CandidateFiles(c);
            (forall f | f in staged :: f.path in c) &&
            forall f | f in NotIn(BaseFiles(cfg, disk, ApprovedList(cfg)), PathsOf(staged)) ::
              f.path !in c && OnDisk(cfg, disk, f.path).Some?
  {
    hide OnDisk, AllowedPaths, GoodFile, Sorted, BaseFiles, NotIn, CandidateFiles, DistinctPaths;
    var staged := CandidateFiles(c);
    CandidateMembers(cfg, c);
    BaseMembers(cfg, disk, ApprovedList(cfg));
    NotInMembers(BaseFiles(cfg, disk, ApprovedList(cfg)), PathsOf(staged));
    forall p | p in c ensures p in PathsOf(staged) {
      assert c[p] in staged;
    }
  }

  lemma SamePathsSameOrder(cfg: Config, disk: Disk, files: seq<GeneratedFile>, repaired: seq<GeneratedFile>)
    requires InOrder(cfg, disk, files) && SamePaths(files, repaired)
    ensures InOrder(cfg, disk, repaired)
  {
    hide KeepPathOrder, Less;
  }

  lemma InOrderCons(cfg: Config, disk: Disk, f: GeneratedFile, rest: seq<GeneratedFile>)
    requires InOrder(cfg, disk, rest)
    requires forall g | g in rest && KeepPathOrder(cfg, disk, f.path, g.path) :: Less(f.path, g.path)
    ensures InOrder(cfg, disk, [f] + rest)
  {
    hide KeepPathOrder, Less;
    var files := [f] + rest;
    forall i, j | 0 <= i < j < |files| && KeepPathOrder(cfg, disk, files[i].path, files[j].path)
      ensures Less(files[i].path, files[j].path)
    {
      assert files[j] == rest[j - 1] && rest[j - 1] in rest;
      if i > 0 { assert files[i] == rest[i - 1]; }
    }
  }

  lemma InOrderHead(cfg: Config, disk: Disk, files: seq<GeneratedFile>)
    requires InOrder(cfg, disk, files) && files != []
    ensures InOrder(cfg, disk, files[1..])
    ensures forall g | g in files[1..] && KeepPathOrder(cfg, disk, files[0].path, g.path) ::
              Less(files[0].path, g.path)
  {
    hide KeepPathOrder, Less;
    assert forall i | 0 <= i < |files[1..]| :: files[1..][i] == files[i + 1];
  }

  lemma {:induction false} WithoutPathSameOrder(cfg: Config, disk: Disk, files: seq<GeneratedFile>, path: string)
    requires InOrder(cfg, disk, files)
    ensures InOrder(cfg, disk, WithoutPath(files, path))
  {
    hide InOrder, KeepPathOrder, Less, TrimSpace;
    if files == [] {
    } else {
      InOrderHead(cfg, disk, files);
      WithoutPathSameOrder(cfg, disk, files[1..], path);
      WithoutPathMembers(files[1..], path);
      if TrimSpace(files[0].path) != path {
        InOrderCons(cfg, disk, files[0], WithoutPath(files[1..], path));
      } else {
        assert WithoutPath(files, path) == WithoutPath(files[1..], path);
      }
    }
  }

  // ---------------------------------------------------------------------------------------------
  // What a repair attempt validates again

  /** The files validated again are the linted ones, repaired in place, but for a dropped prepare file. */
  lemma AttemptPaths(cfg: Config, s: State, w: World, diags: seq<AutoRepair.Diagnostic>)
    requires Scoped(cfg, s.candidates) && Tracked(s)
    requires LintFiles(cfg, s.candidates, w.disk) != []
    ensures var lint := LintFiles(cfg, s.candidates, w.disk);
            var attempt := TryRepair(cfg, s, w, lint, diags);
            attempt.files.Some? ==>
              SamePaths(RemoveInvalidPrepare(s.candidates, lint, diags).files, attempt.files.value)
  {
    hide LintFiles, RemoveInvalidPrepare, Restage, AutoRepair.RepairSpec, RepairPaths, GoodFile;
    var lint := LintFiles(cfg, s.candidates, w.disk);
    var cleaned := RemoveInvalidPrepare(s.candidates, lint, diags);
    var paths := RepairPaths(cfg, cleaned.candidates);
    CleanedFacts(cfg, s, w.disk, diags);
    if AutoRepair.RepairSpec(w.helpers, cleaned.files, cleaned.diags, paths).Applied? {
      RepairedAreGood(cfg, w.helpers, cleaned.files, cleaned.diags, paths);
    }
  }

  /** A linted file stays unless its path is the dropped one. */
  lemma LintedStays(cfg: Config, s: State, w: World, diags: seq<AutoRepair.Diagnostic>, f: GeneratedFile)
    requires Scoped(cfg, s.candidates) && Tracked(s) && f in LintFiles(cfg, s.candidates, w.disk)
    ensures var lint := LintFiles(cfg, s.candidates, w.disk);
            var attempt := TryRepair(cfg, s, w, lint, diags);
            attempt.files.Some? ==> f.path in PathsOf(attempt.files.value)
                                    || (DropsPrepare(lint, diags) && PreparePath(lint, diags) == Some(f.path))
  {
    hide LintFiles, PreparePath, WithoutPath, NotMentioning, TrimSpace, Contains, AllowedPaths, NormalizeFile,
         TryRepair;
    var lint := LintFiles(cfg, s.candidates, w.disk);
    var attempt := TryRepair(cfg, s, w, lint, diags);
    LintMembers(cfg, s.candidates, w.disk);
    AttemptPaths(cfg, s, w, diags);
    var cleaned := RemoveInvalidPrepare(s.candidates, lint, diags);
    if attempt.files.Some? {
      SamePathsFacts(cleaned.files, attempt.files.value);
      if DropsPrepare(lint, diags) {
        WithoutPathMembers(lint, PreparePath(lint, diags).value);
        assert GoodFile(cfg, f);
        AllowedPathIsClean(cfg.plan, f.path);
      }
    }
  }

  lemma {:induction false} MentionedIsDroppable(files: seq<GeneratedFile>, message: string)
    ensures MentionedPrepare(files, message).Some? ==> Droppable(MentionedPrepare(files, message).value)
  {
    hide Contains, TrimSpace, HasSuffix;
    if files != [] {
      MentionedIsDroppable(files[1..], message);
    }
  }

  lemma {:induction false} PreparePathIsDroppable(files: seq<GeneratedFile>, diags: seq<AutoRepair.Diagnostic>)
    ensures PreparePath(files, diags).Some? ==> Droppable(PreparePath(files, diags).value)
  {
    hide IsPrepareIssue, MentionedPrepare, Droppable;
    if diags != [] {
      MentionedIsDroppable(files, diags[|diags| - 1].message);
      PreparePathIsDroppable(files, diags[..|diags| - 1]);
    }
  }

  /** If p is linted, what follows it is linted too: both are staged or both are on disk. */
  lemma GroupIsLinted(cfg: Config, c: Candidates, disk: Disk, p: string, q: string)
    requires Scoped(cfg, c) && Grouped(cfg, c) && Follows(cfg, p, q) && p in PathsOf(LintFiles(cfg, c, disk))
    ensures q in PathsOf(LintFiles(cfg, c, disk))
  {
    hide LintFiles, AllowedPaths, GoodFile, NormalizeContent, DistinctPaths, Nameable, Droppable;
    LintMembers(cfg, c, disk);
    var f := if q in c then c[q] else GeneratedFile(q, NormalizeContent(q, ReadDisk(cfg, disk, q).content), false);
    assert f in LintFiles(cfg, c, disk);
  }

  /** What is validated again is linted, and all of it is staged afterwards. */
  lemma AttemptFilesLinted(cfg: Config, s: State, w: World, diags: seq<AutoRepair.Diagnostic>)
    requires Scoped(cfg, s.candidates) && Tracked(s) && LintFiles(cfg, s.candidates, w.disk) != []
    ensures var lint := LintFiles(cfg, s.candidates, w.disk);
            var attempt := TryRepair(cfg, s, w, lint, diags);
            attempt.files.Some? ==>
              attempt.state.candidates.Keys == PathsOf(attempt.files.value) <= PathsOf(lint)
  {
    hide LintFiles, TryRepair, Tracked, GoodFile, DistinctPaths, PreparePath, NotMentioning, Contains;
    var lint := LintFiles(cfg, s.candidates, w.disk);
    var attempt := TryRepair(cfg, s, w, lint, diags);
    AttemptStaging(cfg, s, w, diags);
    AttemptPaths(cfg, s, w, diags);
    if attempt.files.Some? {
      var cleaned := RemoveInvalidPrepare(s.candidates, lint, diags).files;
      SamePathsFacts(cleaned, attempt.files.value);
      if DropsPrepare(lint, diags) {
        WithoutPathMembers(lint, PreparePath(lint, diags).value);
      }
      assert forall f | f in cleaned :: f in lint;
      forall p | p in attempt.state.candidates ensures p in PathsOf(attempt.files.value) {
        assert attempt.state.candidates[p] in attempt.files.value;
      }
    }
  }

  /** A repair attempt keeps names staged together that are only staged together. */
  lemma AttemptKeepsGroups(cfg: Config, s: State, w: World, diags: seq<AutoRepair.Diagnostic>)
    requires Scoped(cfg, s.candidates) && Tracked(s) && Grouped(cfg, s.candidates)
    requires LintFiles(cfg, s.candidates, w.disk) != []
    ensures Grouped(cfg, TryRepair(cfg, s, w, LintFiles(cfg, s.candidates, w.disk), diags).state.candidates)
  {
    hide LintFiles, TryRepair, Scoped, Tracked, GoodFile, PreparePath, DropsPrepare, Nameable, Droppable;
    var lint := LintFiles(cfg, s.candidates, w.disk);
    var attempt := TryRepair(cfg, s, w, lint, diags);
    PreparePathIsDroppable(lint, diags);
    if attempt.files.Some? {
      AttemptFilesLinted(cfg, s, w, diags);
      forall p, q | p in attempt.state.candidates && Follows(cfg, p, q) ensures q in attempt.state.candidates {
        GroupIsLinted(cfg, s.candidates, w.disk, p, q);
        var g :| g in lint && g.path == q;
        LintedStays(cfg, s, w, diags, g);
      }
    } else {
      FailedAttempt(cfg, s, w, lint, diags);
    }
  }

  /** An attempt that gives nothing to validate has at most dropped the prepare file. */
  lemma FailedAttempt(
    cfg: Config, s: State, w: World, files: seq<GeneratedFile>, diags: seq<AutoRepair.Diagnostic>)
    requires TryRepair(cfg, s, w, files, diags).files.None?
    ensures var left := TryRepair(cfg, s, w, files, diags).state.candidates;
            left == s.candidates
            || (PreparePath(files, diags).Some? && left == s.candidates - {PreparePath(files, diags).value})
  {
    hide PreparePath, WithoutPath, NotMentioning, Contains, AutoRepair.RepairSpec, RepairPaths, Restage;
  }

  // ---------------------------------------------------------------------------------------------
  // Blocked paths never pass

  /** The one diagnostic of a rejected path drops nothing, unless the path itself reads like one. */
  lemma RejectionDropsNothing(files: seq<GeneratedFile>, w: World, path: string)
    requires !IsPrepareIssue(RejectedMessage(path))
    ensures !DropsPrepare(files, Diagnostics(w, StagingFailed(PathRejected(path))))
  {
    hide IsPrepareIssue, RejectedMessage, MentionedPrepare;
    var diags := Diagnostics(w, StagingFailed(PathRejected(path)));
    assert diags[..0] == [];
    assert PreparePath(files, diags[..0]) == None;
  }

  /** If staging fails at a file that is staged again, it fails again. */
  lemma FailsAgain(cfg: Config, w: World, files: seq<GeneratedFile>, again: seq<GeneratedFile>, blocked: string)
    requires (forall f | f in files :: !f.delete) && (forall f | f in again :: !f.delete)
    requires StageAll(cfg.resolve, w.stageOk, w.disk, files).failure.Some?
    requires StageAll(cfg.resolve, w.stageOk, w.disk, again).failure.None?
    requires !AllowedGeneratedPath(blocked)
    requires forall f | f in files :: f.path in PathsOf(again) || f.path == blocked
    ensures StageAll(cfg.resolve, w.stageOk, w.disk, files).failure == Some(PathRejected(blocked))
  {
    hide AllowedGeneratedPath, WriteAll;
    var tree := WorkflowPart(w.disk.files);
    WrittenWasAllowed(cfg.resolve, w.stageOk, tree, again);
    forall p | p in PathsOf(again)
      ensures AllowedGeneratedPath(p) && cfg.resolve(p).Some? && w.stageOk(cfg.resolve(p).value)
    {
      var g :| g in again && g.path == p;
    }
    var k := FailedWriteIsPrefix(cfg.resolve, w.stageOk, tree, files);
    assert files[k] in files;
  }

  /** A validate that lints a blocked path is never passed, with or without the automatic repair. */
  lemma BlockedNeverPasses(cfg: Config, s: State, w: World, f: GeneratedFile)
    requires Scoped(cfg, s.candidates) && Tracked(s)
    requires f in LintFiles(cfg, s.candidates, w.disk) && BlocksStaging(f.path)
    ensures RunValidate(cfg, s, w).1.verdict.Rejected?
  {
    hide LintFiles, TryRepair, Scoped, Tracked, AllowedGeneratedPath, IsPrepareIssue, StageAll, DropsPrepare,
         PreparePath, FilePasses, ContractSpec, FirstInvalid, Diagnostics;
    var s0 := s.(idle := 0);
    var lint := LintFiles(cfg, s.candidates, w.disk);
    StagedMeansAllowed(cfg, w, lint);
    assert StageAll(cfg.resolve, w.stageOk, w.disk, lint).failure.Some?;
    var reason := StagingFailed(StageAll(cfg.resolve, w.stageOk, w.disk, lint).failure.value);
    assert ValidateIn(cfg, w, lint) == Rejected(reason);
    var attempt := TryRepair(cfg, s0, w, lint, Diagnostics(w, reason));
    IdleTracked(s);
    SecondTimeRejected(cfg, s0, w, f, StageAll(cfg.resolve, w.stageOk, w.disk, lint).failure.value);
  }

  /** Neither is the second look at the files passed. */
  lemma SecondTimeRejected(cfg: Config, s: State, w: World, f: GeneratedFile, failure: Failure)
    requires Scoped(cfg, s.candidates) && Tracked(s)
    requires f in LintFiles(cfg, s.candidates, w.disk) && BlocksStaging(f.path)
    requires StageAll(cfg.resolve, w.stageOk, w.disk, LintFiles(cfg, s.candidates, w.disk)).failure == Some(failure)
    ensures var lint := LintFiles(cfg, s.candidates, w.disk);
            var attempt := TryRepair(cfg, s, w, lint, Diagnostics(w, StagingFailed(failure)));
            attempt.files.Some? ==> ValidateIn(cfg, w, attempt.files.value).Rejected?
  {
    hide LintFiles, TryRepair, AllowedGeneratedPath, IsPrepareIssue, StageAll, DropsPrepare,
         PreparePath, FilePasses, ContractSpec, FirstInvalid, Diagnostics, GoodFile;
    var lint := LintFiles(cfg, s.candidates, w.disk);
    var diags := Diagnostics(w, StagingFailed(failure));
    var attempt := TryRepair(cfg, s, w, lint, diags);
    AttemptStaging(cfg, s, w, diags);
    LintMembers(cfg, s.candidates, w.disk);
    if attempt.files.Some? && StageAll(cfg.resolve, w.stageOk, w.disk, attempt.files.value).failure.None? {
      var again := attempt.files.value;
      StagedMeansAllowed(cfg, w, again);
      forall g | g in lint ensures g.path in PathsOf(again) || PreparePath(lint, diags) == Some(g.path) {
        LintedStays(cfg, s, w, diags, g);
      }
      LintedStays(cfg, s, w, diags, f);
      assert forall g | g in lint :: GoodFile(cfg, g) && !g.delete by { GoodAreLive(cfg, lint); }
      GoodAreLive(cfg, again);
      FailsAgain(cfg, w, lint, again, f.path);
      RejectionDropsNothing(lint, w, f.path);
    }
  }

  lemma GoodAreLive(cfg: Config, files: seq<GeneratedFile>)
    requires GoodFiles(cfg, files)
    ensures forall f | f in files :: GoodFile(cfg, f) && !f.delete
  {
  }

  lemma StagedMeansAllowed(cfg: Config, w: World, files: seq<GeneratedFile>)
    ensures StageAll(cfg.resolve, w.stageOk, w.disk, files).failure.None? ==>
              forall f | f in files :: AllowedGeneratedPath(f.path)
  {
    hide AllowedGeneratedPath;
    if StageAll(cfg.resolve, w.stageOk, w.disk, files).failure.None? {
      WrittenWasAllowed(cfg.resolve, w.stageOk, WorkflowPart(w.disk.files), files);
    }
  }

  // ---------------------------------------------------------------------------------------------
  // Every executed validate leaves a complete record

  lemma CheckIsComplete(cfg: Config, s: State, w: World)
    requires Scoped(cfg, s.candidates) && Tracked(s) && Grouped(cfg, s.candidates)
    ensures Complete(cfg, RunValidate(cfg, s, w).1)
  {
    hide LintFiles, TryRepair, Scoped, Tracked, Grouped, BlocksStaging, ValidateIn, Diagnostics, InOrder, OnDisk,
         AllowedPaths;
    var r := RunValidate(cfg, s, w).1;
    var lint := LintFiles(cfg, s.candidates, w.disk);
    assert r.linted == lint && r.world == w;
    LintedPaths(cfg, s.candidates, w.disk);
    forall f | f in lint && BlocksStaging(f.path) ensures r.verdict.Rejected? {
      BlockedNeverPasses(cfg, s, w, f);
    }
    ShownInOrder(cfg, s, w);
  }

  /** Every approved file on disk is linted, as it is or as it is staged. */
  lemma LintedPaths(cfg: Config, c: Candidates, disk: Disk)
    requires Scoped(cfg, c)
    ensures forall p | p in AllowedPaths(cfg.plan) && OnDisk(cfg, disk, p).Some? ::
              p in PathsOf(LintFiles(cfg, c, disk))
  {
    hide LintFiles, OnDisk, AllowedPaths, GoodFile;
    LintMembers(cfg, c, disk);
    forall p | p in AllowedPaths(cfg.plan) && OnDisk(cfg, disk, p).Some? ensures p in PathsOf(LintFiles(cfg, c, disk)) {
      var f := if p in c then c[p] else OnDisk(cfg, disk, p).value;
      assert f.path == p by { DiskFileHasPath(cfg, disk, p); }
      assert f in LintFiles(cfg, c, disk);
    }
  }

  lemma DiskFileHasPath(cfg: Config, disk: Disk, p: string)
    ensures OnDisk(cfg, disk, p).Some? ==> OnDisk(cfg, disk, p).value.path == p
  {
  }

  lemma ShownInOrder(cfg: Config, s: State, w: World)
    requires Scoped(cfg, s.candidates) && Tracked(s) && Grouped(cfg, s.candidates)
    ensures InOrder(cfg, w.disk, RunValidate(cfg, s, w).1.shown)
  {
    hide LintFiles, TryRepair, Scoped, Tracked, Grouped, ValidateIn, Diagnostics, InOrder, RemoveInvalidPrepare;
    var s0 := s.(idle := 0);
    var lint := LintFiles(cfg, s.candidates, w.disk);
    LintInOrder(cfg, s.candidates, w.disk);
    if lint != [] && ValidateIn(cfg, w, lint).Rejected? {
      var diags := Diagnostics(w, ValidateIn(cfg, w, lint).reason);
      assert Tracked(s0) by { IdleTracked(s); }
      AttemptPaths(cfg, s0, w, diags);
      CleanedInOrder(cfg, s.candidates, w.disk, lint, diags);
      var attempt := TryRepair(cfg, s0, w, lint, diags);
      if attempt.files.Some? {
        SamePathsSameOrder(cfg, w.disk, RemoveInvalidPrepare(s.candidates, lint, diags).files, attempt.files.value);
      }
    }
  }

  lemma IdleTracked(s: State)
    ensures Tracked(s) ==> Tracked(s.(idle := 0))
  {
  }

  lemma CleanedInOrder(
    cfg: Config, c: Candidates, disk: Disk, files: seq<GeneratedFile>, diags: seq<AutoRepair.Diagnostic>)
    requires InOrder(cfg, disk, files)
    ensures InOrder(cfg, disk, RemoveInvalidPrepare(c, files, diags).files)
  {
    hide InOrder, PreparePath, NotMentioning, WithoutPath, Contains, TrimSpace;
    if DropsPrepare(files, diags) {
      WithoutPathSameOrder(cfg, disk, files, PreparePath(files, diags).value);
    }
  }
}
