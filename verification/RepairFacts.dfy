/** What staging looks like after the automatic repair of a failed validate. */
module RepairFacts {
  import opened Text
  import opened Files
  import opened GenerationValidate
  import opened Session
  import opened LintFacts
  import AutoRepair

  /** Every staged candidate has been seen in full: its snapshot is its content. */
  ghost predicate Tracked(s: State) {
    forall p | p in s.candidates ::
      p in s.readState && s.readState[p] == Snapshot(s.candidates[p].content, true, true, true)
  }

  /** r is s with the files staged on top. */
  ghost predicate StagedOnTop(s: State, files: seq<GeneratedFile>, r: State) {
    && (forall f | f in files :: f.path in r.candidates && r.candidates[f.path] == f)
    && (forall p | p in s.candidates :: p in r.candidates)
    && (forall p | p in r.candidates && p !in PathsOf(files) :: p in s.candidates && r.candidates[p] == s.candidates[p])
    && (Tracked(s) ==> Tracked(r))
    && r == s.(candidates := r.candidates, readState := r.readState)
  }

  lemma PathsOfSnoc(init: seq<GeneratedFile>, last: GeneratedFile)
    ensures PathsOf(init + [last]) == PathsOf(init) + {last.path}
  {
    var files := init + [last];
    assert forall f :: f in files <==> f in init || f == last;
    assert last in files;
  }

  lemma PathsAreListed(files: seq<GeneratedFile>)
    ensures forall f | f in files :: f.path in PathsOf(files)
  {
  }

  lemma StageOneMore(cfg: Config, s: State, init: seq<GeneratedFile>, r: State, last: GeneratedFile)
    requires StagedOnTop(s, init, r) && last.path !in PathsOf(init) && !last.delete
    ensures StagedOnTop(s, init + [last],
                        r.(candidates := r.candidates[last.path := last],
                           readState := r.readState[last.path := Snapshot(last.content, true, true, true)]))
  {
    PathsOfSnoc(init, last);
    PathsAreListed(init);
    assert forall f :: f in init + [last] <==> f in init || f == last;
    hide PathsOf;
  }

  /** Restaging good files with distinct paths puts exactly them on top of what is staged. */
  lemma {:induction false} RestageResult(cfg: Config, s: State, files: seq<GeneratedFile>)
    requires GoodFiles(cfg, files) && DistinctPaths(files)
    ensures StagedOnTop(s, files, Restage(cfg, s, files))
  {
    hide AllowedPaths, NormalizeFile;
    if files == [] {
    } else {
      var n := |files| - 1;
      var init, last := files[..n], files[n];
      assert files == init + [last];
      assert GoodFile(cfg, last);
      RestageResult(cfg, s, init);
      LastPathIsNew(files);
      hide StagedOnTop, PathsOf;
      StageOneMore(cfg, s, init, Restage(cfg, s, init), last);
    }
  }

  lemma LastPathIsNew(files: seq<GeneratedFile>)
    requires DistinctPaths(files) && files != []
    ensures files[|files| - 1].path !in PathsOf(files[..|files| - 1])
  {
  }

  /** Files with the same paths as others in scope, position by position. */
  ghost predicate SamePaths(files: seq<GeneratedFile>, repaired: seq<GeneratedFile>) {
    |repaired| == |files| && forall i | 0 <= i < |files| :: repaired[i].path == files[i].path
  }

  lemma SamePathsFacts(files: seq<GeneratedFile>, repaired: seq<GeneratedFile>)
    requires SamePaths(files, repaired)
    ensures PathsOf(files) == PathsOf(repaired)
    ensures DistinctPaths(files) ==> DistinctPaths(repaired)
  {
    forall p ensures p in PathsOf(files) <==> p in PathsOf(repaired) {
      if p in PathsOf(files) {
        var f :| f in files && f.path == p;
        var i :| 0 <= i < |files| && files[i] == f;
        assert repaired[i] in repaired;
      }
      if p in PathsOf(repaired) {
        var f :| f in repaired && f.path == p;
        var i :| 0 <= i < |files| && repaired[i] == f;
        assert files[i] in files;
      }
    }
  }

  lemma RenderedIsGood(cfg: Config, f: GeneratedFile, path: string)
    requires AutoRepair.WellRendered(f, path) && path in AllowedPaths(cfg.plan)
    ensures GoodFile(cfg, f)
  {
    hide AllowedPaths, OneTrailingNewline, NormalizeContent;
    NormalizeStable(path, f.content);
  }

  /** An applied repair of good files gives good files with the same paths. */
  lemma RepairedAreGood(
    cfg: Config, h: AutoRepair.Helpers, files: seq<GeneratedFile>, diags: seq<AutoRepair.Diagnostic>,
    paths: seq<string>)
    requires GoodFiles(cfg, files)
    requires AutoRepair.RepairSpec(h, files, diags, paths).Applied?
    ensures var repaired := AutoRepair.RepairSpec(h, files, diags, paths).files;
            SamePaths(files, repaired) && GoodFiles(cfg, repaired)
  {
    hide AutoRepair.RepairSpec, AllowedPaths, GoodFile, AutoRepair.WellRendered, AutoRepair.Named, TrimSpace,
         AutoRepair.Renaming;
    AutoRepair.RepairFrame(h, files, diags, paths);
    var repaired := AutoRepair.RepairSpec(h, files, diags, paths).files;
    forall i | 0 <= i < |files| ensures repaired[i].path == files[i].path && GoodFile(cfg, repaired[i]) {
      GoodAt(cfg, h, files, diags, paths, i, repaired[i]);
    }
  }

  lemma GoodAt(cfg: Config, h: AutoRepair.Helpers, files: seq<GeneratedFile>, diags: seq<AutoRepair.Diagnostic>,
               paths: seq<string>, i: nat, after: GeneratedFile)
    requires GoodFiles(cfg, files) && i < |files|
    requires AutoRepair.FrameHolds(h, files, diags, paths, i, after)
    ensures after.path == files[i].path && GoodFile(cfg, after)
  {
    hide AutoRepair.Collect, AllowedPaths, AutoRepair.Named, TrimSpace, AutoRepair.Renaming, OneTrailingNewline,
         NormalizeFile;
    assert GoodFile(cfg, files[i]);
    AllowedPathIsClean(cfg.plan, files[i].path);
    if after != files[i] {
      RenderedIsGood(cfg, after, files[i].path);
    }
  }

  /** After a repair that applies, staging is exactly the files that are validated again: each is a
      candidate under its own path, and every candidate is one of them. */
  ghost predicate StagedExactly(cfg: Config, s: State, files: seq<GeneratedFile>) {
    && GoodFiles(cfg, files) && DistinctPaths(files) && files != []
    && Scoped(cfg, s.candidates) && Tracked(s)
    && (forall f | f in files :: f.path in s.candidates && s.candidates[f.path] == f)
    && (forall p | p in s.candidates :: s.candidates[p] in files)
  }

  /** Restaging onto candidates that all come from the same paths. */
  lemma RestageExactly(cfg: Config, s: State, files: seq<GeneratedFile>)
    requires GoodFiles(cfg, files) && DistinctPaths(files) && files != []
    requires Scoped(cfg, s.candidates) && Tracked(s)
    requires forall p | p in s.candidates :: p in PathsOf(files)
    ensures StagedExactly(cfg, Restage(cfg, s, files), files)
  {
    hide GoodFile, Restage;
    RestageResult(cfg, s, files);
  }

  /** The staging a repair attempt leaves, whether or not a repair applied. */
  lemma AttemptStaging(cfg: Config, s: State, w: World, diags: seq<AutoRepair.Diagnostic>)
    requires Scoped(cfg, s.candidates) && Tracked(s)
    requires LintFiles(cfg, s.candidates, w.disk) != []
    ensures var attempt := TryRepair(cfg, s, w, LintFiles(cfg, s.candidates, w.disk), diags);
            var r := attempt.state;
            r == s.(candidates := r.candidates, readState := r.readState) &&
            Scoped(cfg, r.candidates) && Tracked(r) &&
            (attempt.files.Some? ==> StagedExactly(cfg, r, attempt.files.value))
  {
    hide LintFiles, RemoveInvalidPrepare, Restage, AutoRepair.RepairSpec, RepairPaths, GoodFile, StagedExactly;
    var lint := LintFiles(cfg, s.candidates, w.disk);
    var cleaned := RemoveInvalidPrepare(s.candidates, lint, diags);
    var s1 := s.(candidates := cleaned.candidates);
    CleanedFacts(cfg, s, w.disk, diags);
    var outcome := AutoRepair.RepairSpec(w.helpers, cleaned.files, cleaned.diags, RepairPaths(cfg, cleaned.candidates));
    match outcome
    case Failed =>
    case NotApplied =>
      if |cleaned.files| < |lint| { RestageKeeps(cfg, s1, cleaned.files); }
    case Applied(repaired) =>
      RepairedAreGood(cfg, w.helpers, cleaned.files, cleaned.diags, RepairPaths(cfg, cleaned.candidates));
      SamePathsFacts(cleaned.files, repaired);
      RestageKeeps(cfg, s1, repaired);
  }

  lemma RestageKeeps(cfg: Config, s: State, files: seq<GeneratedFile>)
    requires GoodFiles(cfg, files) && DistinctPaths(files) && files != []
    requires Scoped(cfg, s.candidates) && Tracked(s)
    requires forall p | p in s.candidates :: p in PathsOf(files)
    ensures var r := Restage(cfg, s, files);
            r == s.(candidates := r.candidates, readState := r.readState) &&
            Scoped(cfg, r.candidates) && Tracked(r) && StagedExactly(cfg, r, files)
  {
    hide Restage, Tracked, GoodFile;
    RestageResult(cfg, s, files);
    RestageExactly(cfg, s, files);
  }

  /** Cleaning the lint list: what stays is good, and covers every candidate that stays. */
  lemma CleanedFacts(cfg: Config, s: State, disk: Disk, diags: seq<AutoRepair.Diagnostic>)
    requires Scoped(cfg, s.candidates) && Tracked(s)
    requires LintFiles(cfg, s.candidates, disk) != []
    ensures var cleaned := RemoveInvalidPrepare(s.candidates, LintFiles(cfg, s.candidates, disk), diags);
            var s1 := s.(candidates := cleaned.candidates);
            GoodFiles(cfg, cleaned.files) && DistinctPaths(cleaned.files) && cleaned.files != [] &&
            Scoped(cfg, s1.candidates) && Tracked(s1) &&
            (forall p | p in s1.candidates :: p in PathsOf(cleaned.files))
  {
    hide LintFiles, PreparePath, WithoutPath, NotMentioning, TrimSpace, Contains, AllowedPaths, NormalizeFile, OnDisk;
    var lint := LintFiles(cfg, s.candidates, disk);
    var cleaned := RemoveInvalidPrepare(s.candidates, lint, diags);
    LintMembers(cfg, s.candidates, disk);
    if DropsPrepare(lint, diags) {
      var path := PreparePath(lint, diags).value;
      WithoutPathMembers(lint, path);
      forall p | p in cleaned.candidates ensures p in PathsOf(cleaned.files) {
        AllowedPathIsClean(cfg.plan, p);
        assert s.candidates[p] in lint;
        assert s.candidates[p] in cleaned.files;
      }
    } else {
      forall p | p in s.candidates ensures p in PathsOf(lint) {
        assert s.candidates[p] in lint;
      }
    }
  }
}
