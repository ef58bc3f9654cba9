/** What holds of the session in every state it can reach. */
module SessionInvariant {
  import opened Text
  import opened Files
  import opened GenerationValidate
  import opened Session
  import opened LintFacts
  import opened RepairFacts
  import opened CheckFacts
  import ReadWindow
  import TextEdit

  // ---------------------------------------------------------------------------------------------
  // Reading the trace

  /** The latest executed validate. */
  ghost function LastCheck(h: seq<Record>): (r: Option<Record>)
    ensures r.Some? ==> r.value.Checked?
  {
    if h == [] then None
    else if h[|h| - 1].Checked? then Some(h[|h| - 1])
    else LastCheck(h[..|h| - 1])
  }

  /** How many executed validates failed on a nonempty file set. */
  ghost function FailedChecks(h: seq<Record>): nat {
    if h == [] then 0
    else
      var last := h[|h| - 1];
      FailedChecks(h[..|h| - 1]) + (if last.Checked? && last.linted != [] && last.verdict.Rejected? then 1 else 0)
  }

  /** A write or an edit that staged its file. */
  predicate Stages(r: Record) {
    r.Used? && r.ok && (r.tool == FileWrite || r.tool == FileEdit)
  }

  /** A file was staged after the latest executed validate. */
  ghost predicate StagedSince(h: seq<Record>) {
    if h == [] || h[|h| - 1].Checked? then false
    else Stages(h[|h| - 1]) || StagedSince(h[..|h| - 1])
  }

  // ---------------------------------------------------------------------------------------------
  // The invariant

  /** An executed validate answered for the files it records, all of them are good, and it left out
      nothing on disk. */
  ghost predicate CheckSound(cfg: Config, r: Record)
    requires r.Checked?
  {
    && GoodFiles(cfg, r.linted) && GoodFiles(cfg, r.shown) && DistinctPaths(r.shown)
    && r.verdict == ValidateIn(cfg, r.world, r.shown)
    && (r.linted == [] <==> r.shown == [])
    && Complete(cfg, r)
  }

  ghost predicate ChecksSound(cfg: Config, h: seq<Record>) {
    forall r | r in h && r.Checked? :: CheckSound(cfg, r)
  }

  /** The transcript and the trace tell the same story, line by line. */
  ghost predicate Aligned(events: seq<Event>, h: seq<Record>) {
    |events| == |h| &&
    forall i | 0 <= i < |h| :: events[i].name == RecordName(h[i]) && events[i].ok == RecordOk(h[i])
  }

  /** The flags say what the trace says. */
  ghost predicate Bookkept(s: State) {
    (s.lintPassed <==> LastCheck(s.history).Some? && LastCheck(s.history).value.verdict.Passed?) &&
    s.failures == FailedChecks(s.history)
  }

  /** Every file the check was shown is still staged under its path, or came from disk. */
  ghost predicate Covered(cfg: Config, check: Record, c: Candidates)
    requires check.Checked?
  {
    forall f | f in check.shown :: f.path in c || IsNormalisedBase(cfg.resolve, check.world.disk, f)
  }

  /** While the verdict passes, what it was shown is staged or was on disk; and while nothing was staged
      since, what it was shown is what is staged now, over the disk it saw. */
  ghost predicate Fresh(cfg: Config, s: State) {
    s.lintPassed ==>
      LastCheck(s.history).Some? &&
      var check := LastCheck(s.history).value;
      Covered(cfg, check, s.candidates) &&
      (!StagedSince(s.history) ==>
        ShownFrom(cfg.resolve, check.world.disk, check.shown, CandidateFiles(s.candidates)))
  }

  ghost predicate Inv(cfg: Config, s: State) {
    && Scoped(cfg, s.candidates)
    && Tracked(s)
    && Grouped(cfg, s.candidates)
    && ChecksSound(cfg, s.history)
    && Aligned(s.events, s.history)
    && Bookkept(s)
    && Fresh(cfg, s)
  }

  lemma InitialInv(cfg: Config)
    ensures Inv(cfg, INITIAL)
  {
    hide CandidateFiles;
  }

  // ---------------------------------------------------------------------------------------------
  // Every step keeps it

  /** Adding a transcript line. */
  lemma LogReads(s: State, turn: nat, name: string, ok: bool, r: Record)
    ensures var h := Log(s, turn, name, ok, r).history;
            LastCheck(h) == (if r.Checked? then Some(r) else LastCheck(s.history)) &&
            FailedChecks(h) == FailedChecks(s.history)
              + (if r.Checked? && r.linted != [] && r.verdict.Rejected? then 1 else 0) &&
            (StagedSince(h) <==>
              (!r.Checked? && (Stages(r) || StagedSince(s.history))))
  {
    var h := s.history + [r];
    assert h[..|h| - 1] == s.history;
  }

  /** A line for a call that changed nothing the invariant speaks of. */
  lemma QuietLineKeepsInv(cfg: Config, s: State, turn: nat, name: string, ok: bool, r: Record)
    requires Inv(cfg, s) && !r.Checked? && !Stages(r)
    requires name == RecordName(r) && ok == RecordOk(r)
    ensures Inv(cfg, Log(s, turn, name, ok, r))
  {
    hide CandidateFiles, Scoped, CheckSound, ShownFrom, LastCheck, FailedChecks, StagedSince, RecordName, RecordOk;
    LogReads(s, turn, name, ok, r);
  }

  /** Staging a normalised file in scope. */
  lemma StagingKeepsInv(
    cfg: Config, s: State, path: string, content: string, turn: nat, tool: Tool, sights: seq<Sight>)
    requires Inv(cfg, s) && WriteAllowed(cfg, path) && (tool == FileWrite || tool == FileEdit)
    requires NormalizeContent(path, content) == content && Nameable(cfg, path)
    ensures Inv(cfg, Log(Stage(s, path, content), turn, ToolName(tool), true, Used(tool, true, sights)))
  {
    hide CandidateFiles, CheckSound, ShownFrom, LastCheck, FailedChecks, StagedSince, NormalizeContent, AllowedPaths,
         ToolName, Nameable, Droppable, IsNormalisedBase;
    LogReads(Stage(s, path, content), turn, ToolName(tool), true, Used(tool, true, sights));
  }

  /** Reading only ever records the content that is current, so snapshots of candidates stay exact. */
  lemma {:induction false} ReadKeepsInv(cfg: Config, s: State, disk: Disk, paths: seq<string>, offset: int, limit: int)
    requires Inv(cfg, s)
    ensures var s' := RunRead(cfg, s, disk, paths, offset, limit).0;
            Inv(cfg, s') && s' == s.(readState := s'.readState)
    decreases |paths|
  {
    hide CandidateFiles, CheckSound, ShownFrom, ReadAllowed, ReadDisk, ReadWindow.ReadWindow, NormalizeFile,
         AllowedPaths;
    if paths != [] {
      var p := cfg.normalize(paths[0]);
      if p.Some? && ReadAllowed(cfg, p.value) && CurrentContent(cfg, s, disk, p.value).Current? {
        var current := CurrentContent(cfg, s, disk, p.value);
        var snapshot := Snapshot(current.content, true, current.candidate, true);
        var seen := s.(readState := s.readState[p.value := snapshot]);
        if current.present { SnapshotKeepsInv(cfg, s, disk, p.value); }
        var w := ReadWindow.ReadWindow(current.content, offset, limit);
        var next := if current.present && !w.truncated && w.startLine == 1 then seen else s;
        ReadKeepsInv(cfg, next, disk, paths[1..], offset, limit);
      }
    }
  }

  lemma SnapshotKeepsInv(cfg: Config, s: State, disk: Disk, p: string)
    requires Inv(cfg, s) && CurrentContent(cfg, s, disk, p).Current? && CurrentContent(cfg, s, disk, p).present
    ensures var current := CurrentContent(cfg, s, disk, p);
            Inv(cfg, s.(readState := s.readState[p := Snapshot(current.content, true, current.candidate, true)]))
  {
    hide CandidateFiles, ChecksSound, ShownFrom, ReadDisk, GoodFile, LastCheck, FailedChecks, StagedSince, Aligned;
  }

  /** What one executed validate does to the state. */
  ghost predicate CheckStep(cfg: Config, s: State, s': State, r: Record) {
    && r.Checked? && CheckSound(cfg, r)
    && Scoped(cfg, s'.candidates) && Tracked(s') && Grouped(cfg, s'.candidates)
    && (s'.lintPassed <==> r.verdict.Passed?)
    && s'.failures == s.failures + (if r.linted != [] && r.verdict.Rejected? then 1 else 0)
    && (r.verdict.Passed? ==> ShownFrom(cfg.resolve, r.world.disk, r.shown, CandidateFiles(s'.candidates))
                              && Covered(cfg, r, s'.candidates))
    && s' == s.(candidates := s'.candidates, readState := s'.readState, lintPassed := s'.lintPassed,
                failures := s'.failures, idle := 0)
  }

  lemma NoFilesRejected(cfg: Config, w: World)
    ensures ValidateIn(cfg, w, []) == Rejected(NoFiles)
  {
  }

  lemma StagedExactlyIsShown(cfg: Config, s: State, disk: Disk, files: seq<GeneratedFile>)
    requires StagedExactly(cfg, s, files)
    ensures ShownFrom(cfg.resolve, disk, files, CandidateFiles(s.candidates))
  {
    hide CandidateFiles, AllowedPaths, NormalizeFile;
    CandidateMembers(cfg, s.candidates);
    assert forall f | f in files :: GoodFile(cfg, f);
  }

  lemma ShownIsCovered(cfg: Config, r: Record, c: Candidates)
    requires r.Checked? && Scoped(cfg, c) && ShownFrom(cfg.resolve, r.world.disk, r.shown, CandidateFiles(c))
    ensures Covered(cfg, r, c)
  {
    hide CandidateFiles, GoodFile, IsNormalisedBase;
    CandidateMembers(cfg, c);
  }

  lemma ValidateStep(cfg: Config, s: State, w: World)
    requires Scoped(cfg, s.candidates) && Tracked(s) && Grouped(cfg, s.candidates)
    ensures CheckStep(cfg, s, RunValidate(cfg, s, w).0, RunValidate(cfg, s, w).1)
  {
    hide LintFiles, ValidateIn, TryRepair, ShownFrom, CandidateFiles, GoodFiles, DistinctPaths, Scoped, Tracked,
         Complete, Diagnostics, Grouped, Covered;
    CheckIsComplete(cfg, s, w);
    var s0 := s.(idle := 0);
    var files := LintFiles(cfg, s.candidates, w.disk);
    NoFilesRejected(cfg, w);
    LintIsGood(cfg, s.candidates, w.disk);
    IdleKeepsTracked(s);
    LintIsShown(cfg, s.candidates, w.disk);
    EmptyIsGood(cfg);
    if files != [] && ValidateIn(cfg, w, files).Rejected? {
      var diags := Diagnostics(w, ValidateIn(cfg, w, files).reason);
      AttemptStaging(cfg, s0, w, diags);
      AttemptKeepsGroups(cfg, s0, w, diags);
      var attempt := TryRepair(cfg, s0, w, files, diags);
      FlagsKeepTracked(attempt.state, true, s.failures);
      FlagsKeepTracked(attempt.state, false, s.failures + 1);
      if attempt.files.Some? {
        StagedExactlyIsShown(cfg, attempt.state, w.disk, attempt.files.value);
      }
    }
    var r := RunValidate(cfg, s, w);
    if r.1.verdict.Passed? { ShownIsCovered(cfg, r.1, r.0.candidates); }
  }

  lemma IdleKeepsTracked(s: State)
    ensures Tracked(s) ==>
              Tracked(s.(idle := 0)) && Tracked(s.(idle := 0, lintPassed := true))
              && Tracked(s.(idle := 0, lintPassed := false))
  {
  }

  lemma FlagsKeepTracked(s: State, lintPassed: bool, failures: nat)
    requires Tracked(s)
    ensures Tracked(s.(lintPassed := lintPassed)) && Tracked(s.(lintPassed := lintPassed, failures := failures))
  {
  }

  lemma LintIsGood(cfg: Config, c: Candidates, disk: Disk)
    requires Scoped(cfg, c)
    ensures GoodFiles(cfg, LintFiles(cfg, c, disk)) && DistinctPaths(LintFiles(cfg, c, disk))
  {
    hide LintFiles, GoodFiles, Scoped, DistinctPaths;
    LintMembers(cfg, c, disk);
  }

  lemma EmptyIsGood(cfg: Config)
    ensures GoodFiles(cfg, []) && DistinctPaths([])
  {
  }

  lemma CheckStepKeepsInv(cfg: Config, s: State, s': State, turn: nat, r: Record)
    requires Inv(cfg, s) && CheckStep(cfg, s, s', r)
    ensures Inv(cfg, Log(s', turn, "validate", r.verdict.Passed?, r))
  {
    hide CandidateFiles, Scoped, CheckSound, ShownFrom, LastCheck, FailedChecks, StagedSince;
    LogReads(s', turn, "validate", r.verdict.Passed?, r);
  }

  lemma IdleKeepsInv(cfg: Config, s: State, idle: nat)
    requires Inv(cfg, s)
    ensures Inv(cfg, s.(idle := idle))
  {
    hide CandidateFiles, Scoped, CheckSound, ShownFrom, LastCheck, FailedChecks, StagedSince;
  }

  lemma EditKeepsInv(cfg: Config, s: State, turn: nat, call: ToolCall, disk: Disk, sights: seq<Sight>)
    requires Inv(cfg, s)
    ensures var r := RunFileEdit(cfg, s, disk, call);
            Inv(cfg, Log(r.0, turn, "file_edit", r.1, Used(FileEdit, r.1, sights)))
  {
    hide EditResult, Inv, WriteAllowed, NormalizeContent;
    var s0 := s.(idle := 0);
    IdleKeepsInv(cfg, s, 0);
    var end := EditResult(cfg, s0, disk, call);
    if end.Edited? {
      EditedIsNormal(cfg, s0, disk, call);
      StagingKeepsInv(cfg, s0, end.path, end.content, turn, FileEdit, sights);
    } else {
      QuietLineKeepsInv(cfg, s0, turn, "file_edit", false, Used(FileEdit, false, sights));
    }
  }

  lemma EditedIsNormal(cfg: Config, s: State, disk: Disk, call: ToolCall)
    requires EditResult(cfg, s, disk, call).Edited?
    ensures var end := EditResult(cfg, s, disk, call);
            WriteAllowed(cfg, end.path) && Nameable(cfg, end.path)
            && NormalizeContent(end.path, end.content) == end.content
  {
    hide NormalizeContent, WriteAllowed, CurrentContent;
    var p := cfg.normalize(call.path).value;
    var text := CurrentContent(cfg, s, disk, p).content;
    NormalizeStable(p, if call.replaceAll then TextEdit.ReplaceAll(text, call.oldString, call.newString)
                       else TextEdit.ReplaceFirst(text, call.oldString, call.newString));
  }

  lemma WriteKeepsInv(cfg: Config, s: State, turn: nat, call: ToolCall, sights: seq<Sight>)
    requires Inv(cfg, s)
    ensures var r := RunFileWrite(cfg, s, call);
            Inv(cfg, Log(r.0, turn, "file_write", r.1, Used(FileWrite, r.1, sights)))
  {
    hide Inv, NormalizeContent, WriteAllowed;
    var s0 := s.(idle := 0);
    IdleKeepsInv(cfg, s, 0);
    var p := cfg.normalize(call.path);
    if p.Some? && WriteAllowed(cfg, p.value) {
      NormalizeStable(p.value, call.content);
      StagingKeepsInv(cfg, s0, p.value, NormalizeContent(p.value, call.content), turn, FileWrite, sights);
    } else {
      QuietLineKeepsInv(cfg, s0, turn, "file_write", false, Used(FileWrite, false, sights));
    }
  }

  /** Every tool call keeps the invariant, whatever the disk and the other packages answer. */
  lemma ExecuteKeepsInv(cfg: Config, s: State, turn: nat, call: ToolCall, w: World)
    requires Inv(cfg, s)
    ensures Inv(cfg, Execute(cfg, s, turn, call, w))
  {
    hide Inv, RunRead, RunFileWrite, RunFileEdit, RunValidate, CheckStep, Sights;
    var sights := Sights(cfg, s, call, w);
    match call.tool {
      case ValidateTool =>
        assert Scoped(cfg, s.candidates) && Tracked(s) && Grouped(cfg, s.candidates) by { InvParts(cfg, s); }
        ValidateStep(cfg, s, w);
        var r := RunValidate(cfg, s, w);
        CheckStepKeepsInv(cfg, s, r.0, turn, r.1);
      case Read =>
        ReadKeepsInv(cfg, s, w.disk, call.paths, call.offset, call.limit);
        var r := RunRead(cfg, s, w.disk, call.paths, call.offset, call.limit);
        QuietLineKeepsInv(cfg, r.0, turn, "read", r.1, Used(Read, r.1, sights));
      case FileWrite => WriteKeepsInv(cfg, s, turn, call, sights);
      case FileEdit => EditKeepsInv(cfg, s, turn, call, w.disk, sights);
      case Init =>
        var ok := !cfg.hasWorkflowTree && w.otherOk;
        IdleKeepsInv(cfg, s, 0);
        QuietLineKeepsInv(cfg, s.(idle := 0), turn, "init", ok, Used(Init, ok, sights));
      case other => QuietLineKeepsInv(cfg, s, turn, ToolName(other), w.otherOk, Used(other, w.otherOk, sights));
    }
  }

  lemma InvParts(cfg: Config, s: State)
    requires Inv(cfg, s)
    ensures Scoped(cfg, s.candidates) && Tracked(s) && Grouped(cfg, s.candidates)
  {
  }
}
