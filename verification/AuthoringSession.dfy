/** The session object of internal/askcli/author_runtime.go: its fields, and the methods that update them,
    each proved to take the step that module Session specifies. */
module AuthoringSession {
  import opened Text
  import opened Files
  import opened GenerationValidate
  import opened Session
  import AutoRepair
  import ReadWindow
  import SessionRuns
  import Sorting
  import TextEdit

  class AuthoringSession {
    const cfg: Config
    const approvedPaths: set<string>
    const approvedPathList: seq<string>
    var candidateByPath: Candidates
    var readState: map<string, Snapshot>
    var toolEvents: seq<Event>
    var lastLintPassed: bool
    var verificationFailure: nat
    var postValidateIdle: nat
    var turnsUsed: nat
    ghost var history: seq<Record>
    ghost var marks: seq<Candidates>

    /** The scope is the plan's, computed once. */
    ghost predicate Valid() {
      approvedPaths == AllowedPaths(cfg.plan) && approvedPathList == ApprovedList(cfg)
    }

    /** The fields as one value. */
    ghost function View(): State
      reads this
    {
      State(candidateByPath, readState, toolEvents, lastLintPassed, verificationFailure, postValidateIdle,
            turnsUsed, history, marks)
    }

    /** newAuthoringAgentSession */
    constructor (cfg: Config)
      ensures Valid() && this.cfg == cfg && View() == INITIAL
    {
      var approved := AllowedPlanPaths(cfg.plan);
      var list := Sorting.SortStrings(approved);
      this.cfg := cfg;
      approvedPaths, approvedPathList := approved, list;
      candidateByPath, readState, toolEvents := map[], map[], [];
      lastLintPassed, verificationFailure, postValidateIdle, turnsUsed := false, 0, 0, 0;
      history, marks := [], [];
    }

    // -------------------------------------------------------------------------------------------
    // Files in view

    /** candidateFiles */
    method CandidateFileList() returns (files: seq<GeneratedFile>)
      ensures files == CandidateFiles(candidateByPath)
    {
      var keys := Sorting.SortStrings(candidateByPath.Keys);
      files := Pick(candidateByPath, keys);
    }

    /** baseFilesForLint */
    method BaseFilesForLint(disk: Disk) returns (files: seq<GeneratedFile>)
      requires Valid()
      ensures files == BaseFiles(cfg, disk, ApprovedList(cfg))
    {
      hide ReadDisk, NormalizeContent, AllowedPaths, Sorted;
      files := [];
      for i := 0 to |approvedPathList|
        invariant BaseFiles(cfg, disk, approvedPathList) == files + BaseFiles(cfg, disk, approvedPathList[i..])
      {
        var path := approvedPathList[i];
        assert approvedPathList[i..][1..] == approvedPathList[i + 1..];
        ghost var rest, before := BaseFiles(cfg, disk, approvedPathList[i + 1..]), files;
        match ReadDisk(cfg, disk, path) {
          case Content(text) =>
            var file := GeneratedFile(path, NormalizeContent(path, text), false);
            files := files + [file];
            AppendOne(before, file, rest);
          case _ =>
        }
      }
    }

    static method DropSeen(files: seq<GeneratedFile>, seen: set<string>) returns (kept: seq<GeneratedFile>)
      ensures kept == NotIn(files, seen)
    {
      kept := [];
      for i := 0 to |files|
        invariant NotIn(files, seen) == kept + NotIn(files[i..], seen)
      {
        assert files[i..][1..] == files[i + 1..];
        ghost var rest, before := NotIn(files[i + 1..], seen), kept;
        AppendOne(before, files[i], rest);
        if files[i].path !in seen { kept := kept + [files[i]]; }
      }
    }

    /** lintFiles */
    method LintFileList(disk: Disk) returns (files: seq<GeneratedFile>)
      requires Valid()
      ensures files == LintFiles(cfg, candidateByPath, disk)
    {
      hide BaseFiles, CandidateFiles, NormalizeFile, NotIn, AllowedPaths;
      var staged := CandidateFileList();
      var seen := PathsOf(staged);
      var base := BaseFilesForLint(disk);
      var extra := DropSeen(base, seen);
      files := NormalizeFiles(staged + extra);
    }

    // -------------------------------------------------------------------------------------------
    // Tools

    /** runRead */
    method RunRead(disk: Disk, paths: seq<string>, offset: int, limit: int) returns (ok: bool)
      requires Valid()
      modifies this`readState
      ensures (View(), ok) == Session.RunRead(cfg, old(View()), disk, paths, offset, limit)
    {
      hide ReadAllowed, CurrentContent, ReadWindow.ReadWindow;
      for i := 0 to |paths|
        invariant Session.RunRead(cfg, View(), disk, paths[i..], offset, limit)
               == Session.RunRead(cfg, old(View()), disk, paths, offset, limit)
      {
        assert paths[i..][1..] == paths[i + 1..];
        var path := cfg.normalize(paths[i]);
        if path.None? || !ReadAllowed(cfg, path.value) { return false; }
        var current := CurrentFileContent(disk, path.value);
        if current.ReadError? { return false; }
        if current.present {
          var w := ReadWindow.ReadWindow(current.content, offset, limit);
          if !w.truncated && w.startLine == 1 {
            readState := readState[path.value := Snapshot(current.content, true, current.candidate, true)];
          }
        }
      }
      return true;
    }

    /** currentFileContent */
    method CurrentFileContent(disk: Disk, path: string) returns (r: Current)
      ensures r == CurrentContent(cfg, View(), disk, path)
    {
      if path in candidateByPath {
        var file := candidateByPath[path];
        if file.delete { return Current("", false, true); }
        return Current(file.content, true, true);
      }
      match ReadDisk(cfg, disk, path) {
        case Unreadable => return ReadError;
        case Missing => return Current("", false, false);
        case Content(text) => return Current(text, true, false);
      }
    }

    /** runFileWrite */
    method RunFileWrite(call: ToolCall) returns (ok: bool)
      requires Valid()
      modifies this`candidateByPath, this`readState, this`postValidateIdle
      ensures (View(), ok) == Session.RunFileWrite(cfg, old(View()), call)
    {
      hide NormalizeContent, AllowedPaths;
      postValidateIdle := 0;
      var path := cfg.normalize(call.path);
      if path.None? || path.value !in approvedPaths { return false; }
      var file := GeneratedFile(path.value, NormalizeContent(path.value, call.content), false);
      candidateByPath := candidateByPath[path.value := file];
      readState := readState[path.value := Snapshot(file.content, true, true, true)];
      return true;
    }

    /** The checks of runFileEdit, in their order, and the text the edit would give. */
    method DecideEdit(disk: Disk, call: ToolCall) returns (end: EditEnd)
      requires Valid()
      ensures end == EditResult(cfg, View(), disk, call)
    {
      hide NormalizeContent, CurrentContent, TextEdit.Count, TextEdit.ReplaceAll, TextEdit.ReplaceFirst, AllowedPaths;
      var path := cfg.normalize(call.path);
      if path.None? { return BadPath; }
      if path.value !in approvedPaths { return Denied; }
      if path.value !in readState || !readState[path.value].fullRead { return NeedsFullRead; }
      var snapshot := readState[path.value];
      var current := CurrentFileContent(disk, path.value);
      if current.ReadError? { return EditReadError; }
      if current.present != snapshot.present || current.content != snapshot.content { return Stale; }
      if !current.present { return NoFile; }
      if call.oldString == call.newString { return NoChange; }
      var count := TextEdit.Count(current.content, call.oldString);
      if count == 0 { return NotFound; }
      if count > 1 && !call.replaceAll { return Ambiguous; }
      var updated := TextEdit.ReplaceFirst(current.content, call.oldString, call.newString);
      if call.replaceAll { updated := TextEdit.ReplaceAll(current.content, call.oldString, call.newString); }
      return Edited(path.value, NormalizeContent(path.value, updated));
    }

    /** runFileEdit */
    method RunFileEdit(disk: Disk, call: ToolCall) returns (ok: bool)
      requires Valid()
      modifies this`candidateByPath, this`readState, this`postValidateIdle
      ensures (View(), ok) == Session.RunFileEdit(cfg, old(View()), disk, call)
    {
      hide EditResult, AllowedPaths;
      postValidateIdle := 0;
      var end := DecideEdit(disk, call);
      if !end.Edited? { return false; }
      candidateByPath := candidateByPath[end.path := GeneratedFile(end.path, end.content, false)];
      readState := readState[end.path := Snapshot(end.content, true, true, true)];
      return true;
    }

    /** The search of removeInvalidPrepareCandidate for the prepare file the diagnostics are about. */
    static method FindPreparePath(
      files: seq<GeneratedFile>, diags: seq<AutoRepair.Diagnostic>) returns (path: Option<string>)
      ensures path == PreparePath(files, diags)
    {
      hide IsPrepareIssue, Contains, TrimSpace, HasSuffix;
      path := None;
      for i := 0 to |diags|
        invariant path == PreparePath(files, diags[..i])
      {
        assert diags[..i + 1][..i] == diags[..i];
        var msg := diags[i].message;
        if IsPrepareIssue(msg) {
          var found: Option<string> := None;
          for j := 0 to |files|
            invariant MentionedPrepare(files, msg) == if found.Some? then found else MentionedPrepare(files[j..], msg)
          {
            assert files[j..][1..] == files[j + 1..];
            if found.None? && HasSuffix(TrimSpace(files[j].path), "prepare.yaml")
               && Contains(TrimSpace(msg), files[j].path) {
              found := Some(files[j].path);
            }
          }
          if found.Some? && found.value != "" { path := found; }
        }
      }
      assert diags[..|diags|] == diags;
    }

    /** removeInvalidPrepareCandidate */
    method RemoveInvalidPrepareCandidate(files: seq<GeneratedFile>, diags: seq<AutoRepair.Diagnostic>)
      returns (kept: seq<GeneratedFile>, left: seq<AutoRepair.Diagnostic>)
      modifies this`candidateByPath
      ensures CleanedLint(kept, left, candidateByPath) == RemoveInvalidPrepare(old(candidateByPath), files, diags)
    {
      hide PreparePath, Contains, TrimSpace, WithoutPath, NotMentioning;
      var path := FindPreparePath(files, diags);
      if path.None? { return files, diags; }
      if exists d | d in diags :: !Contains(TrimSpace(d.message), path.value) { return files, diags; }
      if forall f | f in files :: TrimSpace(f.path) == path.value || f.delete { return files, diags; }
      kept := KeepOthers(files, path.value);
      candidateByPath := candidateByPath - {path.value};
      left := KeepUnrelated(diags, path.value);
    }

    static method KeepOthers(files: seq<GeneratedFile>, path: string) returns (kept: seq<GeneratedFile>)
      ensures kept == WithoutPath(files, path)
    {
      hide TrimSpace;
      kept := [];
      for i := 0 to |files|
        invariant WithoutPath(files, path) == kept + WithoutPath(files[i..], path)
      {
        assert files[i..][1..] == files[i + 1..];
        ghost var rest, before := WithoutPath(files[i + 1..], path), kept;
        AppendOne(before, files[i], rest);
        if TrimSpace(files[i].path) != path { kept := kept + [files[i]]; }
      }
    }

    static method KeepUnrelated(
      diags: seq<AutoRepair.Diagnostic>, path: string) returns (left: seq<AutoRepair.Diagnostic>)
      ensures left == NotMentioning(diags, path)
    {
      hide Contains;
      left := [];
      for i := 0 to |diags|
        invariant NotMentioning(diags, path) == left + NotMentioning(diags[i..], path)
      {
        assert diags[i..][1..] == diags[i + 1..];
        ghost var rest, before := NotMentioning(diags[i + 1..], path), left;
        AppendOne(before, diags[i], rest);
        if !Contains(diags[i].message, path) { left := left + [diags[i]]; }
      }
    }

    /** tryAutoRepairAfterLintFailure up to the second validation */
    method TryAutoRepairAfterLintFailure(w: World, files: seq<GeneratedFile>, diags: seq<AutoRepair.Diagnostic>)
      returns (repaired: Option<seq<GeneratedFile>>)
      requires Valid()
      modifies this`candidateByPath, this`readState
      ensures RepairAttempt(View(), repaired) == TryRepair(cfg, old(View()), w, files, diags)
    {
      hide RemoveInvalidPrepare, AutoRepair.RepairSpec, CandidateFiles, AllowedPaths, Sorted, Restage;
      var kept, left := RemoveInvalidPrepareCandidate(files, diags);
      var prepareRemoved := |kept| < |files|;
      var repairPaths := approvedPathList;
      if repairPaths == [] {
        var staged := CandidateFileList();
        repairPaths := Sorting.SortStrings(PathsOf(staged));
      }
      var outcome := AutoRepair.TryAutoRepair(w.helpers, kept, left, repairPaths);
      if outcome.Failed? || (outcome.NotApplied? && !prepareRemoved) { return None; }
      var result := if outcome.Applied? then outcome.files else kept;
      StageAgain(result);
      return Some(result);
    }

    /** Its loop over the repaired files. */
    method StageAgain(files: seq<GeneratedFile>)
      requires Valid()
      modifies this`candidateByPath, this`readState
      ensures View() == Restage(cfg, old(View()), files)
    {
      hide AllowedPaths;
      for i := 0 to |files|
        invariant View() == Restage(cfg, old(View()), files[..i])
      {
        assert files[..i + 1][..i] == files[..i];
        var file := files[i];
        if file.path in approvedPaths {
          candidateByPath := candidateByPath[file.path := file];
          readState := readState[file.path := Snapshot(file.content, !file.delete, true, !file.delete)];
        }
      }
      assert files[..|files|] == files;
    }

    /** runValidate */
    method RunValidate(w: World) returns (ok: bool, ghost record: Record)
      requires Valid()
      modifies this`candidateByPath, this`readState, this`postValidateIdle, this`lastLintPassed
      modifies this`verificationFailure
      ensures (View(), record) == Session.RunValidate(cfg, old(View()), w) && ok == record.verdict.Passed?
    {
      hide LintFiles, TryRepair, Validate, AllowedPaths, ApprovedList, Valid, RestageSights;
      postValidateIdle := 0;
      var files := LintFileList(w.disk);
      if |files| == 0 {
        lastLintPassed := false;
        return false, Checked(w, [], [], Rejected(NoFiles), []);
      }
      var verdict := ValidateGeneration(cfg.resolve, w.checks, w.stageOk, w.disk, files, cfg.plan);
      if verdict.Rejected? {
        lastLintPassed := false;
        var failures := verificationFailure;
        ghost var mid := View();
        var repaired := TryAutoRepairAfterLintFailure(w, files, Diagnostics(w, verdict.reason));
        AttemptKeepsFlag(mid, old(View()), w, files, Diagnostics(w, verdict.reason));
        if repaired.Some? {
          var second := ValidateGeneration(cfg.resolve, w.checks, w.stageOk, w.disk, repaired.value, cfg.plan);
          record := Checked(w, files, repaired.value, second, RestageSights(cfg, repaired.value));
          if second.Passed? {
            lastLintPassed := true;
            return true, record;
          }
          lastLintPassed := false;
          verificationFailure := failures + 1;
          return false, record;
        }
        verificationFailure := failures + 1;
        return false, Checked(w, files, files, verdict, []);
      }
      lastLintPassed := true;
      return true, Checked(w, files, files, verdict, []);
    }

    /** The attempt neither looks at the verdict flag nor changes it. */
    lemma AttemptKeepsFlag(mid: State, s: State, w: World, files: seq<GeneratedFile>, diags: seq<AutoRepair.Diagnostic>)
      requires mid == s.(idle := 0, lintPassed := false)
      ensures var a, b := TryRepair(cfg, mid, w, files, diags), TryRepair(cfg, s.(idle := 0), w, files, diags);
              a.files == b.files && a.state == b.state.(lintPassed := false) &&
              a.state.failures == s.failures
    {
      hide RemoveInvalidPrepare, AutoRepair.RepairSpec, RepairPaths, Restage;
      var cleaned := RemoveInvalidPrepare(s.candidates, files, diags);
      var s1 := s.(idle := 0, candidates := cleaned.candidates);
      RestageFlag(s1, cleaned.files);
      var r := AutoRepair.RepairSpec(w.helpers, cleaned.files, cleaned.diags, RepairPaths(cfg, cleaned.candidates));
      if r.Applied? { RestageFlag(s1, r.files); }
    }

    lemma RestageFlag(s: State, files: seq<GeneratedFile>)
      ensures Restage(cfg, s.(lintPassed := false), files) == Restage(cfg, s, files).(lintPassed := false)
      ensures Restage(cfg, s, files).failures == s.failures
    {
      hide AllowedPaths;
      if files != [] { RestageFlag(s, files[..|files| - 1]); }
    }

    // -------------------------------------------------------------------------------------------
    // Dispatch

    /** The switch of executeTool. */
    method Dispatch(call: ToolCall, w: World) returns (ok: bool, ghost record: Record)
      requires Valid()
      modifies this`candidateByPath, this`readState, this`postValidateIdle, this`lastLintPassed
      modifies this`verificationFailure
      ensures (View(), record) == Effect(cfg, old(View()), call, w)
      ensures ok == RecordOk(record) && RecordName(record) == ToolName(call.tool)
    {
      hide Session.RunRead, Session.RunFileWrite, Session.RunFileEdit, Session.RunValidate, Valid, Sights;
      ghost var sights := Sights(cfg, View(), call, w);
      match call.tool {
        case ValidateTool =>
          ok, record := RunValidate(w);
          return ok, record;
        case Read => ok := RunRead(w.disk, call.paths, call.offset, call.limit);
        case FileWrite => ok := RunFileWrite(call);
        case FileEdit => ok := RunFileEdit(w.disk, call);
        case Init =>
          postValidateIdle := 0;
          ok := !cfg.hasWorkflowTree && w.otherOk;
        case _ => ok := w.otherOk;
      }
      record := Used(call.tool, ok, sights);
    }

    /** executeTool: run the tool and append its transcript line. */
    method ExecuteTool(turn: nat, call: ToolCall, w: World)
      requires Valid()
      modifies this
      ensures View() == Execute(cfg, old(View()), turn, call, w)
    {
      hide Effect, ToolName, RecordOk, RecordName, Valid;
      var ok, record := Dispatch(call, w);
      toolEvents := toolEvents + [Event(turn, ToolName(call.tool), ok)];
      history := history + [record];
    }

    /** appendSyntheticFailure */
    method AppendSyntheticFailure(turn: nat, name: string)
      modifies this`toolEvents, this`history
      ensures View() == TurnDown(old(View()), turn, name)
    {
      toolEvents := toolEvents + [Event(turn, name, false)];
      history := history + [TurnedDown(name)];
    }

    /** The finish branch of handleToolCalls, once the call is known to stand alone and parse. */
    method AcceptFinish(turn: nat) returns (end: CallsEnd)
      modifies this`toolEvents, this`history
      ensures (View(), end) == TryFinish(cfg, old(View()), turn)
    {
      hide CandidateFiles, TurnDown;
      if !lastLintPassed {
        AppendSyntheticFailure(turn, FINISH_NAME);
        return GoOn;
      }
      var files := CandidateFileList();
      if |files| == 0 && cfg.plan.route != Refine {
        AppendSyntheticFailure(turn, FINISH_NAME);
        return GoOn;
      }
      return Finishing;
    }

    /** handleToolCalls */
    method HandleToolCalls(turn: nat, calls: seq<ProviderCall>) returns (end: CallsEnd)
      requires Valid()
      modifies this
      ensures (View(), end) == HandleFrom(cfg, old(View()), turn, calls, 0, true)
    {
      hide Execute, IsReadOnly, TryFinish, TurnDown, Valid;
      var readOnlyTurn := true;
      for i := 0 to |calls|
        invariant HandleFrom(cfg, View(), turn, calls, i, readOnlyTurn)
               == HandleFrom(cfg, old(View()), turn, calls, 0, true)
      {
        match calls[i] {
          case Clarification(parses) =>
            if |calls| != 1 { return Broken(NotAlone); }
            if !parses { return Broken(BadArguments); }
            return Clarifying;
          case Finish(parses) =>
            if |calls| != 1 { return Broken(NotAlone); }
            if !parses { return Broken(BadArguments); }
            end := AcceptFinish(turn);
            return end;
          case Malformed(name) => AppendSyntheticFailure(turn, name);
          case Use(call, w) =>
            if !IsReadOnly(call.tool) { readOnlyTurn := false; }
            ExecuteTool(turn, call, w);
        }
      }
      if lastLintPassed && readOnlyTurn {
        postValidateIdle := postValidateIdle + 1;
      } else if !readOnlyTurn {
        postValidateIdle := 0;
      }
      return GoOn;
    }

    /** shouldAutoFinish */
    method ShouldAutoFinish() returns (r: bool)
      ensures r == AutoFinishes(View())
    {
      r := lastLintPassed && |candidateByPath| > 0 && postValidateIdle >= 2;
    }

    /** shouldAutoValidate: scan the transcript backwards over the trailing writes. */
    method ShouldAutoValidate() returns (r: bool)
      ensures r == AutoValidates(View())
    {
      if |candidateByPath| == 0 || |toolEvents| < 3 { return false; }
      var writeStreak := 0;
      for i := |toolEvents| downto 0
        invariant writeStreak == |toolEvents| - i
        invariant TrailingWrites(toolEvents, writeStreak)
      {
        var name := toolEvents[i].name;
        if name == "file_write" || name == "file_edit" {
          writeStreak := writeStreak + 1;
        } else {
          LongestStreak(writeStreak);
          if name == "validate" { return false; }
          return writeStreak >= 3;
        }
      }
      LongestStreak(writeStreak);
      return writeStreak >= 3;
    }

    /** The trailing writes found so far are the longest run if the event before them is no write. */
    lemma LongestStreak(n: nat)
      requires TrailingWrites(toolEvents, n)
      requires n < |toolEvents| ==> !IsWriteName(toolEvents[|toolEvents| - n - 1].name)
      ensures AutoValidates(View()) <==>
        (|candidateByPath| > 0 && |toolEvents| >= 3 && n >= 3 &&
         (n < |toolEvents| ==> toolEvents[|toolEvents| - n - 1].name != "validate"))
    {
      forall k: nat ensures TrailingWrites(toolEvents, k) <==> k <= n {
        if n < k <= |toolEvents| {
          assert !IsWriteName(toolEvents[|toolEvents| - n - 1].name);
        }
      }
      assert TrailingWrites(toolEvents, n) && !TrailingWrites(toolEvents, n + 1);
    }

    /** One pass through the loop of runAuthoringAgentRuntime. */
    method DoTurn(turn: nat, input: TurnInput) returns (end: Option<End>)
      requires Valid()
      modifies this
      ensures (View(), end) == RunTurn(cfg, old(View()), turn, input)
    {
      hide HandleFrom, EndTurn, CandidateFiles, Valid;
      turnsUsed := turn;
      marks := marks + [candidateByPath];
      if input.response.ProviderFailed? { return Some(Stopped(ProviderError)); }
      if |input.response.calls| == 0 { return Some(Stopped(NoToolCall)); }
      var step := HandleToolCalls(turn, input.response.calls);
      match step {
        case Broken(problem) => return Some(Stopped(problem));
        case Clarifying => return Some(AskedClarification);
        case Finishing =>
          var files := CandidateFileList();
          return Some(Finished(files, true));
        case GoOn =>
          end := CloseOut(turn, input.autoWorld);
      }
    }

    /** The end of a turn that goes on. */
    method CloseOut(turn: nat, autoWorld: World) returns (end: Option<End>)
      requires Valid()
      modifies this
      ensures (View(), end) == EndTurn(cfg, old(View()), turn, autoWorld)
    {
      hide Execute, AutoFinishes, AutoValidates, CandidateFiles, Valid;
      var quiet := ShouldAutoFinish();
      if quiet {
        var files := CandidateFileList();
        return Some(Finished(files, false));
      }
      var burst := ShouldAutoValidate();
      if burst { ExecuteTool(turn, VALIDATE_CALL, autoWorld); }
      if verificationFailure > cfg.verificationBudget { return Some(Stopped(FailureBudget)); }
      return None;
    }

    /** runAuthoringAgentRuntime, on a new session: the run the specification describes, which ends as every
        run does. */
    method RunAuthoringAgentRuntime(script: seq<TurnInput>, last: TurnInput) returns (end: End)
      requires Valid() && View() == INITIAL
      modifies this
      ensures (View(), end) == Run(cfg, script, last)
      ensures SessionRuns.AtEnd(cfg, View(), end)
    {
      hide RunTurn, TurnLimit, SessionRuns.AtEnd, Valid;
      SessionRuns.EveryRunEndsWell(cfg, script, last);
      var turn := 1;
      while turn <= TurnLimit(cfg)
        invariant turn >= 1
        invariant RunFrom(cfg, View(), turn, script, last) == Run(cfg, script, last)
      {
        var stop := DoTurn(turn, InputAt(script, turn, last));
        if stop.Some? { return stop.value; }
        turn := turn + 1;
      }
      return Stopped(TurnBudget);
    }
  }
}
