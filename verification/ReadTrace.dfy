/** What the session's snapshots stand for: the text of a file that was last rendered in full or staged. */
module ReadTrace {
  import opened Text
  import opened Files
  import opened GenerationValidate
  import opened Session
  import opened SessionRuns
  import AutoRepair
  import ReadWindow
  import TextEdit

  /** The text a sight gives in full: what was staged, or the lines of a window that is the whole file. */
  function FullText(sight: Sight): Option<string> {
    match sight
    case Rendered(_, w) =>
      if !w.truncated && w.startLine == 1 then Some(ReadWindow.Unlines(LineTexts(w.shown))) else None
    case Staged(_, content) => Some(content)
  }

  function LineTexts(shown: seq<(nat, string)>): (r: seq<string>)
    ensures |r| == |shown| && forall i | 0 <= i < |shown| :: r[i] == shown[i].1
  {
    seq(|shown|, i requires 0 <= i < |shown| => shown[i].1)
  }

  /** The last text of p that some sights give in full. */
  function LastIn(sights: seq<Sight>, p: string): Option<string> {
    if sights == [] then None
    else
      var last := sights[|sights| - 1];
      if last.path == p && FullText(last).Some? then FullText(last) else LastIn(sights[..|sights| - 1], p)
  }

  function SightsOf(r: Record): seq<Sight> {
    if r.TurnedDown? then [] else r.sights
  }

  /** The last text of p that the trace gives in full. */
  function LastSeen(h: seq<Record>, p: string): Option<string> {
    if h == [] then None
    else
      var here := LastIn(SightsOf(h[|h| - 1]), p);
      if here.Some? then here else LastSeen(h[..|h| - 1], p)
  }

  /** Every full snapshot holds the text that was last rendered in full or staged. */
  ghost predicate Remembered(s: State) {
    forall p | p in s.readState && s.readState[p].fullRead :: LastSeen(s.history, p) == Some(s.readState[p].content)
  }

  /** The full snapshots afterwards are those before, but for the paths the sights give in full. */
  ghost predicate Explains(sights: seq<Sight>, before: map<string, Snapshot>, after: map<string, Snapshot>) {
    forall p | p in after && after[p].fullRead ::
      if LastIn(sights, p).Some? then LastIn(sights, p).value == after[p].content
      else p in before && before[p] == after[p]
  }

  // ---------------------------------------------------------------------------------------------
  // One call

  /** A window that is the whole file gives its text. */
  lemma WholeWindow(p: string, text: string, offset: int, limit: int)
    ensures var w := ReadWindow.ReadWindow(text, offset, limit);
            FullText(Rendered(p, w)) == if !w.truncated && w.startLine == 1 then Some(text) else None
  {
    hide ReadWindow.ReadWindow;
    var w := ReadWindow.ReadWindow(text, offset, limit);
    ReadWindow.FullReadShowsEverything(text, offset, limit);
    if !w.truncated && w.startLine == 1 {
      assert LineTexts(w.shown) == ReadWindow.Lines(text);
      ReadWindow.LinesRoundTrip(text);
    }
  }

  lemma {:induction false} LastInAppend(a: seq<Sight>, b: seq<Sight>, p: string)
    ensures LastIn(a + b, p) == if LastIn(b, p).Some? then LastIn(b, p) else LastIn(a, p)
  {
    hide FullText;
    if b == [] {
      assert a + b == a;
    } else {
      assert (a + b)[..|a + b| - 1] == a + b[..|b| - 1];
      LastInAppend(a, b[..|b| - 1], p);
    }
  }

  lemma ExplainsTwice(a: seq<Sight>, b: seq<Sight>, before: map<string, Snapshot>, mid: map<string, Snapshot>,
                      after: map<string, Snapshot>)
    requires Explains(a, before, mid) && Explains(b, mid, after)
    ensures Explains(a + b, before, after)
  {
    hide LastIn;
    forall p ensures LastIn(a + b, p) == if LastIn(b, p).Some? then LastIn(b, p) else LastIn(a, p) {
      LastInAppend(a, b, p);
    }
  }

  lemma NothingSeen(readState: map<string, Snapshot>)
    ensures Explains([], readState, readState)
  {
  }

  lemma OneSeen(sight: Sight, readState: map<string, Snapshot>, snapshot: Snapshot)
    requires FullText(sight) == Some(snapshot.content)
    ensures Explains([sight], readState, readState[sight.path := snapshot])
  {
    hide FullText;
    assert [sight][..0] == [];
    assert LastIn([], sight.path) == None;
    forall p | p != sight.path ensures LastIn([sight], p) == None {
      assert LastIn([sight][..0], p) == None;
    }
  }

  lemma PartSeen(sight: Sight, readState: map<string, Snapshot>)
    requires FullText(sight) == None
    ensures Explains([sight], readState, readState)
  {
    hide FullText;
    forall p ensures LastIn([sight], p) == None {
      assert LastIn([sight][..0], p) == None;
    }
  }

  /** What a read renders does not depend on the snapshots. */
  lemma {:induction false} SnapshotsDoNotShow(
    cfg: Config, s: State, readState: map<string, Snapshot>, disk: Disk, paths: seq<string>, offset: int, limit: int)
    ensures ReadSights(cfg, s.(readState := readState), disk, paths, offset, limit)
         == ReadSights(cfg, s, disk, paths, offset, limit)
    decreases |paths|
  {
    hide ReadAllowed, ReadDisk, ReadWindow.ReadWindow;
    if paths != [] {
      SnapshotsDoNotShow(cfg, s, readState, disk, paths[1..], offset, limit);
    }
  }

  lemma {:induction false} ReadExplains(
    cfg: Config, s: State, disk: Disk, paths: seq<string>, offset: int, limit: int)
    ensures Explains(ReadSights(cfg, s, disk, paths, offset, limit), s.readState,
                     RunRead(cfg, s, disk, paths, offset, limit).0.readState)
    decreases |paths|
  {
    hide ReadAllowed, ReadDisk, ReadWindow.ReadWindow, Explains, FullText;
    NothingSeen(s.readState);
    if paths != [] && cfg.normalize(paths[0]).Some? && ReadAllowed(cfg, cfg.normalize(paths[0]).value) {
      var p := cfg.normalize(paths[0]).value;
      var current := CurrentContent(cfg, s, disk, p);
      if current.Current? {
        var w := ReadWindow.ReadWindow(current.content, offset, limit);
        var full := current.present && !w.truncated && w.startLine == 1;
        var seen := s.readState[p := Snapshot(current.content, true, current.candidate, true)];
        var readState := if full then seen else s.readState;
        var first := if current.present then [Rendered(p, w)] else [];
        var next := s.(readState := readState);
        WholeWindow(p, current.content, offset, limit);
        if full { OneSeen(Rendered(p, w), s.readState, seen[p]); }
        else if current.present { PartSeen(Rendered(p, w), s.readState); }
        assert Explains(first, s.readState, readState);
        ReadExplains(cfg, next, disk, paths[1..], offset, limit);
        SnapshotsDoNotShow(cfg, s, readState, disk, paths[1..], offset, limit);
        ExplainsTwice(first, ReadSights(cfg, next, disk, paths[1..], offset, limit), s.readState, readState,
                      RunRead(cfg, next, disk, paths[1..], offset, limit).0.readState);
      }
    }
  }

  lemma {:induction false} RestageExplains(cfg: Config, s: State, files: seq<GeneratedFile>)
    ensures Explains(RestageSights(cfg, files), s.readState, Restage(cfg, s, files).readState)
  {
    hide AllowedPaths, Explains, FullText;
    NothingSeen(s.readState);
    if files != [] {
      var init, f := files[..|files| - 1], files[|files| - 1];
      var before := Restage(cfg, s, init);
      RestageExplains(cfg, s, init);
      var snapshot := Snapshot(f.content, !f.delete, true, !f.delete);
      if WriteAllowed(cfg, f.path) {
        if f.delete { PartForgotten(before.readState, f.path, snapshot); }
        else { StagedIsSeen(f.path, f.content, before.readState, snapshot); }
        ExplainsTwice(RestageSights(cfg, init), if f.delete then [] else [Staged(f.path, f.content)], s.readState,
                      before.readState, before.readState[f.path := snapshot]);
      } else {
        assert RestageSights(cfg, files) == RestageSights(cfg, init) + [];
        NothingSeen(before.readState);
        ExplainsTwice(RestageSights(cfg, init), [], s.readState, before.readState, before.readState);
      }
    }
  }

  lemma PartForgotten(readState: map<string, Snapshot>, path: string, snapshot: Snapshot)
    requires !snapshot.fullRead
    ensures Explains([], readState, readState[path := snapshot])
  {
  }

  lemma StagedIsSeen(path: string, content: string, readState: map<string, Snapshot>, snapshot: Snapshot)
    requires snapshot.content == content
    ensures Explains([Staged(path, content)], readState, readState[path := snapshot])
  {
    hide Explains;
    OneSeen(Staged(path, content), readState, snapshot);
  }

  lemma ValidateExplains(cfg: Config, s: State, w: World)
    ensures var r := RunValidate(cfg, s, w); Explains(r.1.sights, s.readState, r.0.readState)
    ensures RunValidate(cfg, s, w).0.history == s.history
  {
    hide LintFiles, ValidateIn, Diagnostics, RemoveInvalidPrepare, AutoRepair.RepairSpec, RepairPaths, Restage,
         RestageSights, Explains;
    NothingSeen(s.readState);
    var s0 := s.(idle := 0);
    var lint := LintFiles(cfg, s.candidates, w.disk);
    if lint != [] && ValidateIn(cfg, w, lint).Rejected? {
      var diags := Diagnostics(w, ValidateIn(cfg, w, lint).reason);
      var s1 := s0.(candidates := RemoveInvalidPrepare(s.candidates, lint, diags).candidates);
      var attempt := TryRepair(cfg, s0, w, lint, diags);
      if attempt.files.Some? {
        RestageExplains(cfg, s1, attempt.files.value);
        RestageKeepsHistory(cfg, s1, attempt.files.value);
      }
    }
  }

  lemma {:induction false} RestageKeepsHistory(cfg: Config, s: State, files: seq<GeneratedFile>)
    ensures Restage(cfg, s, files).history == s.history
  {
    hide AllowedPaths;
    if files != [] {
      RestageKeepsHistory(cfg, s, files[..|files| - 1]);
    }
  }

  lemma EffectExplains(cfg: Config, s: State, call: ToolCall, w: World)
    ensures var r := Effect(cfg, s, call, w);
            r.0.history == s.history && Explains(SightsOf(r.1), s.readState, r.0.readState)
  {
    hide RunRead, ReadSights, RunValidate, EditResult, NormalizeContent, AllowedPaths, Explains;
    NothingSeen(s.readState);
    match call.tool {
      case ValidateTool => ValidateExplains(cfg, s, w);
      case Read =>
        ReadExplains(cfg, s, w.disk, call.paths, call.offset, call.limit);
        ReadKeepsRest(cfg, s, w.disk, call.paths, call.offset, call.limit);
      case FileWrite =>
        var p := cfg.normalize(call.path);
        if p.Some? && WriteAllowed(cfg, p.value) {
          var content := NormalizeContent(p.value, call.content);
          StagedIsSeen(p.value, content, s.readState, Snapshot(content, true, true, true));
        }
      case FileEdit =>
        var end := EditResult(cfg, s.(idle := 0), w.disk, call);
        if end.Edited? {
          StagedIsSeen(end.path, end.content, s.readState, Snapshot(end.content, true, true, true));
        }
      case _ =>
    }
  }

  lemma LogRemembers(s: State, s': State, turn: nat, name: string, ok: bool, r: Record)
    requires Remembered(s) && s'.history == s.history && Explains(SightsOf(r), s.readState, s'.readState)
    ensures Remembered(Log(s', turn, name, ok, r))
  {
    hide LastIn;
    var h := s.history + [r];
    assert h[..|h| - 1] == s.history;
  }

  /** Every tool call keeps the snapshots true to the trace. */
  lemma ExecuteRemembers(cfg: Config, s: State, turn: nat, call: ToolCall, w: World)
    requires Remembered(s)
    ensures Remembered(Execute(cfg, s, turn, call, w))
  {
    hide Effect, Remembered, Explains;
    EffectExplains(cfg, s, call, w);
    var (s', r) := Effect(cfg, s, call, w);
    LogRemembers(s, s', turn, RecordName(r), RecordOk(r), r);
  }

  // ---------------------------------------------------------------------------------------------
  // Whole runs

  lemma TurnDownRemembers(cfg: Config, s: State, turn: nat, name: string)
    requires Remembered(s)
    ensures Remembered(TurnDown(s, turn, name))
  {
    hide Remembered, Explains;
    NothingSeen(s.readState);
    LogRemembers(s, s, turn, name, false, TurnedDown(name));
  }

  lemma {:induction false} CallsRemember(
    cfg: Config, s: State, turn: nat, calls: seq<ProviderCall>, i: nat, readOnly: bool)
    requires Remembered(s) && i <= |calls|
    ensures Remembered(HandleFrom(cfg, s, turn, calls, i, readOnly).0)
    decreases |calls| - i
  {
    hide Execute, IsReadOnly, CandidateFiles, LastSeen;
    if i < |calls| {
      match calls[i] {
        case Clarification(_) =>
        case Finish(_) => TurnDownRemembers(cfg, s, turn, FINISH_NAME);
        case Malformed(name) =>
          TurnDownRemembers(cfg, s, turn, name);
          CallsRemember(cfg, TurnDown(s, turn, name), turn, calls, i + 1, readOnly);
        case Use(call, w) =>
          ExecuteRemembers(cfg, s, turn, call, w);
          CallsRemember(cfg, Execute(cfg, s, turn, call, w), turn, calls, i + 1, readOnly && IsReadOnly(call.tool));
      }
    }
  }

  lemma TurnRemembers(cfg: Config, s: State, turn: nat, input: TurnInput)
    requires Remembered(s)
    ensures Remembered(RunTurn(cfg, s, turn, input).0)
  {
    hide Execute, HandleFrom, CandidateFiles, AutoValidates, LastSeen;
    var s0 := BeginTurn(s, turn);
    if input.response.Calls? && input.response.calls != [] {
      CallsRemember(cfg, s0, turn, input.response.calls, 0, true);
      var s1 := HandleFrom(cfg, s0, turn, input.response.calls, 0, true).0;
      ExecuteRemembers(cfg, s1, turn, VALIDATE_CALL, input.autoWorld);
    }
  }

  /** At every turn start of every run the full snapshots hold what was last rendered in full or staged. */
  lemma {:induction false} RunRemembers(cfg: Config, script: seq<TurnInput>, last: TurnInput, n: nat)
    requires n >= 1
    ensures StateBefore(cfg, script, last, n).Some? ==> Remembered(StateBefore(cfg, script, last, n).value)
  {
    hide RunTurn, TurnLimit, LastSeen;
    if n > 1 {
      RunRemembers(cfg, script, last, n - 1);
      var s := StateBefore(cfg, script, last, n - 1);
      if s.Some? { TurnRemembers(cfg, s.value, n - 1, InputAt(script, n - 1, last)); }
    }
  }

  // ---------------------------------------------------------------------------------------------
  // No lost updates

  /** An edit that succeeds changes the text that was last rendered in full or staged for its path, so nothing
      that came in between is lost: a staged file still has that text, and an unstaged one has it on disk. */
  lemma EditsChangeWhatWasSeen(cfg: Config, s: State, disk: Disk, call: ToolCall)
    requires Remembered(s) && EditResult(cfg, s, disk, call).Edited?
    ensures var p := EditResult(cfg, s, disk, call).path;
            LastSeen(s.history, p).Some? && p in s.readState && s.readState[p].fullRead &&
            var seen := LastSeen(s.history, p).value;
            s.readState[p].content == seen && s.readState[p].present &&
            (p in s.candidates ==> s.candidates[p].content == seen && !s.candidates[p].delete) &&
            (p !in s.candidates ==> ReadDisk(cfg, disk, p) == Content(seen))
  {
    hide ReadDisk, NormalizeContent, AllowedPaths, LastSeen;
  }

  /** What was last seen was seen in some call of the trace. */
  lemma {:induction false} SeenInSomeCall(h: seq<Record>, p: string) returns (r: Record, sight: Sight)
    requires LastSeen(h, p).Some?
    ensures r in h && sight in SightsOf(r) && sight.path == p && FullText(sight) == LastSeen(h, p)
  {
    hide FullText;
    r := h[|h| - 1];
    if LastIn(SightsOf(r), p).Some? {
      sight := SeenInSights(SightsOf(r), p);
    } else {
      r, sight := SeenInSomeCall(h[..|h| - 1], p);
    }
  }

  lemma {:induction false} SeenInSights(sights: seq<Sight>, p: string) returns (sight: Sight)
    requires LastIn(sights, p).Some?
    ensures sight in sights && sight.path == p && FullText(sight) == LastIn(sights, p)
  {
    hide FullText;
    sight := sights[|sights| - 1];
    if sight.path != p || FullText(sight).None? {
      sight := SeenInSights(sights[..|sights| - 1], p);
    }
  }

  /** A call that renders or stages something and fails is a read of several paths. */
  lemma OnlyReadsGoUnanswered(cfg: Config, s: State, call: ToolCall, w: World)
    ensures var r := Effect(cfg, s, call, w).1;
            r.Used? && r.sights != [] && !r.ok ==> call.tool == Read && |call.paths| >= 2
  {
    hide RunValidate, RunRead, ReadSights, EditResult, NormalizeContent, AllowedPaths;
    if call.tool == Read && |call.paths| <= 1 { ShortReads(cfg, s, w.disk, call.paths, call.offset, call.limit); }
  }

  lemma ShortReads(cfg: Config, s: State, disk: Disk, paths: seq<string>, offset: int, limit: int)
    requires |paths| <= 1
    ensures ReadSights(cfg, s, disk, paths, offset, limit) != [] ==> RunRead(cfg, s, disk, paths, offset, limit).1
  {
    hide ReadAllowed, ReadDisk, ReadWindow.ReadWindow;
    if |paths| == 1 {
      assert paths[1..] == [];
      var s' := RunRead(cfg, s, disk, paths, offset, limit).0;
      assert RunRead(cfg, s', disk, [], offset, limit) == (s', true);
    }
  }

  lemma RefusedSecond(cfg: Config, s: State, disk: Disk, paths: seq<string>, p: string, offset: int, limit: int)
    requires |paths| == 2 && cfg.normalize(paths[1]) == None && cfg.normalize(paths[0]) == Some(p)
    requires WriteAllowed(cfg, p) && p !in s.candidates && offset <= 1 && limit <= 0
    requires ReadDisk(cfg, disk, p).Content? && ReadDisk(cfg, disk, p).content != ""
    ensures RunRead(cfg, s, disk, paths, offset, limit)
         == (s.(readState := s.readState[p := Snapshot(ReadDisk(cfg, disk, p).content, true, false, true)]), false)
  {
    hide AllowedPaths, ReadDisk, ReadWindow.Lines;
    ReadWindow.OneEmptyLine(ReadDisk(cfg, disk, p).content);
    var s' := s.(readState := s.readState[p := Snapshot(ReadDisk(cfg, disk, p).content, true, false, true)]);
    assert paths[1..][0] == paths[1];
    assert RunRead(cfg, s', disk, paths[1..], offset, limit) == (s', false);
  }

  /** Seen is not shown: a read of a file and then of a path that is refused returns only the error, and
      still leaves the snapshot that lets the file be edited. */
  lemma RefusedReadUnlocksEdit(
    cfg: Config, s: State, turn: nat, call: ToolCall, w: World, edit: ToolCall, p: string)
    requires call.tool == Read && |call.paths| == 2 && cfg.normalize(call.paths[1]) == None
    requires cfg.normalize(call.paths[0]) == Some(p) && WriteAllowed(cfg, p)
    requires p !in s.candidates && ReadDisk(cfg, w.disk, p).Content? && ReadDisk(cfg, w.disk, p).content != ""
    requires call.offset <= 1 && call.limit <= 0 && cfg.normalize(edit.path) == Some(p)
    ensures var s' := Execute(cfg, s, turn, call, w);
            var end := EditResult(cfg, s', w.disk, edit);
            !s'.events[|s'.events| - 1].ok && (end in {NoChange, NotFound, Ambiguous} || end.Edited?)
  {
    hide RunRead, AllowedPaths, ReadDisk, NormalizeContent, TextEdit.Count, TextEdit.ReplaceAll, TextEdit.ReplaceFirst;
    RefusedSecond(cfg, s, w.disk, call.paths, p, call.offset, call.limit);
  }
}
