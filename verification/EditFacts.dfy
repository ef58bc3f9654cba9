/** What reading, writing and editing a file do, told on the session's state and by the text itself. */
module EditFacts {
  import opened Text
  import opened Files
  import opened GenerationValidate
  import opened Session
  import opened SessionInvariant
  import ReadWindow
  import TextEdit

  /** The session sees this text at p: it is staged, or nothing is staged and it is on disk. */
  predicate HoldsText(cfg: Config, s: State, disk: Disk, p: string, text: string) {
    if p in s.candidates then s.candidates[p].content == text && !s.candidates[p].delete
    else ReadDisk(cfg, disk, p) == Content(text)
  }

  /** The last full snapshot of p has this text. */
  predicate SawText(s: State, p: string, text: string) {
    p in s.readState && s.readState[p].fullRead && s.readState[p].present && s.readState[p].content == text
  }

  /** The replacement is possible in the text: it changes something, and a single one finds a single match. */
  ghost predicate CanReplace(call: ToolCall, text: string) {
    && call.oldString != call.newString && Contains(text, call.oldString)
    && (call.replaceAll || !TextEdit.TwoMatches(text, call.oldString))
  }

  /** The only match replaced, or all of them. */
  ghost predicate Replaced(call: ToolCall, text: string, after: string) {
    if call.replaceAll then
      exists parts :: TextEdit.SplitAt(text, call.oldString, parts) && |parts| >= 2
                      && after == TextEdit.Join(parts, call.newString)
    else
      exists left, right :: text == left + call.oldString + right && after == left + call.newString + right
  }

  /** The transcript says whether the last call succeeded. */
  predicate Succeeded(s: State) {
    s.events != [] && s.events[|s.events| - 1].ok
  }

  lemma LastEvent(s: State, turn: nat, name: string, ok: bool, r: Record)
    ensures Succeeded(Log(s, turn, name, ok, r)) <==> ok
    ensures Log(s, turn, name, ok, r).candidates == s.candidates && Log(s, turn, name, ok, r).readState == s.readState
  {
  }

  lemma CountFacts(text: string, sub: string)
    ensures TextEdit.Count(text, sub) == 0 <==> !Contains(text, sub)
    ensures TextEdit.Count(text, sub) > 1 <==> TextEdit.TwoMatches(text, sub)
  {
    TextEdit.CountZeroIff(text, sub);
    TextEdit.CountTwoIff(text, sub);
  }

  lemma CurrentIsHeld(cfg: Config, s: State, disk: Disk, p: string, text: string)
    ensures HoldsText(cfg, s, disk, p, text) <==>
              exists staged :: CurrentContent(cfg, s, disk, p) == Current(text, true, staged)
  {
    hide ReadDisk;
    if HoldsText(cfg, s, disk, p, text) {
      assert CurrentContent(cfg, s, disk, p) == Current(text, true, p in s.candidates);
    }
  }

  /** What the checks of file_edit come to. */
  lemma EditedIff(cfg: Config, s: State, disk: Disk, call: ToolCall)
    ensures EditResult(cfg, s, disk, call).Edited? <==>
              exists p, text :: cfg.normalize(call.path) == Some(p) && WriteAllowed(cfg, p) &&
                                HoldsText(cfg, s, disk, p, text) && SawText(s, p, text) && CanReplace(call, text)
  {
    hide AllowedPaths, ReadDisk, NormalizeContent, TextEdit.Count, TextEdit.TwoMatches, Contains, CurrentContent,
         HoldsText, TextEdit.ReplaceAll, TextEdit.ReplaceFirst;
    if cfg.normalize(call.path).Some? {
      var p := cfg.normalize(call.path).value;
      forall text ensures HoldsText(cfg, s, disk, p, text) <==>
        exists staged :: CurrentContent(cfg, s, disk, p) == Current(text, true, staged)
      {
        CurrentIsHeld(cfg, s, disk, p, text);
      }
      forall text {
        CountFacts(text, call.oldString);
      }
      var current := CurrentContent(cfg, s, disk, p);
      if EditResult(cfg, s, disk, call).Edited? {
        assert current == Current(current.content, true, current.candidate);
        assert HoldsText(cfg, s, disk, p, current.content) && SawText(s, p, current.content);
      }
    }
  }

  /** A file_edit succeeds exactly when its path is in scope, the last full snapshot of the file still is its
      text, old and new differ, the old text occurs in it, and, unless all matches are to be replaced, no two
      matches keep clear of each other. When it does not succeed nothing is staged. */
  lemma EditSucceedsIff(cfg: Config, s: State, turn: nat, call: ToolCall, w: World)
    requires call.tool == FileEdit
    ensures var s' := Execute(cfg, s, turn, call, w);
            (Succeeded(s') <==>
              exists p, text :: cfg.normalize(call.path) == Some(p) && WriteAllowed(cfg, p) &&
                                HoldsText(cfg, s, w.disk, p, text) && SawText(s, p, text) && CanReplace(call, text)) &&
            (!Succeeded(s') ==> s'.candidates == s.candidates && s'.readState == s.readState)
  {
    hide EditResult, WriteAllowed, HoldsText, SawText, CanReplace, Sights;
    var s0 := s.(idle := 0);
    EditedIff(cfg, s0, w.disk, call);
    forall p, text ensures HoldsText(cfg, s0, w.disk, p, text) == HoldsText(cfg, s, w.disk, p, text)
                           && SawText(s0, p, text) == SawText(s, p, text) {
      IdleHolds(cfg, s, w.disk, p, text);
    }
    var r := RunFileEdit(cfg, s, w.disk, call);
    LastEvent(r.0, turn, "file_edit", r.1, Used(FileEdit, r.1, Sights(cfg, s, call, w)));
  }

  lemma IdleHolds(cfg: Config, s: State, disk: Disk, p: string, text: string)
    ensures HoldsText(cfg, s.(idle := 0), disk, p, text) == HoldsText(cfg, s, disk, p, text)
    ensures SawText(s.(idle := 0), p, text) == SawText(s, p, text)
  {
  }

  /** With all guards passed, an edit is ambiguous exactly when two matches keep clear of each other and not all
      are to be replaced. */
  lemma AmbiguousIff(cfg: Config, s: State, disk: Disk, call: ToolCall, p: string, text: string)
    requires cfg.normalize(call.path) == Some(p) && WriteAllowed(cfg, p)
    requires HoldsText(cfg, s, disk, p, text) && SawText(s, p, text) && call.oldString != call.newString
    ensures EditResult(cfg, s, disk, call) == Ambiguous <==>
              !call.replaceAll && TextEdit.TwoMatches(text, call.oldString)
    ensures EditResult(cfg, s, disk, call) == NotFound <==> !Contains(text, call.oldString)
  {
    hide AllowedPaths, ReadDisk, NormalizeContent, TextEdit.Count, TextEdit.TwoMatches, Contains,
         TextEdit.ReplaceAll, TextEdit.ReplaceFirst;
    CountFacts(text, call.oldString);
  }

  /** A file_edit that succeeds stages, for its path alone, the text before with the only match replaced, or with
      all matches replaced, everything between them kept; normalised, and remembered as seen in full. */
  lemma EditReplaces(cfg: Config, s: State, turn: nat, call: ToolCall, w: World)
    returns (p: string, text: string, after: string)
    requires call.tool == FileEdit && Succeeded(Execute(cfg, s, turn, call, w))
    ensures cfg.normalize(call.path) == Some(p) && HoldsText(cfg, s, w.disk, p, text) && Replaced(call, text, after)
    ensures var s', content := Execute(cfg, s, turn, call, w), NormalizeContent(p, after);
            s'.candidates == s.candidates[p := GeneratedFile(p, content, false)] &&
            s'.readState == s.readState[p := Snapshot(content, true, true, true)]
  {
    hide WriteAllowed, ReadDisk, NormalizeContent, Sights, Replaced, TextEdit.Count, TextEdit.ReplaceAll,
         TextEdit.ReplaceFirst;
    var r := RunFileEdit(cfg, s, w.disk, call);
    LastEvent(r.0, turn, "file_edit", r.1, Used(FileEdit, r.1, Sights(cfg, s, call, w)));
    p := cfg.normalize(call.path).value;
    text := CurrentContent(cfg, s, w.disk, p).content;
    after := if call.replaceAll then TextEdit.ReplaceAll(text, call.oldString, call.newString)
             else TextEdit.ReplaceFirst(text, call.oldString, call.newString);
    ReplacementFacts(call, text);
  }

  lemma ReplacementFacts(call: ToolCall, text: string)
    requires TextEdit.Count(text, call.oldString) > 0
    requires call.replaceAll || TextEdit.Count(text, call.oldString) == 1
    ensures Replaced(call, text, if call.replaceAll then TextEdit.ReplaceAll(text, call.oldString, call.newString)
                                 else TextEdit.ReplaceFirst(text, call.oldString, call.newString))
  {
    hide TextEdit.Count, TextEdit.ReplaceAll, TextEdit.ReplaceFirst, TextEdit.SplitAt;
    if call.replaceAll {
      var parts := TextEdit.ReplaceAllParts(text, call.oldString, call.newString);
    } else {
      var left, right := TextEdit.ReplaceFirstParts(text, call.oldString, call.newString);
    }
  }

  /** A file_write succeeds exactly when its path is in scope, and then stages the given text, normalised. */
  lemma WriteStagesText(cfg: Config, s: State, turn: nat, call: ToolCall, w: World)
    requires call.tool == FileWrite
    ensures var s', p := Execute(cfg, s, turn, call, w), cfg.normalize(call.path);
            (Succeeded(s') <==> p.Some? && p.value in AllowedPaths(cfg.plan)) &&
            if Succeeded(s') then
              var content := NormalizeContent(p.value, call.content);
              s'.candidates == s.candidates[p.value := GeneratedFile(p.value, content, false)] &&
              s'.readState == s.readState[p.value := Snapshot(content, true, true, true)]
            else s'.candidates == s.candidates && s'.readState == s.readState
  {
    hide AllowedPaths, NormalizeContent, Sights;
    var r := RunFileWrite(cfg, s, call);
    LastEvent(r.0, turn, "file_write", r.1, Used(FileWrite, r.1, Sights(cfg, s, call, w)));
  }

  // ---------------------------------------------------------------------------------------------
  // Reading

  /** A path can be read: it is in the plan's scope or below one of the directories that are open to reading, and it
      is staged, or the disk can tell whether it is there. */
  predicate CanRead(cfg: Config, s: State, disk: Disk, raw: string) {
    var p := cfg.normalize(raw);
    && p.Some?
    && (p.value in AllowedPaths(cfg.plan)
        || exists dir | dir in ["workflows/", "docs/", "test/workflows/", "internal/", "cmd/"] :: dir <= p.value)
    && (p.value in s.candidates || (cfg.resolve(p.value).Some? && cfg.resolve(p.value).value !in disk.unreadable))
  }

  lemma CanReadIs(cfg: Config, s: State, disk: Disk, raw: string)
    ensures CanRead(cfg, s, disk, raw) <==>
              cfg.normalize(raw).Some? && ReadAllowed(cfg, cfg.normalize(raw).value)
              && CurrentContent(cfg, s, disk, cfg.normalize(raw).value).Current?
  {
    hide AllowedPaths;
    var dirs := ["workflows/", "docs/", "test/workflows/", "internal/", "cmd/"];
    assert dirs[0] in dirs && dirs[1] in dirs && dirs[2] in dirs && dirs[3] in dirs && dirs[4] in dirs;
  }

  lemma {:induction false} ReadLoopIff(cfg: Config, s: State, disk: Disk, paths: seq<string>, offset: int, limit: int)
    ensures RunRead(cfg, s, disk, paths, offset, limit).1 <==> forall raw | raw in paths :: CanRead(cfg, s, disk, raw)
    decreases |paths|
  {
    hide ReadAllowed, ReadDisk, ReadWindow.ReadWindow, CanRead, CurrentContent;
    if paths != [] {
      CanReadIs(cfg, s, disk, paths[0]);
      assert forall raw :: raw in paths <==> raw == paths[0] || raw in paths[1..];
      if CanRead(cfg, s, disk, paths[0]) {
        var p := cfg.normalize(paths[0]).value;
        var current := CurrentContent(cfg, s, disk, p);
        var seen := s.(readState := s.readState[p := Snapshot(current.content, true, current.candidate, true)]);
        var w := ReadWindow.ReadWindow(current.content, offset, limit);
        var next := if current.present && !w.truncated && w.startLine == 1 then seen else s;
        ReadLoopIff(cfg, next, disk, paths[1..], offset, limit);
        forall raw ensures CanRead(cfg, next, disk, raw) == CanRead(cfg, s, disk, raw) {
          SnapshotsDoNotOpen(cfg, s, next, disk, raw);
        }
      }
    }
  }

  lemma SnapshotsDoNotOpen(cfg: Config, s: State, next: State, disk: Disk, raw: string)
    requires next.candidates == s.candidates
    ensures CanRead(cfg, next, disk, raw) == CanRead(cfg, s, disk, raw)
  {
  }

  /** A read succeeds exactly when each of its paths can be read; whether a file exists does not matter. */
  lemma ReadSucceedsIff(cfg: Config, s: State, turn: nat, call: ToolCall, w: World)
    requires call.tool == Read
    ensures Succeeded(Execute(cfg, s, turn, call, w)) <==>
              forall raw | raw in call.paths :: CanRead(cfg, s, w.disk, raw)
  {
    hide RunRead, CanRead, Sights;
    ReadLoopIff(cfg, s, w.disk, call.paths, call.offset, call.limit);
    var r := RunRead(cfg, s, w.disk, call.paths, call.offset, call.limit);
    LastEvent(r.0, turn, "read", r.1, Used(Read, r.1, Sights(cfg, s, call, w)));
  }

  lemma OneRead(
    cfg: Config, s: State, disk: Disk, paths: seq<string>, offset: int, limit: int, p: string, text: string)
    requires |paths| == 1 && cfg.normalize(paths[0]) == Some(p)
    requires CanRead(cfg, s, disk, paths[0]) && HoldsText(cfg, s, disk, p, text)
    ensures var seen := s.(readState := s.readState[p := Snapshot(text, true, p in s.candidates, true)]);
            var whole := text != "" && offset <= 1 && (limit <= 0 || limit >= |ReadWindow.Lines(text)|);
            RunRead(cfg, s, disk, paths, offset, limit) == (if whole then seen else s, true)
  {
    hide ReadAllowed, ReadDisk, CanRead, ReadWindow.Lines, ReadWindow.ReadWindow;
    CanReadIs(cfg, s, disk, paths[0]);
    ReadWindow.WholeIff(text, offset, limit);
    assert paths[1..] == [];
    assert CurrentContent(cfg, s, disk, p) == Current(text, true, p in s.candidates);
    var seen := s.(readState := s.readState[p := Snapshot(text, true, p in s.candidates, true)]);
    assert RunRead(cfg, seen, disk, [], offset, limit) == (seen, true);
    assert RunRead(cfg, s, disk, [], offset, limit) == (s, true);
  }

  /** A file is remembered as read in full exactly when it has text and the window asked for holds all its lines. */
  lemma ReadRemembersIff(cfg: Config, s: State, turn: nat, call: ToolCall, w: World, p: string, text: string)
    requires call.tool == Read && |call.paths| == 1 && cfg.normalize(call.paths[0]) == Some(p)
    requires CanRead(cfg, s, w.disk, call.paths[0]) && HoldsText(cfg, s, w.disk, p, text)
    ensures var s' := Execute(cfg, s, turn, call, w);
            if text != "" && call.offset <= 1 && (call.limit <= 0 || call.limit >= |ReadWindow.Lines(text)|)
            then s'.readState == s.readState[p := Snapshot(text, true, p in s.candidates, true)]
            else s'.readState == s.readState
  {
    hide RunRead, CanRead, HoldsText, ReadWindow.Lines, Sights;
    OneRead(cfg, s, w.disk, call.paths, call.offset, call.limit, p, text);
    var r := RunRead(cfg, s, w.disk, call.paths, call.offset, call.limit);
    LastEvent(r.0, turn, "read", r.1, Used(Read, r.1, Sights(cfg, s, call, w)));
  }
}
