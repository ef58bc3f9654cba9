/** When a session finishes by itself: after two turns in a row that only read, told by the calls of the turns. */
module QuietTurns {
  import opened Text
  import opened Files
  import opened GenerationValidate
  import opened Session
  import opened LintFacts
  import opened CheckFacts
  import opened SessionInvariant
  import opened SessionRuns

  /** A call of a reading tool, or one that could not be parsed. */
  predicate ReadsOnly(call: ProviderCall) {
    call.Malformed? || (call.Use? && call.call.tool in {Read, Glob, Grep, Schema, WebSearch})
  }

  ghost predicate QuietCalls(input: TurnInput) {
    input.response.Calls? && input.response.calls != [] && forall c | c in input.response.calls :: ReadsOnly(c)
  }

  /** There is something to finish with. */
  predicate Ready(s: State) {
    s.lintPassed && s.candidates != map[]
  }

  ghost predicate FinishedByItself(end: Option<End>) {
    end.Some? && end.value.Finished? && !end.value.explicit
  }

  /** What the idle counter stands for: it only counts under a passing verdict, and at the start of a turn it
      has not come to two while there is something to finish with. */
  ghost predicate Settled(s: State) {
    (s.idle >= 1 ==> s.lintPassed) && (s.idle >= 2 ==> s.candidates == map[])
  }

  lemma ReadingTools()
    ensures forall t :: IsReadOnly(t) <==> t in {Read, Glob, Grep, Schema, WebSearch}
  {
  }

  // ---------------------------------------------------------------------------------------------
  // The calls of a turn

  lemma ReadingTool(cfg: Config, s: State, turn: nat, call: ToolCall, w: World)
    requires IsReadOnly(call.tool)
    ensures var s' := Execute(cfg, s, turn, call, w);
            s'.candidates == s.candidates && s'.lintPassed == s.lintPassed && s'.idle == s.idle &&
            s'.failures == s.failures && |s'.events| == |s.events| + 1
            && s'.events[|s.events|].name == ToolName(call.tool)
  {
    hide RunRead, Sights;
    if call.tool == Read {
      ReadKeepsRest(cfg, s, w.disk, call.paths, call.offset, call.limit);
    }
  }

  /** The transcript line of a call that only reads. */
  function LineName(call: ProviderCall): string
    requires ReadsOnly(call)
  {
    match call
    case Malformed(name) => name
    case Use(toolCall, _) => ToolName(toolCall.tool)
  }

  /** Calls that only read add a line each, and one to the idle counter if the verdict passes. */
  lemma {:induction false} QuietLoop(cfg: Config, s: State, turn: nat, calls: seq<ProviderCall>, i: nat)
    requires i <= |calls| && forall c | c in calls :: ReadsOnly(c)
    ensures var (r, end) := HandleFrom(cfg, s, turn, calls, i, true);
            end == GoOn && r.candidates == s.candidates && r.lintPassed == s.lintPassed &&
            r.failures == s.failures && r.idle == s.idle + (if s.lintPassed then 1 else 0) &&
            |r.events| == |s.events| + |calls| - i &&
            (i < |calls| ==> r.events[|r.events| - 1].name == LineName(calls[|calls| - 1]))
    decreases |calls| - i
  {
    hide Execute, ToolName;
    if i < |calls| {
      assert ReadsOnly(calls[i]);
      var next := match calls[i]
        case Malformed(name) => TurnDown(s, turn, name)
        case Use(call, w) => Execute(cfg, s, turn, call, w)
        case _ => s;
      if calls[i].Use? { ReadingTool(cfg, s, turn, calls[i].call, calls[i].world); }
      assert HandleFrom(cfg, s, turn, calls, i, true) == HandleFrom(cfg, next, turn, calls, i + 1, true);
      QuietLoop(cfg, next, turn, calls, i + 1);
      if i + 1 == |calls| {
        assert HandleFrom(cfg, next, turn, calls, i + 1, true) == (CloseTurn(next, true), GoOn);
      }
    }
  }

  lemma VerdictNeedsValidate(cfg: Config, s: State, turn: nat, call: ToolCall, w: World)
    requires Inv(cfg, s)
    ensures var s' := Execute(cfg, s, turn, call, w);
            s'.idle == 0 || (s'.idle == s.idle && s'.candidates == s.candidates && s'.lintPassed == s.lintPassed)
  {
    hide RunRead, RunValidate, EditResult, NormalizeContent, AllowedPaths, CheckSound, Scoped, ShownFrom, Grouped;
    match call.tool {
      case Read => ReadKeepsRest(cfg, s, w.disk, call.paths, call.offset, call.limit);
      case ValidateTool => ValidateStep(cfg, s, w);
      case _ =>
    }
  }

  /** If the counter stands after the calls and there are candidates, all calls only read. */
  lemma {:induction false} CountingLoop(
    cfg: Config, s: State, turn: nat, calls: seq<ProviderCall>, i: nat, readOnly: bool)
    requires i <= |calls| && Inv(cfg, s) && (s.idle >= 1 ==> s.lintPassed)
    requires var (r, end) := HandleFrom(cfg, s, turn, calls, i, readOnly);
             end == GoOn && r.idle >= 1 && r.candidates != map[]
    ensures readOnly && forall k | i <= k < |calls| :: ReadsOnly(calls[k])
    decreases |calls| - i
  {
    hide Execute, Inv, CandidateFiles, IsReadOnly;
    ReadingTools();
    if i < |calls| {
      match calls[i] {
        case Clarification(_) =>
        case Finish(_) => CandidateCount(cfg, s);
        case Malformed(name) =>
          QuietLineKeepsInv(cfg, s, turn, name, false, TurnedDown(name));
          CountingLoop(cfg, TurnDown(s, turn, name), turn, calls, i + 1, readOnly);
        case Use(call, w) =>
          ExecuteKeepsInv(cfg, s, turn, call, w);
          VerdictNeedsValidate(cfg, s, turn, call, w);
          CountingLoop(cfg, Execute(cfg, s, turn, call, w), turn, calls, i + 1, readOnly && IsReadOnly(call.tool));
      }
    }
  }

  // ---------------------------------------------------------------------------------------------
  // A turn

  lemma BeginKeepsInv(cfg: Config, s: State, turn: nat)
    requires Inv(cfg, s)
    ensures Inv(cfg, BeginTurn(s, turn))
  {
    hide CandidateFiles, Scoped, ChecksSound, Aligned, ShownFrom, LastCheck, FailedChecks, StagedSince, Grouped;
  }

  /** A turn ends the run by itself exactly when the counter stands, there are candidates, and it only reads. */
  lemma TurnFinishesIff(cfg: Config, s: State, turn: nat, input: TurnInput)
    requires Inv(cfg, s) && Settled(s)
    ensures var (s', end) := RunTurn(cfg, s, turn, input);
            (FinishedByItself(end) <==> s.idle >= 1 && s.candidates != map[] && QuietCalls(input)) &&
            (FinishedByItself(end) ==> end.value.files == CandidateFiles(s.candidates))
  {
    hide Inv, Execute, AutoValidates, CandidateFiles, HandleFrom, ReadsOnly;
    var s0 := BeginTurn(s, turn);
    BeginKeepsInv(cfg, s, turn);
    if input.response.Calls? && input.response.calls != [] {
      var calls := input.response.calls;
      var (r, end) := HandleFrom(cfg, s0, turn, calls, 0, true);
      if end == GoOn && r.idle >= 1 && r.candidates != map[] {
        CountingLoop(cfg, s0, turn, calls, 0, true);
        assert forall c | c in calls :: ReadsOnly(c);
      }
      if forall c | c in calls :: ReadsOnly(c) { QuietLoop(cfg, s0, turn, calls, 0); }
    }
  }

  /** After a turn that goes on the counter stands, with candidates, exactly when there was something to finish
      with, the turn only read, and no automatic validate followed its calls. */
  lemma TurnCountsIff(cfg: Config, s: State, turn: nat, input: TurnInput)
    requires Inv(cfg, s) && Settled(s) && RunTurn(cfg, s, turn, input).1 == None
    ensures var s' := RunTurn(cfg, s, turn, input).0;
            input.response.Calls? &&
            (s'.idle >= 1 && s'.candidates != map[] <==>
              Ready(s) && QuietCalls(input) && |s'.events| == |s.events| + |input.response.calls|) &&
            (s'.idle >= 1 && s'.candidates != map[] ==> s'.candidates == s.candidates) &&
            Settled(s')
  {
    hide Inv, Execute, AutoValidates, CandidateFiles, HandleFrom, ReadsOnly;
    var s0, calls := BeginTurn(s, turn), input.response.calls;
    BeginKeepsInv(cfg, s, turn);
    var (r, end) := HandleFrom(cfg, s0, turn, calls, 0, true);
    CallsKeepSettled(cfg, s0, turn, calls, 0, true);
    if AutoValidates(r) {
      AutoValidateResets(cfg, r, turn, input.autoWorld);
      ExecuteQuietly(cfg, r, turn, VALIDATE_CALL, input.autoWorld);
    }
    if r.idle >= 1 && r.candidates != map[] {
      CountingLoop(cfg, s0, turn, calls, 0, true);
      assert forall c | c in calls :: ReadsOnly(c);
    }
    if forall c | c in calls :: ReadsOnly(c) { QuietLoop(cfg, s0, turn, calls, 0); }
  }

  /** The loop keeps the invariant, and the counter's meaning up to the one it may add at the end. */
  lemma {:induction false} CallsKeepSettled(
    cfg: Config, s: State, turn: nat, calls: seq<ProviderCall>, i: nat, readOnly: bool)
    requires i <= |calls| && Inv(cfg, s) && Settled(s)
    ensures var (r, end) := HandleFrom(cfg, s, turn, calls, i, readOnly);
            Inv(cfg, r) && (end == GoOn ==> (r.idle >= 1 ==> r.lintPassed))
    decreases |calls| - i
  {
    hide Inv, Execute, CandidateFiles, IsReadOnly;
    if i == |calls| {
      IdleKeepsInv(cfg, s, s.idle + 1);
      IdleKeepsInv(cfg, s, 0);
    } else {
      match calls[i] {
        case Clarification(_) =>
        case Finish(_) => QuietLineKeepsInv(cfg, s, turn, FINISH_NAME, false, TurnedDown(FINISH_NAME));
        case Malformed(name) =>
          QuietLineKeepsInv(cfg, s, turn, name, false, TurnedDown(name));
          CallsKeepSettled(cfg, TurnDown(s, turn, name), turn, calls, i + 1, readOnly);
        case Use(call, w) =>
          ExecuteKeepsInv(cfg, s, turn, call, w);
          VerdictNeedsValidate(cfg, s, turn, call, w);
          CallsKeepSettled(cfg, Execute(cfg, s, turn, call, w), turn, calls, i + 1, readOnly && IsReadOnly(call.tool));
      }
    }
  }

  // ---------------------------------------------------------------------------------------------
  // Runs

  lemma {:induction false} TurnsAreSettled(cfg: Config, script: seq<TurnInput>, last: TurnInput, n: nat)
    requires n >= 1
    ensures var s := StateBefore(cfg, script, last, n); s.Some? ==> Inv(cfg, s.value) && Settled(s.value)
  {
    hide Inv, RunTurn, TurnLimit;
    if n == 1 {
      InitialInv(cfg);
    } else {
      TurnsAreSettled(cfg, script, last, n - 1);
      EveryTurnStartsWell(cfg, script, last, n);
      var s := StateBefore(cfg, script, last, n - 1);
      if s.Some? && RunTurn(cfg, s.value, n - 1, InputAt(script, n - 1, last)).1 == None {
        TurnCountsIff(cfg, s.value, n - 1, InputAt(script, n - 1, last));
      }
    }
  }

  /** A run that has reached turn n + 1 finishes by itself in that turn exactly when at the start of turn n the
      verdict passed and there were candidates, both turns only read, and no automatic validate came between
      them; and then it returns those candidates. */
  lemma AutoFinishIff(cfg: Config, script: seq<TurnInput>, last: TurnInput, n: nat)
    requires n >= 1 && StateBefore(cfg, script, last, n + 1).Some?
    ensures StateBefore(cfg, script, last, n).Some? && InputAt(script, n, last).response.Calls?
    ensures var s, s' := StateBefore(cfg, script, last, n).value, StateBefore(cfg, script, last, n + 1).value;
            var a, b := InputAt(script, n, last), InputAt(script, n + 1, last);
            var end := RunTurn(cfg, s', n + 1, b).1;
            (FinishedByItself(end) <==>
              Ready(s) && QuietCalls(a) && QuietCalls(b) && |s'.events| == |s.events| + |a.response.calls|) &&
            (FinishedByItself(end) ==> end.value.files == CandidateFiles(s.candidates))
  {
    hide Inv, RunTurn, TurnLimit, CandidateFiles, Settled;
    TurnsAreSettled(cfg, script, last, n);
    TurnsAreSettled(cfg, script, last, n + 1);
    var s, s' := StateBefore(cfg, script, last, n).value, StateBefore(cfg, script, last, n + 1).value;
    TurnCountsIff(cfg, s, n, InputAt(script, n, last));
    TurnFinishesIff(cfg, s', n + 1, InputAt(script, n + 1, last));
  }

  /** No run finishes by itself in its first turn. */
  lemma NeverInFirstTurn(cfg: Config, input: TurnInput)
    ensures !FinishedByItself(RunTurn(cfg, INITIAL, 1, input).1)
  {
    hide Inv, RunTurn, CandidateFiles;
    InitialInv(cfg);
    TurnFinishesIff(cfg, INITIAL, 1, input);
  }

  /** From any reached turn on, the run is the loop from there. */
  lemma {:induction false} RunFromHere(cfg: Config, script: seq<TurnInput>, last: TurnInput, n: nat)
    requires 1 <= n <= TurnLimit(cfg) + 1 && StateBefore(cfg, script, last, n).Some?
    ensures Run(cfg, script, last) == RunFrom(cfg, StateBefore(cfg, script, last, n).value, n, script, last)
  {
    hide RunTurn, TurnLimit;
    if n > 1 {
      RunFromHere(cfg, script, last, n - 1);
    }
  }

  /** The last call is not a write that could not be parsed. */
  ghost predicate NoWriteAtEnd(input: TurnInput) {
    input.response.Calls? && input.response.calls != [] &&
    var call := input.response.calls[|input.response.calls| - 1];
    !(call.Malformed? && call.name in {"file_write", "file_edit"})
  }

  /** With something to finish with at the start of turn n, a run whose turns n and n + 1 only read is over by
      itself at turn n + 1 at the latest, and returns its candidates; if turn n does not end in a write that
      could not be parsed. */
  lemma TwoQuietTurnsFinish(cfg: Config, script: seq<TurnInput>, last: TurnInput, n: nat)
    requires 1 <= n < TurnLimit(cfg) && StateBefore(cfg, script, last, n).Some?
    requires Ready(StateBefore(cfg, script, last, n).value)
    requires QuietCalls(InputAt(script, n, last)) && QuietCalls(InputAt(script, n + 1, last))
    requires NoWriteAtEnd(InputAt(script, n, last))
    ensures var s := StateBefore(cfg, script, last, n).value;
            Run(cfg, script, last).1 == Finished(CandidateFiles(s.candidates), false)
  {
    hide Inv, RunTurn, TurnLimit, CandidateFiles, QuietCalls, NoWriteAtEnd, Settled;
    var s, a := StateBefore(cfg, script, last, n).value, InputAt(script, n, last);
    RunFromHere(cfg, script, last, n);
    WithinBudget(cfg, script, last, n);
    QuietTurnGoesOn(cfg, script, last, n);
    if StateBefore(cfg, script, last, n + 1).Some? {
      AutoFinishIff(cfg, script, last, n);
      var s' := StateBefore(cfg, script, last, n + 1).value;
      assert RunFrom(cfg, s, n, script, last) == RunFrom(cfg, s', n + 1, script, last);
    } else {
      TurnsAreSettled(cfg, script, last, n);
      TurnFinishesIff(cfg, s, n, a);
    }
  }

  /** A verdict that passes was given by a validate, so the first turn is over, and failures are in budget. */
  lemma WithinBudget(cfg: Config, script: seq<TurnInput>, last: TurnInput, n: nat)
    requires n >= 1 && StateBefore(cfg, script, last, n).Some? && Ready(StateBefore(cfg, script, last, n).value)
    ensures StateBefore(cfg, script, last, n).value.failures <= cfg.verificationBudget
  {
    hide Inv, AutoValidates, RunTurn, TurnLimit;
    EveryTurnStartsWell(cfg, script, last, n);
  }

  lemma QuietTurnGoesOn(cfg: Config, script: seq<TurnInput>, last: TurnInput, n: nat)
    requires n >= 1 && StateBefore(cfg, script, last, n).Some? && n <= TurnLimit(cfg)
    requires QuietCalls(InputAt(script, n, last)) && NoWriteAtEnd(InputAt(script, n, last))
    requires StateBefore(cfg, script, last, n).value.failures <= cfg.verificationBudget
    ensures var s, a := StateBefore(cfg, script, last, n).value, InputAt(script, n, last);
            var (s', end) := RunTurn(cfg, s, n, a);
            FinishedByItself(end) || (StateBefore(cfg, script, last, n + 1) == Some(s')
                                      && |s'.events| == |s.events| + |a.response.calls|)
  {
    hide RunTurn, TurnLimit, QuietCalls, NoWriteAtEnd, CandidateFiles;
    QuietTurn(cfg, StateBefore(cfg, script, last, n).value, n, InputAt(script, n, last));
  }

  /** Such a turn adds a line for each call; it ends the run by itself or not at all. */
  lemma QuietTurn(cfg: Config, s: State, turn: nat, input: TurnInput)
    requires QuietCalls(input) && NoWriteAtEnd(input) && s.failures <= cfg.verificationBudget
    ensures var (s', end) := RunTurn(cfg, s, turn, input);
            FinishedByItself(end) || (end == None && |s'.events| == |s.events| + |input.response.calls|)
  {
    hide AutoValidates, CandidateFiles, HandleFrom, LineName, ReadsOnly;
    var s0, calls := BeginTurn(s, turn), input.response.calls;
    assert calls[|calls| - 1] in calls;
    QuietLoop(cfg, s0, turn, calls, 0);
    NoWriteLine(calls[|calls| - 1]);
    NoBurst(HandleFrom(cfg, s0, turn, calls, 0, true).0);
  }

  lemma NoWriteLine(call: ProviderCall)
    requires ReadsOnly(call) && !(call.Malformed? && call.name in {"file_write", "file_edit"})
    ensures !IsWriteName(LineName(call))
  {
  }

  lemma NoBurst(s: State)
    requires s.events != [] && !IsWriteName(s.events[|s.events| - 1].name)
    ensures !AutoValidates(s)
  {
    forall k: nat | k >= 3 ensures !TrailingWrites(s.events, k) {
      if k <= |s.events| {
        assert !IsWriteName(s.events[|s.events| - 1].name);
      }
    }
  }

  /** Why the last call matters: three writes that could not be parsed, after a line that is neither a write
      nor a validate, are answered by an automatic validate, and the turn does not count as quiet. */
  lemma UnparsedWritesValidate(cfg: Config, s: State, turn: nat, input: TurnInput)
    requires Inv(cfg, s) && Settled(s) && s.idle == 0 && Ready(s)
    requires s.events != [] && s.events[|s.events| - 1].name == "read"
    requires input.response == Calls([Malformed("file_write"), Malformed("file_write"), Malformed("file_write")])
    ensures var (s', end) := RunTurn(cfg, s, turn, input);
            QuietCalls(input) && !FinishedByItself(end) && |s'.events| == |s.events| + 4 && s'.idle == 0
  {
    hide Inv, CandidateFiles, Execute;
    var s0, calls := BeginTurn(s, turn), input.response.calls;
    BeginKeepsInv(cfg, s, turn);
    var s1 := TurnDown(s0, turn, "file_write");
    var s2 := TurnDown(s1, turn, "file_write");
    var s3 := TurnDown(s2, turn, "file_write");
    QuietLoop(cfg, s0, turn, calls, 0);
    CallsKeepSettled(cfg, s0, turn, calls, 0, true);
    assert HandleFrom(cfg, s3, turn, calls, 3, true) == (CloseTurn(s3, true), GoOn);
    assert HandleFrom(cfg, s2, turn, calls, 2, true) == HandleFrom(cfg, s3, turn, calls, 3, true);
    assert HandleFrom(cfg, s1, turn, calls, 1, true) == HandleFrom(cfg, s2, turn, calls, 2, true);
    assert HandleFrom(cfg, s0, turn, calls, 0, true) == HandleFrom(cfg, s1, turn, calls, 1, true);
    var r := CloseTurn(s3, true);
    assert r.events == s.events + [Event(turn, "file_write", false), Event(turn, "file_write", false),
                                   Event(turn, "file_write", false)];
    AutoValidatesAfterThree(r, s.events);
    AutoValidateResets(cfg, r, turn, input.autoWorld);
    ExecuteQuietly(cfg, r, turn, VALIDATE_CALL, input.autoWorld);
  }

  lemma AutoValidatesAfterThree(s: State, before: seq<Event>)
    requires s.candidates != map[] && before != [] && before[|before| - 1].name == "read"
    requires |s.events| == |before| + 3 && s.events[..|before|] == before && TrailingWrites(s.events, 3)
    ensures AutoValidates(s)
  {
    assert s.events[|s.events| - 4] == before[|before| - 1];
    assert !TrailingWrites(s.events, 4);
    assert |s.candidates.Keys| == |s.candidates|;
    assert s.candidates.Keys != {};
  }
}
