/** How a turn ends that holds a finish or a clarification call, or no call at all, and what any other turn adds to
    the transcript. */
module TurnEnds {
  import opened Text
  import opened Files
  import opened GenerationValidate
  import opened Session
  import opened LintFacts
  import opened CheckFacts
  import opened SessionInvariant
  import opened SessionRuns

  predicate IsControl(call: ProviderCall) {
    call.Finish? || call.Clarification?
  }

  /** A provider that fails, or answers without a call, ends the run. */
  lemma NoCallEndsRun(cfg: Config, s: State, turn: nat, w: World)
    ensures RunTurn(cfg, s, turn, TurnInput(ProviderFailed, w)).1 == Some(Stopped(ProviderError))
    ensures RunTurn(cfg, s, turn, TurnInput(Calls([]), w)).1 == Some(Stopped(NoToolCall))
  {
  }

  /** A clarification call on its own ends the run with the question, if it parses. */
  lemma ClarificationEnds(cfg: Config, s: State, turn: nat, parses: bool, w: World)
    ensures RunTurn(cfg, s, turn, TurnInput(Calls([Clarification(parses)]), w)).1
         == Some(if parses then AskedClarification else Stopped(BadArguments))
  {
  }

  /** A call adds one line to the transcript, under the name of its tool. */
  lemma ExecuteAppends(cfg: Config, s: State, turn: nat, call: ToolCall, w: World)
    requires Inv(cfg, s)
    ensures var events := Execute(cfg, s, turn, call, w).events;
            |events| == |s.events| + 1 && events[..|s.events|] == s.events &&
            events[|s.events|].name == ToolName(call.tool) && events[|s.events|].turn == turn
  {
    hide RunRead, RunValidate, EditResult, NormalizeContent, AllowedPaths, CheckSound, Scoped, ShownFrom, Grouped,
         Sights;
    match call.tool {
      case Read => ReadKeepsRest(cfg, s, w.disk, call.paths, call.offset, call.limit);
      case ValidateTool => ValidateStep(cfg, s, w);
      case _ =>
    }
  }

  /** A finish call on its own ends the run with the staged files exactly when it parses, the verdict passes, and
      there are files or the route is refine; one that parses and is not accepted is turned down. */
  lemma FinishAcceptedIff(cfg: Config, s: State, turn: nat, parses: bool, w: World)
    requires Inv(cfg, s)
    ensures var (s', end) := RunTurn(cfg, s, turn, TurnInput(Calls([Finish(parses)]), w));
            var accepted := s.lintPassed && (s.candidates != map[] || cfg.plan.route == Refine);
            (!parses ==> end == Some(Stopped(BadArguments))) &&
            (parses && accepted ==> end == Some(Finished(CandidateFiles(s.candidates), true))) &&
            (parses && !accepted ==> !(end.Some? && end.value.Finished? && end.value.explicit)
                                     && |s'.events| > |s.events|
                                     && s'.events[|s.events|] == Event(turn, "author_finish", false))
  {
    hide CandidateFiles, Inv, AutoValidates, AutoFinishes, Execute;
    CandidateCount(cfg, s);
    var s0 := BeginTurn(s, turn);
    if parses {
      BeginKeeps(cfg, s, turn);
      var r := TurnDown(s0, turn, FINISH_NAME);
      QuietLineKeepsInv(cfg, s0, turn, FINISH_NAME, false, TurnedDown(FINISH_NAME));
      ExecuteAppends(cfg, r, turn, VALIDATE_CALL, w);
      assert r.events[|s.events|] == Event(turn, "author_finish", false);
      assert Execute(cfg, r, turn, VALIDATE_CALL, w).events[..|r.events|][|s.events|] == r.events[|s.events|];
    }
  }

  lemma BeginKeeps(cfg: Config, s: State, turn: nat)
    requires Inv(cfg, s)
    ensures Inv(cfg, BeginTurn(s, turn))
  {
    hide CandidateFiles, Scoped, ChecksSound, Aligned, ShownFrom, LastCheck, FailedChecks, StagedSince, Grouped;
  }

  /** A control call beside other calls breaks off the turn, and the run with it. */
  lemma {:induction false} ControlAmongCalls(
    cfg: Config, s: State, turn: nat, calls: seq<ProviderCall>, i: nat, readOnly: bool, k: nat)
    requires |calls| >= 2 && i <= k < |calls| && IsControl(calls[k])
    requires forall j | i <= j < k :: !IsControl(calls[j])
    ensures HandleFrom(cfg, s, turn, calls, i, readOnly).1 == Broken(NotAlone)
    decreases |calls| - i
  {
    hide Execute, IsReadOnly;
    if i < k {
      match calls[i] {
        case Malformed(name) => ControlAmongCalls(cfg, TurnDown(s, turn, name), turn, calls, i + 1, readOnly, k);
        case Use(call, w) =>
          ControlAmongCalls(
            cfg, Execute(cfg, s, turn, call, w), turn, calls, i + 1, readOnly && IsReadOnly(call.tool), k);
        case _ =>
      }
    }
  }

  lemma {:induction false} FirstControl(calls: seq<ProviderCall>, n: nat) returns (k: nat)
    requires n <= |calls| && exists j :: 0 <= j < n && IsControl(calls[j])
    ensures k < n && IsControl(calls[k]) && forall j | 0 <= j < k :: !IsControl(calls[j])
  {
    if exists j :: 0 <= j < n - 1 && IsControl(calls[j]) {
      k := FirstControl(calls, n - 1);
    } else {
      k := n - 1;
    }
  }

  lemma ControlIsAlone(cfg: Config, s: State, turn: nat, calls: seq<ProviderCall>, w: World, k: nat)
    requires |calls| >= 2 && k < |calls| && IsControl(calls[k])
    ensures RunTurn(cfg, s, turn, TurnInput(Calls(calls), w)).1 == Some(Stopped(NotAlone))
  {
    hide HandleFrom, EndTurn;
    var first := FirstControl(calls, |calls|);
    ControlAmongCalls(cfg, BeginTurn(s, turn), turn, calls, 0, true, first);
  }

  /** The name a call goes by in the transcript. */
  function CallName(call: ProviderCall): string
    requires !IsControl(call)
  {
    match call
    case Malformed(name) => name
    case Use(toolCall, _) => ToolName(toolCall.tool)
  }

  /** Other calls are all made, in order, with a line for each. */
  lemma {:induction false} CallsAreMade(
    cfg: Config, s: State, turn: nat, calls: seq<ProviderCall>, i: nat, readOnly: bool)
    requires Inv(cfg, s) && i <= |calls| && forall j | i <= j < |calls| :: !IsControl(calls[j])
    ensures var (r, end) := HandleFrom(cfg, s, turn, calls, i, readOnly);
            end == GoOn && |r.events| == |s.events| + |calls| - i && r.events[..|s.events|] == s.events &&
            forall j | i <= j < |calls| :: r.events[|s.events| + j - i].name == CallName(calls[j])
    decreases |calls| - i
  {
    hide Execute, IsReadOnly, Inv, ToolName;
    if i < |calls| {
      var next := match calls[i]
        case Malformed(name) => TurnDown(s, turn, name)
        case Use(call, w) => Execute(cfg, s, turn, call, w)
        case _ => s;
      var readOnly' := readOnly && (calls[i].Use? ==> IsReadOnly(calls[i].call.tool));
      match calls[i] {
        case Malformed(name) => QuietLineKeepsInv(cfg, s, turn, name, false, TurnedDown(name));
        case Use(call, w) =>
          ExecuteKeepsInv(cfg, s, turn, call, w);
          ExecuteAppends(cfg, s, turn, call, w);
        case _ =>
      }
      CallsAreMade(cfg, next, turn, calls, i + 1, readOnly');
      var r := HandleFrom(cfg, s, turn, calls, i, readOnly).0;
      assert r == HandleFrom(cfg, next, turn, calls, i + 1, readOnly').0;
      assert next.events[..|s.events|] == s.events && next.events[|s.events|].name == CallName(calls[i]);
      assert r.events[..|s.events|] == r.events[..|next.events|][..|s.events|];
      assert r.events[|s.events|] == r.events[..|next.events|][|s.events|];
    }
  }

  /** A tool that neither reads files, stages nor validates changes nothing but the transcript; `init` also starts the
      idle counter anew, and fails where there already are workflows. */
  lemma OtherToolsOnlyLog(cfg: Config, s: State, turn: nat, call: ToolCall, w: World)
    requires call.tool !in {Read, FileWrite, FileEdit, ValidateTool}
    ensures var s', init := Execute(cfg, s, turn, call, w), call.tool == Init;
            s'.candidates == s.candidates && s'.readState == s.readState && s'.lintPassed == s.lintPassed &&
            s'.failures == s.failures && s'.idle == (if init then 0 else s.idle) &&
            |s'.events| == |s.events| + 1 &&
            s'.events[|s.events|].ok == (w.otherOk && (!init || !cfg.hasWorkflowTree))
  {
    hide Sights;
  }
}
