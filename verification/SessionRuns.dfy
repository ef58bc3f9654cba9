/** Whole runs of the authoring session: what holds at the start of every turn and at the end. */
module SessionRuns {
  import opened Text
  import opened Files
  import opened GenerationValidate
  import opened Session
  import opened LintFacts
  import opened RepairFacts
  import opened SessionInvariant
  import ReadWindow

  // ---------------------------------------------------------------------------------------------
  // Quiet turns

  /** While the idle counter stands at k (k = 1, 2), the candidates have not changed since the start of
      the k-th turn before the current one. */
  ghost predicate QuietInTurn(s: State) {
    var n := |s.marks|;
    && (s.idle >= 1 ==> n >= 2 && s.candidates == s.marks[n - 1] == s.marks[n - 2])
    && (s.idle >= 2 ==> n >= 3 && s.candidates == s.marks[n - 3])
  }

  /** The same between turns, where the turn just ended counts too. */
  ghost predicate QuietAfterTurn(s: State) {
    var n := |s.marks|;
    && (s.idle >= 1 ==> n >= 1 && s.candidates == s.marks[n - 1])
    && (s.idle >= 2 ==> n >= 2 && s.candidates == s.marks[n - 2])
  }

  lemma {:induction false} ReadKeepsRest(cfg: Config, s: State, disk: Disk, paths: seq<string>, offset: int, limit: int)
    ensures var s' := RunRead(cfg, s, disk, paths, offset, limit).0; s' == s.(readState := s'.readState)
    decreases |paths|
  {
    hide ReadAllowed, ReadDisk, ReadWindow.ReadWindow;
    if paths != [] {
      var p := cfg.normalize(paths[0]);
      if p.Some? {
        var current := CurrentContent(cfg, s, disk, p.value);
        if current.Current? {
          ReadKeepsRest(cfg, s, disk, paths[1..], offset, limit);
          var snapshot := Snapshot(current.content, true, current.candidate, true);
          ReadKeepsRest(cfg, s.(readState := s.readState[p.value := snapshot]), disk, paths[1..], offset, limit);
        }
      }
    }
  }

  /** A tool either leaves the candidates and the idle counter alone, or resets the counter; a read-only
      tool always does the former. Marks and turn count are not a tool's business. */
  lemma ExecuteQuietly(cfg: Config, s: State, turn: nat, call: ToolCall, w: World)
    requires Inv(cfg, s)
    ensures var s' := Execute(cfg, s, turn, call, w);
            s'.marks == s.marks && s'.turnsUsed == s.turnsUsed &&
            (s'.idle == 0 || (s'.idle == s.idle && s'.candidates == s.candidates)) &&
            (IsReadOnly(call.tool) ==> s'.idle == s.idle && s'.candidates == s.candidates) &&
            |s'.events| == |s.events| + 1
  {
    hide RunRead, RunValidate, EditResult, NormalizeContent, AllowedPaths, CheckSound, Scoped, ShownFrom;
    match call.tool {
      case Read => ReadKeepsRest(cfg, s, w.disk, call.paths, call.offset, call.limit);
      case ValidateTool => ValidateStep(cfg, s, w);
      case _ =>
    }
  }

  /** What the loop over the calls of a turn keeps. */
  ghost predicate InTurn(cfg: Config, s: State, readOnly: bool) {
    && Inv(cfg, s) && QuietInTurn(s)
    && |s.marks| >= 1 && (readOnly ==> s.candidates == s.marks[|s.marks| - 1])
  }

  /** What holds when the loop ends: either the run goes on between turns, or the finish call was
      accepted, which takes a passing verdict and candidates (unless the route is refine). */
  ghost predicate AfterCalls(cfg: Config, s: State, end: CallsEnd) {
    && Inv(cfg, s) && |s.marks| >= 1
    && (end.GoOn? ==> QuietAfterTurn(s))
    && (end.Broken? ==> end.problem == NotAlone || end.problem == BadArguments)
    && (end.Finishing? ==> s.lintPassed && (CandidateFiles(s.candidates) != [] || cfg.plan.route == Refine))
  }

  lemma TurnDownKeeps(cfg: Config, s: State, turn: nat, name: string, readOnly: bool)
    requires InTurn(cfg, s, readOnly)
    ensures InTurn(cfg, TurnDown(s, turn, name), readOnly)
  {
    hide Inv;
    QuietLineKeepsInv(cfg, s, turn, name, false, TurnedDown(name));
  }

  lemma ExecuteKeepsTurn(cfg: Config, s: State, turn: nat, call: ToolCall, w: World, readOnly: bool)
    requires InTurn(cfg, s, readOnly)
    ensures InTurn(cfg, Execute(cfg, s, turn, call, w), readOnly && IsReadOnly(call.tool))
  {
    hide Inv, Execute, IsReadOnly;
    ExecuteKeepsInv(cfg, s, turn, call, w);
    ExecuteQuietly(cfg, s, turn, call, w);
  }

  lemma CloseTurnKeeps(cfg: Config, s: State, readOnly: bool)
    requires InTurn(cfg, s, readOnly)
    ensures AfterCalls(cfg, CloseTurn(s, readOnly), GoOn)
  {
    hide Inv, CandidateFiles;
    IdleKeepsInv(cfg, s, s.idle + 1);
    IdleKeepsInv(cfg, s, 0);
  }

  lemma {:induction false} CallsKeep(cfg: Config, s: State, turn: nat, calls: seq<ProviderCall>, i: nat, readOnly: bool)
    requires i <= |calls| && InTurn(cfg, s, readOnly)
    ensures var r := HandleFrom(cfg, s, turn, calls, i, readOnly);
            AfterCalls(cfg, r.0, r.1) && r.0.marks == s.marks && r.0.turnsUsed == s.turnsUsed
    decreases |calls| - i
  {
    hide Inv, Execute, IsReadOnly, CandidateFiles, QuietInTurn;
    assert QuietInTurn(s) ==> QuietAfterTurn(s) by { QuietWeakens(s); }
    if i == |calls| {
      CloseTurnKeeps(cfg, s, readOnly);
    } else {
      match calls[i] {
        case Clarification(_) =>
        case Finish(_) =>
          TurnDownKeeps(cfg, s, turn, FINISH_NAME, readOnly);
          QuietWeakens(TurnDown(s, turn, FINISH_NAME));
        case Malformed(name) =>
          TurnDownKeeps(cfg, s, turn, name, readOnly);
          CallsKeep(cfg, TurnDown(s, turn, name), turn, calls, i + 1, readOnly);
        case Use(call, w) =>
          ExecuteKeepsTurn(cfg, s, turn, call, w, readOnly);
          ExecuteKeepsMarks(cfg, s, turn, call, w);
          CallsKeep(cfg, Execute(cfg, s, turn, call, w), turn, calls, i + 1, readOnly && IsReadOnly(call.tool));
      }
    }
  }

  lemma ExecuteKeepsMarks(cfg: Config, s: State, turn: nat, call: ToolCall, w: World)
    requires Inv(cfg, s)
    ensures var s' := Execute(cfg, s, turn, call, w); s'.marks == s.marks && s'.turnsUsed == s.turnsUsed
  {
    hide Inv, Execute;
    ExecuteQuietly(cfg, s, turn, call, w);
  }

  lemma QuietWeakens(s: State)
    ensures QuietInTurn(s) ==> QuietAfterTurn(s)
  {
  }

  // ---------------------------------------------------------------------------------------------
  // Turns

  /** What holds at the start of turn `turn`. */
  ghost predicate AtTurnStart(cfg: Config, s: State, turn: nat) {
    && Inv(cfg, s) && QuietAfterTurn(s)
    && turn >= 1 && s.turnsUsed == |s.marks| == turn - 1
    && !AutoValidates(s)
    && (if turn == 1 then s.failures == 0 else s.failures <= cfg.verificationBudget)
  }

  /** What holds when the run is over. */
  ghost predicate AtEnd(cfg: Config, s: State, end: End) {
    && Inv(cfg, s)
    && s.turnsUsed == |s.marks| <= TurnLimit(cfg)
    && (end.Finished? ==>
          && s.lintPassed && end.files == CandidateFiles(s.candidates)
          && (end.files == [] ==> end.explicit && cfg.plan.route == Refine)
          && (!end.explicit ==> QuietForTwoTurns(s)))
    && (end == Stopped(FailureBudget) ==> s.failures > cfg.verificationBudget)
  }

  /** The candidates are those at the start of this turn and of the turn before. */
  ghost predicate QuietForTwoTurns(s: State) {
    var n := |s.marks|;
    n >= 2 && s.candidates == s.marks[n - 1] == s.marks[n - 2] && s.candidates != map[]
  }

  lemma NoBurstAfterValidate(s: State)
    requires s.events != [] && s.events[|s.events| - 1].name == "validate"
    ensures !AutoValidates(s)
  {
    forall k: nat | k >= 3 ensures !TrailingWrites(s.events, k) {
      if k <= |s.events| {
        assert !IsWriteName(s.events[|s.events| - 1].name);
      }
    }
  }

  lemma CandidateCount(cfg: Config, s: State)
    requires Inv(cfg, s)
    ensures CandidateFiles(s.candidates) == [] <==> s.candidates == map[]
  {
    hide CandidateFiles, Tracked, ChecksSound, Aligned, Bookkept, Fresh, GoodFile;
    CandidateMembers(cfg, s.candidates);
    if s.candidates != map[] {
      assert |s.candidates.Keys| == |s.candidates|;
      assert s.candidates.Keys != {};
    }
  }

  lemma EndTurnKeeps(cfg: Config, s: State, turn: nat, autoWorld: World)
    requires Inv(cfg, s) && QuietAfterTurn(s) && s.turnsUsed == |s.marks| == turn >= 1 && turn <= TurnLimit(cfg)
    ensures var r := EndTurn(cfg, s, turn, autoWorld);
            if r.1.Some? then AtEnd(cfg, r.0, r.1.value) else AtTurnStart(cfg, r.0, turn + 1)
  {
    hide Inv, Execute, AutoValidates, CandidateFiles, TurnLimit;
    CandidateCount(cfg, s);
    if !AutoFinishes(s) && AutoValidates(s) {
      var s' := Execute(cfg, s, turn, VALIDATE_CALL, autoWorld);
      ExecuteKeepsInv(cfg, s, turn, VALIDATE_CALL, autoWorld);
      ExecuteQuietly(cfg, s, turn, VALIDATE_CALL, autoWorld);
      AutoValidateResets(cfg, s, turn, autoWorld);
      NoBurstAfterValidate(s');
    }
  }

  lemma AutoValidateResets(cfg: Config, s: State, turn: nat, w: World)
    requires Inv(cfg, s)
    ensures var s' := Execute(cfg, s, turn, VALIDATE_CALL, w);
            s'.idle == 0 && s'.events != [] && s'.events[|s'.events| - 1].name == "validate"
  {
    hide RunValidate, CheckSound, Scoped, ShownFrom;
    ValidateStep(cfg, s, w);
  }

  /** One turn: it starts where the last one ended, and either the run goes on to the next turn or it
      ends as it should. */
  lemma TurnKeeps(cfg: Config, s: State, turn: nat, input: TurnInput)
    requires AtTurnStart(cfg, s, turn) && turn <= TurnLimit(cfg)
    ensures var r := RunTurn(cfg, s, turn, input);
            if r.1.Some? then AtEnd(cfg, r.0, r.1.value) else AtTurnStart(cfg, r.0, turn + 1)
  {
    hide Inv, AutoValidates, CandidateFiles, TurnLimit, HandleFrom, EndTurn;
    var s0 := BeginTurn(s, turn);
    BeginTurnKeeps(cfg, s, turn);
    if input.response.Calls? && input.response.calls != [] {
      CallsKeep(cfg, s0, turn, input.response.calls, 0, true);
      var r := HandleFrom(cfg, s0, turn, input.response.calls, 0, true);
      if r.1.GoOn? {
        EndTurnKeeps(cfg, r.0, turn, input.autoWorld);
      }
    }
  }

  lemma BeginTurnKeeps(cfg: Config, s: State, turn: nat)
    requires AtTurnStart(cfg, s, turn)
    ensures InTurn(cfg, BeginTurn(s, turn), true)
    ensures var s' := BeginTurn(s, turn); s'.turnsUsed == |s'.marks| == turn
  {
    hide AutoValidates, CandidateFiles, Scoped, ChecksSound, Aligned, ShownFrom, LastCheck, FailedChecks, StagedSince;
  }

  lemma InitialTurn(cfg: Config)
    ensures AtTurnStart(cfg, INITIAL, 1)
  {
    InitialInv(cfg);
  }

  lemma {:induction false} RunKeeps(cfg: Config, s: State, turn: nat, script: seq<TurnInput>, last: TurnInput)
    requires AtTurnStart(cfg, s, turn) && turn <= TurnLimit(cfg) + 1
    ensures var r := RunFrom(cfg, s, turn, script, last); AtEnd(cfg, r.0, r.1)
    decreases TurnLimit(cfg) + 1 - turn
  {
    hide AutoValidates, CandidateFiles, TurnLimit, RunTurn, Inv;
    if turn <= TurnLimit(cfg) {
      TurnKeeps(cfg, s, turn, InputAt(script, turn, last));
      var r := RunTurn(cfg, s, turn, InputAt(script, turn, last));
      if r.1.None? {
        RunKeeps(cfg, r.0, turn + 1, script, last);
      }
    }
  }

  /** Every run ends in a state with the invariant, within the turn limit; one that finished has a
      passing verdict and returns the candidates, and they are not empty unless the provider finished
      explicitly on the refine route. */
  lemma EveryRunEndsWell(cfg: Config, script: seq<TurnInput>, last: TurnInput)
    ensures var r := Run(cfg, script, last); AtEnd(cfg, r.0, r.1)
  {
    hide AutoValidates, CandidateFiles, TurnLimit, RunFrom, Inv;
    InitialTurn(cfg);
    assert TurnLimit(cfg) >= 1 by { LimitValue(cfg); }
    RunKeeps(cfg, INITIAL, 1, script, last);
  }

  lemma LimitValue(cfg: Config)
    ensures TurnLimit(cfg) == (if 3 * cfg.verificationBudget + 2 > 30 then 3 * cfg.verificationBudget + 2 else 30)
  {
  }

  /** A run starts at most max(30, 3 * budget + 2) turns, and makes one provider call in each. */
  lemma ProviderCallsAreBounded(cfg: Config, script: seq<TurnInput>, last: TurnInput)
    ensures var s := Run(cfg, script, last).0;
            s.turnsUsed == |s.marks|
            && (s.turnsUsed <= 30 || s.turnsUsed <= 3 * cfg.verificationBudget + 2)
  {
    hide Run, Inv, CandidateFiles, TurnLimit;
    EveryRunEndsWell(cfg, script, last);
    LimitValue(cfg);
  }

  /** The state at the start of turn n, if the run gets that far. */
  ghost function StateBefore(cfg: Config, script: seq<TurnInput>, last: TurnInput, n: nat): Option<State>
    requires n >= 1
  {
    if n == 1 then Some(INITIAL)
    else match StateBefore(cfg, script, last, n - 1)
      case None => None
      case Some(s) =>
        if n - 1 > TurnLimit(cfg) then None
        else
          var r := RunTurn(cfg, s, n - 1, InputAt(script, n - 1, last));
          if r.1.None? then Some(r.0) else None
  }

  /** At the start of every turn that is reached: the invariant holds, no automatic validate is due, and
      the failures are within budget. */
  lemma {:induction false} EveryTurnStartsWell(cfg: Config, script: seq<TurnInput>, last: TurnInput, n: nat)
    requires n >= 1
    ensures var s := StateBefore(cfg, script, last, n); s.Some? ==> AtTurnStart(cfg, s.value, n)
  {
    hide AutoValidates, TurnLimit, RunTurn, Inv;
    if n == 1 {
      InitialTurn(cfg);
    } else {
      EveryTurnStartsWell(cfg, script, last, n - 1);
      var s := StateBefore(cfg, script, last, n - 1);
      if s.Some? && n - 1 <= TurnLimit(cfg) {
        TurnKeeps(cfg, s.value, n - 1, InputAt(script, n - 1, last));
      }
    }
  }
}
