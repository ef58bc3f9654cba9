/** The apply run log of cmd/deck/apply_runlog.go: an append-only journal of step events and the
    snapshot of the steps that is kept beside it. */
module RunLog {
  import opened Text

  /** The text fields of an event that update a step. */
  datatype Field = Kind | Phase | Status | Reason | StartedAt | EndedAt | Error

  /** install.StepEvent without the batch fields, which only the journal line carries. */
  datatype StepEvent = StepEvent(stepId: string, text: Field -> string, attempt: int)

  /** applyRunStepRecord */
  datatype StepRecord = StepRecord(
    stepId: string, kind: string, phase: string, status: string, reason: string,
    attempt: int, startedAt: string, endedAt: string, error: string)

  // ---------------------------------------------------------------------------------------------
  // What a journal says, read from scratch

  /** e is about the step id. */
  predicate About(e: StepEvent, id: string) {
    TrimSpace(e.stepId) == id
  }

  /** The steps a journal names, in the order it first names them. */
  function Ids(es: seq<StepEvent>): (ids: seq<string>) {
    if es == [] then [] else
      var ids := Ids(es[..|es| - 1]);
      var id := TrimSpace(es[|es| - 1].stepId);
      if id == "" || id in ids then ids else ids + [id]
  }

  /** The last non-blank value a journal gives the field of a step. */
  function LastText(es: seq<StepEvent>, id: string, f: Field): string {
    if es == [] then ""
    else if About(es[|es| - 1], id) && TrimSpace(es[|es| - 1].text(f)) != "" then
      TrimSpace(es[|es| - 1].text(f))
    else LastText(es[..|es| - 1], id, f)
  }

  /** The last positive attempt number a journal gives a step. */
  function LastAttempt(es: seq<StepEvent>, id: string): int {
    if es == [] then 0
    else if About(es[|es| - 1], id) && es[|es| - 1].attempt > 0 then es[|es| - 1].attempt
    else LastAttempt(es[..|es| - 1], id)
  }

  function RecordOf(es: seq<StepEvent>, id: string): StepRecord {
    StepRecord(id, LastText(es, id, Kind), LastText(es, id, Phase), LastText(es, id, Status),
               LastText(es, id, Reason), LastAttempt(es, id), LastText(es, id, StartedAt),
               LastText(es, id, EndedAt), LastText(es, id, Error))
  }

  function Replay(es: seq<StepEvent>): (records: seq<StepRecord>)
    ensures |records| == |Ids(es)|
    ensures forall k :: 0 <= k < |records| ==> records[k] == RecordOf(es, Ids(es)[k])
  {
    var ids := Ids(es);
    seq(|ids|, k requires 0 <= k < |ids| => RecordOf(es, ids[k]))
  }

  // ---------------------------------------------------------------------------------------------
  // What the readings mean

  /** The event at i gives the field of a step a value. */
  predicate Sets(es: seq<StepEvent>, id: string, f: Field, i: int) {
    0 <= i < |es| && About(es[i], id) && TrimSpace(es[i].text(f)) != ""
  }

  /** i is the last event to set the field, or -1 when none does. */
  ghost predicate LastSet(es: seq<StepEvent>, id: string, f: Field, i: int) {
    && (i == -1 || Sets(es, id, f, i))
    && forall j | j > i :: !Sets(es, id, f, j)
  }

  /** LastText is the value of the last event to set the field, and blank when no event does. */
  lemma {:induction false} LastTextIsLast(es: seq<StepEvent>, id: string, f: Field) returns (i: int)
    ensures LastSet(es, id, f, i)
    ensures LastText(es, id, f) == if i == -1 then "" else TrimSpace(es[i].text(f))
  {
    hide TrimSpace;
    var n := |es| - 1;
    if es == [] {
      i := -1;
    } else if Sets(es, id, f, n) {
      i := n;
    } else {
      i := LastTextIsLast(es[..n], id, f);
      forall j ensures Sets(es, id, f, j) <==> Sets(es[..n], id, f, j) {
        assert 0 <= j < n ==> es[..n][j] == es[j];
      }
    }
  }

  /** The event at i gives the step an attempt number. */
  predicate Counts(es: seq<StepEvent>, id: string, i: int) {
    0 <= i < |es| && About(es[i], id) && es[i].attempt > 0
  }

  /** i is the last event to do so, or -1 when none does. */
  ghost predicate LastCount(es: seq<StepEvent>, id: string, i: int) {
    && (i == -1 || Counts(es, id, i))
    && forall j | j > i :: !Counts(es, id, j)
  }

  lemma {:induction false} LastAttemptIsLast(es: seq<StepEvent>, id: string) returns (i: int)
    ensures LastCount(es, id, i)
    ensures LastAttempt(es, id) == if i == -1 then 0 else es[i].attempt
  {
    hide TrimSpace;
    var n := |es| - 1;
    if es == [] {
      i := -1;
    } else if Counts(es, id, n) {
      i := n;
    } else {
      i := LastAttemptIsLast(es[..n], id);
      forall j ensures Counts(es, id, j) <==> Counts(es[..n], id, j) {
        assert 0 <= j < n ==> es[..n][j] == es[j];
      }
    }
  }

  /** The value is the trimmed text of this field in the last event about the step that sets it; blank if none. */
  ghost predicate IsLastText(es: seq<StepEvent>, id: string, f: Field, value: string) {
    exists i :: LastSet(es, id, f, i) && value == if i == -1 then "" else TrimSpace(es[i].text(f))
  }

  /** The number is that of the last event about the step with a positive attempt; 0 if there is none. */
  ghost predicate IsLastAttempt(es: seq<StepEvent>, id: string, value: int) {
    exists i :: LastCount(es, id, i) && value == if i == -1 then 0 else es[i].attempt
  }

  /** Field by field, what a record of a step says of a journal. */
  ghost predicate Tells(es: seq<StepEvent>, r: StepRecord) {
    && IsLastText(es, r.stepId, Kind, r.kind)
    && IsLastText(es, r.stepId, Phase, r.phase)
    && IsLastText(es, r.stepId, Status, r.status)
    && IsLastText(es, r.stepId, Reason, r.reason)
    && IsLastAttempt(es, r.stepId, r.attempt)
    && IsLastText(es, r.stepId, StartedAt, r.startedAt)
    && IsLastText(es, r.stepId, EndedAt, r.endedAt)
    && IsLastText(es, r.stepId, Error, r.error)
  }

  lemma LastTextTells(es: seq<StepEvent>, id: string, f: Field)
    ensures IsLastText(es, id, f, LastText(es, id, f))
  {
    hide TrimSpace, LastText;
    var i := LastTextIsLast(es, id, f);
  }

  /** Every record of a replay tells its step's events, and the records are those of the steps named, in order. */
  lemma ReplayTells(es: seq<StepEvent>)
    ensures |Replay(es)| == |Ids(es)|
    ensures forall k | 0 <= k < |Ids(es)| :: Replay(es)[k].stepId == Ids(es)[k] && Tells(es, Replay(es)[k])
  {
    hide LastText, LastAttempt, IsLastText, IsLastAttempt, Ids;
    forall k | 0 <= k < |Ids(es)| ensures Replay(es)[k].stepId == Ids(es)[k] && Tells(es, Replay(es)[k]) {
      var id := Ids(es)[k];
      forall f: Field ensures IsLastText(es, id, f, LastText(es, id, f)) {
        LastTextTells(es, id, f);
      }
      AttemptTells(es, id);
    }
  }

  lemma AttemptTells(es: seq<StepEvent>, id: string)
    ensures IsLastAttempt(es, id, LastAttempt(es, id))
  {
    hide LastAttempt, About;
    var i := LastAttemptIsLast(es, id);
  }

  /** Some event is about the step. */
  predicate NamedIn(es: seq<StepEvent>, id: string) {
    exists i :: 0 <= i < |es| && About(es[i], id)
  }

  lemma NamedStep(es: seq<StepEvent>, id: string)
    requires es != []
    ensures NamedIn(es, id) <==> NamedIn(es[..|es| - 1], id) || About(es[|es| - 1], id)
  {
    hide About;
    var init := es[..|es| - 1];
    if NamedIn(es, id) {
      var i :| 0 <= i < |es| && About(es[i], id);
      assert i < |init| ==> init[i] == es[i];
    }
    if NamedIn(init, id) {
      var i :| 0 <= i < |init| && About(init[i], id);
      assert es[i] == init[i];
    }
  }

  /** No step is listed twice, none is blank, and a step is listed exactly when some event names it. */
  lemma {:induction false} IdsAreTheNamedSteps(es: seq<StepEvent>)
    ensures forall i, j | 0 <= i < j < |Ids(es)| :: Ids(es)[i] != Ids(es)[j]
    ensures forall id :: id in Ids(es) <==> id != "" && NamedIn(es, id)
  {
    hide TrimSpace;
    if es != [] {
      var init, last := es[..|es| - 1], es[|es| - 1];
      IdsAreTheNamedSteps(init);
      forall id ensures NamedIn(es, id) <==> NamedIn(init, id) || About(last, id) {
        NamedStep(es, id);
      }
      assert About(last, TrimSpace(last.stepId));
    }
  }

  /** First-seen order: a step first named earlier is listed earlier, because later events only append. */
  lemma {:induction false} IdsOnlyAppend(es: seq<StepEvent>, more: seq<StepEvent>)
    ensures Ids(es) <= Ids(es + more)
  {
    if more == [] {
      assert es + more == es;
    } else {
      IdsOnlyAppend(es, more[..|more| - 1]);
      assert (es + more)[..|es + more| - 1] == es + more[..|more| - 1];
    }
  }

  lemma {:induction false} LastTextOfJoined(a: seq<StepEvent>, b: seq<StepEvent>, id: string, f: Field)
    ensures LastText(a + b, id, f) == if LastText(b, id, f) != "" then LastText(b, id, f) else LastText(a, id, f)
  {
    if b == [] {
      assert a + b == a;
    } else {
      LastTextOfJoined(a, b[..|b| - 1], id, f);
      assert (a + b)[..|a + b| - 1] == a + b[..|b| - 1];
    }
  }

  lemma {:induction false} LastAttemptOfJoined(a: seq<StepEvent>, b: seq<StepEvent>, id: string)
    ensures LastAttempt(a, id) >= 0
    ensures LastAttempt(a + b, id) == if LastAttempt(b, id) > 0 then LastAttempt(b, id) else LastAttempt(a, id)
  {
    if b == [] {
      assert a + b == a;
      if a != [] { LastAttemptOfJoined(a[..|a| - 1], [], id); }
    } else {
      LastAttemptOfJoined(a, b[..|b| - 1], id);
      assert (a + b)[..|a + b| - 1] == a + b[..|b| - 1];
    }
  }

  /** A later record laid over an earlier one. */
  function Overlay(earlier: StepRecord, later: StepRecord): StepRecord {
    StepRecord(
      earlier.stepId,
      if later.kind != "" then later.kind else earlier.kind,
      if later.phase != "" then later.phase else earlier.phase,
      if later.status != "" then later.status else earlier.status,
      if later.reason != "" then later.reason else earlier.reason,
      if later.attempt > 0 then later.attempt else earlier.attempt,
      if later.startedAt != "" then later.startedAt else earlier.startedAt,
      if later.endedAt != "" then later.endedAt else earlier.endedAt,
      if later.error != "" then later.error else earlier.error)
  }

  /** A snapshot stands for the journal it was taken from: laying the replay of later events over the
      record of a step gives the record of the whole journal. */
  lemma RecordOfJoined(a: seq<StepEvent>, b: seq<StepEvent>, id: string)
    ensures RecordOf(a + b, id) == Overlay(RecordOf(a, id), RecordOf(b, id))
  {
    forall f: Field
      ensures LastText(a + b, id, f) == if LastText(b, id, f) != "" then LastText(b, id, f) else LastText(a, id, f)
    {
      LastTextOfJoined(a, b, id, f);
    }
    LastAttemptOfJoined(a, b, id);
  }

  /** Delivering an event twice in a row changes nothing. */
  lemma RedeliveryIsHarmless(es: seq<StepEvent>, e: StepEvent)
    ensures Replay(es + [e, e]) == Replay(es + [e])
  {
    hide TrimSpace, Ids, RecordOf;
    var once, twice := es + [e], es + [e, e];
    assert twice == once + [e];
    NextIds(es, e);
    NextIds(once, e);
    assert Ids(twice) == Ids(once);
    forall id ensures RecordOf(twice, id) == RecordOf(once, id) {
      NextRecord(es, e);
      NextRecord(once, e);
    }
  }

  // ---------------------------------------------------------------------------------------------
  // The logger

  /** The events whose append and sync both succeeded. */
  function Accepted(es: seq<StepEvent>, synced: seq<bool>): (r: seq<StepEvent>)
    requires |es| == |synced|
    ensures forall e :: e in r ==> e in es
  {
    if es == [] then [] else
      var n := |es| - 1;
      var rest := Accepted(es[..n], synced[..n]);
      assert forall e | e in rest :: e in es[..n];
      if synced[n] then rest + [es[n]] else rest
  }

  lemma AcceptedStep(es: seq<StepEvent>, synced: seq<bool>, e: StepEvent, ok: bool)
    requires |es| == |synced|
    ensures Accepted(es + [e], synced + [ok]) == Accepted(es, synced) + if ok then [e] else []
  {
    assert (es + [e])[..|es|] == es && (synced + [ok])[..|es|] == synced;
  }

  /** Every step of the record comes from a line of the journal file. */
  lemma RecordedStepWasLogged(es: seq<StepEvent>, synced: seq<bool>, id: string)
    requires |es| == |synced|
    requires id in Ids(Accepted(es, synced))
    ensures NamedIn(es, id)
  {
    hide About, Ids;
    var kept := Accepted(es, synced);
    IdsAreTheNamedSteps(kept);
    var i :| 0 <= i < |kept| && About(kept[i], id);
    assert kept[i] in es;
  }

  /** applyRunLogger: the journal file, the record in memory and the record file. */
  class ApplyRunLogger {
    /** The lines of events.jsonl. */
    var journal: seq<StepEvent>
    /** For each line, whether its sync succeeded. */
    ghost var synced: seq<bool>
    var stepOrder: seq<string>
    var steps: map<string, StepRecord>
    /** record.Steps */
    var recordSteps: seq<StepRecord>
    /** The steps of record.json, unless the last attempt to write it failed. */
    var saved: Option<seq<StepRecord>>

    /** The events the record has to account for. */
    ghost function Events(): seq<StepEvent>
      requires |journal| == |synced|
      reads this
    {
      Accepted(journal, synced)
    }

    /** The record is the replay of the accepted events. */
    ghost predicate Valid()
      reads this
    {
      && |journal| == |synced|
      && stepOrder == Ids(Events())
      && (forall id :: id in steps <==> id in stepOrder)
      && (forall id :: id in stepOrder ==> steps[id] == RecordOf(Events(), id))
      && recordSteps == Replay(Events())
      && (saved.Some? ==> saved.value == recordSteps)
    }

    /** newApplyRunLogger, once the first flush has succeeded. */
    constructor ()
      ensures Valid()
      ensures journal == [] && recordSteps == [] && saved == Some([])
    {
      journal, synced, stepOrder, steps := [], [], [], map[];
      recordSteps, saved := [], Some([]);
    }

    /** flushRecord */
    method FlushRecord(flushOk: bool) returns (ok: bool)
      modifies this`saved
      ensures ok == flushOk
      ensures saved == if flushOk then Some(recordSteps) else None
    {
      saved := if flushOk then Some(recordSteps) else None;
      return flushOk;
    }

    /** writeEvent: append, sync, update, flush, each step only when the one before succeeded. */
    method WriteEvent(e: StepEvent, writeOk: bool, syncOk: bool, flushOk: bool) returns (ok: bool)
      requires Valid()
      modifies this
      ensures Valid()
      ensures ok == (writeOk && syncOk && flushOk)
      ensures journal == old(journal) + if writeOk then [e] else []
      ensures Events() == old(Events()) + if writeOk && syncOk then [e] else []
      ensures old(stepOrder) <= stepOrder
      ensures |recordSteps| == |stepOrder|
      ensures forall k | 0 <= k < |stepOrder| ::
                recordSteps[k].stepId == stepOrder[k] && Tells(Events(), recordSteps[k])
      ensures saved == if !(writeOk && syncOk) then old(saved) else if flushOk then Some(recordSteps) else None
    {
      hide Replay, RecordOf, Ids, Accepted, Tells;
      ReplayTells(Events());
      if !writeOk {
        return false;
      }
      AcceptedStep(journal, synced, e, syncOk);
      journal, synced := journal + [e], synced + [syncOk];
      if !syncOk {
        assert Events() == old(Events());
        return false;
      }
      UpdateStep(e, old(Events()));
      ReplayTells(Events());
      ok := FlushRecord(flushOk);
    }

    /** updateStep; before is what the record accounted for when e arrived. */
    method UpdateStep(e: StepEvent, ghost before: seq<StepEvent>)
      requires stepOrder == Ids(before)
      requires forall id :: id in steps <==> id in stepOrder
      requires forall id :: id in stepOrder ==> steps[id] == RecordOf(before, id)
      requires recordSteps == Replay(before)
      modifies this`steps, this`stepOrder, this`recordSteps
      ensures stepOrder == Ids(before + [e]) && old(stepOrder) <= stepOrder
      ensures forall id :: id in steps <==> id in stepOrder
      ensures forall id :: id in stepOrder ==> steps[id] == RecordOf(before + [e], id)
      ensures recordSteps == Replay(before + [e])
    {
      hide TrimSpace, RecordOf, Ids, NamedIn, About, Updated;
      ghost var after := before + [e];
      var stepId := TrimSpace(e.stepId);
      NextIds(before, e);
      NextRecord(before, e);
      if stepId == "" {
        OthersKeep(before, e);
        return;
      }
      var step := StepRecord(stepId, "", "", "", "", 0, "", "", "");
      if stepId in steps {
        step := steps[stepId];
      } else {
        IdsAreTheNamedSteps(before);
        UnnamedIsBlank(before, stepId);
        stepOrder := stepOrder + [stepId];
      }
      step := Updated(step, e);
      steps := steps[stepId := step];
      RebuildRecord(after);
    }

    /** The loop at the end of updateStep. */
    method RebuildRecord(ghost after: seq<StepEvent>)
      requires stepOrder == Ids(after)
      requires forall id :: id in stepOrder ==> id in steps && steps[id] == RecordOf(after, id)
      modifies this`recordSteps
      ensures recordSteps == Replay(after)
    {
      hide RecordOf, Ids;
      recordSteps := [];
      for k := 0 to |stepOrder|
        modifies this`recordSteps
        invariant recordSteps == Replay(after)[..k]
      {
        assert stepOrder[k] in stepOrder;
        recordSteps := recordSteps + [steps[stepOrder[k]]];
      }
    }
  }

  /** The assignments of updateStep to the fields of a step. */
  function Updated(step: StepRecord, e: StepEvent): StepRecord {
    var kind := TrimSpace(e.text(Kind));
    var phase := TrimSpace(e.text(Phase));
    var status := TrimSpace(e.text(Status));
    var reason := TrimSpace(e.text(Reason));
    var startedAt := TrimSpace(e.text(StartedAt));
    var endedAt := TrimSpace(e.text(EndedAt));
    var error := TrimSpace(e.text(Error));
    step.(kind := if kind != "" then kind else step.kind,
          phase := if phase != "" then phase else step.phase,
          status := if status != "" then status else step.status,
          reason := if reason != "" then reason else step.reason,
          attempt := if e.attempt > 0 then e.attempt else step.attempt,
          startedAt := if startedAt != "" then startedAt else step.startedAt,
          endedAt := if endedAt != "" then endedAt else step.endedAt,
          error := if error != "" then error else step.error)
  }

  lemma NextIds(es: seq<StepEvent>, e: StepEvent)
    ensures var id := TrimSpace(e.stepId);
            Ids(es + [e]) == if id == "" || id in Ids(es) then Ids(es) else Ids(es) + [id]
  {
    hide TrimSpace;
    assert (es + [e])[..|es|] == es;
  }

  /** updateStep makes of the record of a step its record in the longer journal, and the records of
      the others stay. */
  lemma NextRecord(es: seq<StepEvent>, e: StepEvent)
    ensures var id := TrimSpace(e.stepId); RecordOf(es + [e], id) == Updated(RecordOf(es, id), e)
    ensures forall id | id != TrimSpace(e.stepId) :: RecordOf(es + [e], id) == RecordOf(es, id)
  {
    hide TrimSpace;
    assert (es + [e])[..|es|] == es;
  }

  lemma OthersKeep(es: seq<StepEvent>, e: StepEvent)
    requires TrimSpace(e.stepId) == ""
    ensures Ids(es + [e]) == Ids(es) && Replay(es + [e]) == Replay(es)
    ensures forall id | id in Ids(es) :: RecordOf(es + [e], id) == RecordOf(es, id)
  {
    hide TrimSpace, RecordOf, Ids;
    NextIds(es, e);
    NextRecord(es, e);
    IdsAreTheNamedSteps(es);
    assert forall k | 0 <= k < |Ids(es)| :: Ids(es)[k] in Ids(es);
  }

  lemma {:induction false} UnnamedIsBlank(es: seq<StepEvent>, id: string)
    requires !NamedIn(es, id)
    ensures RecordOf(es, id) == StepRecord(id, "", "", "", "", 0, "", "", "")
  {
    hide About;
    if es != [] {
      NamedStep(es, id);
      UnnamedIsBlank(es[..|es| - 1], id);
    }
  }
}
