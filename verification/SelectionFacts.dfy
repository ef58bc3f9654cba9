/** Why a step is listed and why it is selected, told by scores, confidence and the capabilities asked for. */
module SelectionFacts {
  import opened Text
  import opened Sorting
  import opened StepGuidance

  /** The list has the best score first, and equal scores by kind. */
  lemma BestFirst(r: seq<Candidate>, i: nat, j: nat)
    requires Ranked(r) && i < j < |r|
    ensures r[i].score > r[j].score || (r[i].score == r[j].score && !Less(r[j].step.kind, r[i].step.kind))
  {
    hide Less;
    assert !Before(r[j], r[i]);
  }

  /** A step is listed exactly when its score is positive. */
  lemma {:induction false} ListedIff(
    steps: seq<Step>, lexical: Lexical, caps: set<string>, mode: string, topology: string, c: Candidate)
    ensures c in Candidates(steps, lexical, caps, mode, topology) <==>
              c.score > 0 && exists step | step in steps :: c == CandidateFor(step, lexical, caps, mode, topology)
  {
    hide CandidateFor;
    if steps != [] {
      var init, last := steps[..|steps| - 1], steps[|steps| - 1];
      ListedIff(init, lexical, caps, mode, topology, c);
      assert forall step :: step in steps <==> step in init || step == last;
    }
  }

  // ---------------------------------------------------------------------------------------------
  // Why a step is selected

  /** It is the best for a capability that is asked for and that no step of high confidence supports. */
  ghost predicate BestForOpen(scored: seq<Candidate>, order: seq<string>, i: nat)
    requires i < |scored|
  {
    exists c | c in order ::
      Supports(scored[i].step, c) && (forall k | 0 <= k < i :: !Supports(scored[k].step, c))
      && forall d | d in scored && d.confidence == High :: !Supports(d.step, c)
  }

  function Grade(c: Confidence): nat {
    match c case High => 0 case Medium => 1 case Low => 2
  }

  /** Whatever has a better confidence, or the same and a better rank, is selected. */
  ghost predicate NothingBetterLeft(scored: seq<Candidate>, out: seq<Candidate>, i: nat)
    requires i < |scored|
  {
    forall k | 0 <= k < |scored| && Ahead(scored, k, i) :: scored[k] in out
  }

  predicate Ahead(scored: seq<Candidate>, k: nat, i: nat)
    requires k < |scored| && i < |scored|
  {
    Grade(scored[k].confidence) < Grade(scored[i].confidence)
    || (scored[k].confidence == scored[i].confidence && k < i)
  }

  /** What filling up with the first n candidates adds: those of the confidence, by rank, while there is room. */
  lemma {:induction false} FillAdds(out: seq<Candidate>, scored: seq<Candidate>, confidence: Confidence, n: nat)
    requires n <= |scored| && DistinctKinds(scored) && forall c | c in out :: c in scored
    ensures var later := FillUp(out, scored[..n], confidence);
            (forall c | c in later :: c in scored) && (forall c | c in out :: c in later) &&
            (later != out ==> |out| < |later| <= 5) &&
            (|later| < 5 ==> forall k | 0 <= k < n && scored[k].confidence == confidence :: scored[k] in later) &&
            forall i | 0 <= i < |scored| && scored[i] in later && scored[i] !in out ::
              scored[i].confidence == confidence && later != out && Earlier(scored, later, i)
  {
    hide DistinctKinds, Append, HasKind;
    if n > 0 {
      var before, later, c := FillUp(out, scored[..n - 1], confidence), FillUp(out, scored[..n], confidence),
                              scored[n - 1];
      FillAdds(out, scored, confidence, n - 1);
      assert scored[..n][..n - 1] == scored[..n - 1];
      if |before| < 5 && c.confidence == confidence {
        AppendIs(before, scored, n - 1);
        forall i | 0 <= i < |scored| && scored[i] in later && scored[i] !in out
          ensures scored[i].confidence == confidence && later != out && Earlier(scored, later, i)
        {
          if scored[i] !in before { SamePlace(scored, i, n - 1); }
        }
      }
    }
  }

  ghost predicate Earlier(scored: seq<Candidate>, out: seq<Candidate>, i: nat)
    requires i < |scored|
  {
    forall k | 0 <= k < i && scored[k].confidence == scored[i].confidence :: scored[k] in out
  }

  lemma SamePlace(scored: seq<Candidate>, i: nat, j: nat)
    requires DistinctKinds(scored) && i < |scored| && j < |scored| && scored[i] == scored[j]
    ensures i == j
  {
  }

  lemma AppendIs(out: seq<Candidate>, scored: seq<Candidate>, j: nat)
    requires DistinctKinds(scored) && j < |scored| && forall c | c in out :: c in scored
    ensures Append(out, scored[j]) == if scored[j] in out then out else out + [scored[j]]
  {
    if HasKind(out, scored[j].step.kind) { KindNamesCandidate(out, scored, scored[j]); }
  }

  /** What is added for the capabilities is the best supporter of an open one. */
  lemma {:induction false} EnsureAdds(out: seq<Candidate>, scored: seq<Candidate>, order: seq<string>, i: nat)
    requires DistinctKinds(scored) && i < |scored| && forall c | c in out :: c in scored
    requires forall c | c in scored && c.confidence == High :: c in out
    ensures scored[i] in EnsureAll(out, scored, order) ==> scored[i] in out || BestForOpen(scored, order, i)
  {
    hide DistinctKinds, Supports, HasKind, Append;
    if order != [] {
      var init, last := order[..|order| - 1], order[|order| - 1];
      var before := EnsureAll(out, scored, init);
      EnsureAdds(out, scored, init, i);
      EnsureAllFacts(out, scored, init);
      assert last in order && forall c | c in init :: c in order;
      var f := FirstSupporter(scored, last);
      FirstSupporterIsFirst(scored, last);
      if !Covered(before, last) && f < |scored| {
        AppendIs(before, scored, f);
        assert forall d | d in scored && d.confidence == High :: d in before;
        if scored[i] == scored[f] { SamePlace(scored, i, f); }
      }
    }
  }

  /** Every step is selected for a reason: high confidence, being the best for an open capability, or room in a
      list of at most five, with nothing better left out. */
  lemma SelectedForAReason(scored: seq<Candidate>, order: seq<string>, i: nat)
    requires DistinctKinds(scored) && i < |scored| && scored[i] in Select(scored, order)
    ensures var out := Select(scored, order);
            scored[i].confidence == High || BestForOpen(scored, order, i)
            || (|out| <= 5 && NothingBetterLeft(scored, out, i))
  {
    hide DistinctKinds, TakeAll, EnsureAll, FillUp, BestForOpen, Supports, HasKind, Covered, CountOf;
    var high := TakeAll([], scored, High);
    var ensured := EnsureAll(high, scored, order);
    var medium := FillUp(ensured, scored, Medium);
    var out := FillUp(medium, scored, Low);
    assert scored[..|scored|] == scored;
    HighsAreTaken(scored);
    EnsureAllFacts(high, scored, order);
    FillAdds(ensured, scored, Medium, |scored|);
    FillAdds(medium, scored, Low, |scored|);
    if scored[i] in high {
    } else if scored[i] in ensured {
      EnsureAdds(high, scored, order, i);
    } else {
      forall k | 0 <= k < |scored| && Ahead(scored, k, i) ensures scored[k] in out {
        if scored[k].confidence == High { assert scored[k] in high && scored[k] in ensured; }
      }
    }
  }

  /** The candidates of high confidence, by rank. */
  function Highs(scored: seq<Candidate>): seq<Candidate> {
    if scored == [] then []
    else Highs(scored[..|scored| - 1]) + if scored[|scored| - 1].confidence == High then [scored[|scored| - 1]] else []
  }

  lemma {:induction false} TakenAre(scored: seq<Candidate>, n: nat)
    requires n <= |scored| && DistinctKinds(scored)
    ensures TakeAll([], scored[..n], High) == Highs(scored[..n])
    ensures forall c :: c in Highs(scored[..n]) <==> c in scored[..n] && c.confidence == High
  {
    hide DistinctKinds, Append, HasKind;
    if n > 0 {
      TakenAre(scored, n - 1);
      assert scored[..n][..n - 1] == scored[..n - 1];
      assert forall c :: c in scored[..n] <==> c in scored[..n - 1] || c == scored[n - 1];
      AppendIs(Highs(scored[..n - 1]), scored, n - 1);
      if scored[n - 1] in scored[..n - 1] {
        var k :| 0 <= k < n - 1 && scored[..n - 1][k] == scored[n - 1];
        SamePlace(scored, k, n - 1);
      }
    }
  }

  lemma HighsAreTaken(scored: seq<Candidate>)
    requires DistinctKinds(scored)
    ensures TakeAll([], scored, High) == Highs(scored)
    ensures forall c :: c in Highs(scored) <==> c in scored && c.confidence == High
  {
    hide DistinctKinds, TakeAll, Highs;
    assert scored[..|scored|] == scored;
    TakenAre(scored, |scored|);
  }

  /** The selection begins with the steps of high confidence, by rank. */
  lemma HighsComeFirst(scored: seq<Candidate>, order: seq<string>)
    requires DistinctKinds(scored)
    ensures Highs(scored) <= Select(scored, order)
  {
    hide DistinctKinds, TakeAll, EnsureAll, FillUp, Highs, Covered, HasKind;
    var high := Highs(scored);
    HighsAreTaken(scored);
    EnsureAllFacts(high, scored, order);
    FillUpFacts(EnsureAll(high, scored, order), scored, Medium);
    FillUpFacts(FillUp(EnsureAll(high, scored, order), scored, Medium), scored, Low);
  }
}
