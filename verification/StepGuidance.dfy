/** Scoring and selecting candidate steps for required capabilities: internal/askcontext/stepguidance.go.
    Capabilities are the keys of a map, so every loop over them runs in an arbitrary order. */
module StepGuidance {
  import opened Text
  import opened Sorting

  /** StepKindContext, as far as scoring looks at it */
  datatype Step = Step(kind: string, capabilities: seq<string>, allowedRoles: seq<string>)

  datatype Confidence = High | Medium | Low

  /** candidateScore */
  datatype Candidate = Candidate(step: Step, score: int, confidence: Confidence, why: seq<string>)

  const CANDIDATE_LIMIT: nat := 5

  /** confidenceForScore */
  function ConfidenceFor(score: int): Confidence {
    if score >= 70 then High else if score >= 35 then Medium else Low
  }

  /** containsGuidanceString */
  predicate ContainsGuidance(values: seq<string>, want: string) {
    exists v | v in values :: TrimSpace(v) == TrimSpace(want)
  }

  /** stepSupportsCapability */
  predicate Supports(step: Step, capability: string) {
    TrimSpace(capability) != "" && ContainsGuidance(step.capabilities, TrimSpace(capability))
  }

  // ---------------------------------------------------------------------------------------------
  // Scoring

  /** The points a supported capability is worth. */
  function Points(capability: string): int {
    if capability == "package-staging" || capability == "image-staging" then 35
    else if capability == "repository-setup" || capability == "cluster-verification" then 30
    else if capability == "kubeadm-join" then 40
    else if capability == "kubeadm-bootstrap" then 28
    else 24
  }

  function Reason(capability: string): string {
    "supports " + capability + " capability"
  }

  /** The sum over a set of capabilities, taken in ascending order. */
  ghost function CapabilityPoints(step: Step, caps: set<string>): int {
    if caps == {} then 0 else
      var c := Least(caps);
      CapabilityPoints(step, caps - {c}) + if Supports(step, c) then Points(c) else 0
  }

  /** The sum does not depend on which capability is taken first. */
  lemma {:induction false} TakeAny(step: Step, caps: set<string>, c: string)
    requires c in caps
    ensures CapabilityPoints(step, caps)
         == CapabilityPoints(step, caps - {c}) + if Supports(step, c) then Points(c) else 0
    decreases caps
  {
    hide Supports, Points;
    var m := Least(caps);
    if c != m {
      TakeAny(step, caps - {m}, c);
      TakeAny(step, caps - {c}, m);
      assert caps - {m} - {c} == caps - {c} - {m};
    }
  }

  /** The non-blank reasons, trimmed: what dedupeStrings keeps. */
  function Tidied(values: seq<string>): set<string> {
    set v | v in values && TrimSpace(v) != "" :: TrimSpace(v)
  }

  function SupportReasons(step: Step, caps: set<string>): set<string> {
    set c | c in caps && Supports(step, c) :: TrimSpace(Reason(c))
  }

  lemma ReasonIsTrimmed(c: string)
    ensures TrimSpace(Reason(c)) == Reason(c)
  {
    TrimFixed(Reason(c), IsSpace);
  }

  lemma TidiedStep(values: seq<string>, v: string)
    ensures Tidied(values + [v]) == Tidied(values) + if TrimSpace(v) == "" then {} else {TrimSpace(v)}
  {
    hide TrimSpace;
    var more := values + [v];
    forall x ensures x in Tidied(more) <==> x in Tidied(values) || (x == TrimSpace(v) && x != "") {
      if x in Tidied(more) {
        var w :| w in more && TrimSpace(w) != "" && x == TrimSpace(w);
        assert w in values || w == v;
      }
      assert v in more && forall w | w in values :: w in more;
    }
  }

  /** How the stage of a prepare+apply request changes the score of a step. */
  function StagePoints(step: Step, caps: set<string>, modeIntent: string): int {
    if "prepare-artifacts" in caps && modeIntent == "prepare+apply" then
      (if FitsPrepare(step) then 20 else 0) - (if step.kind == "Command" then 25 else 0)
    else 0
  }

  predicate FitsPrepare(step: Step) {
    Supports(step, "prepare-artifacts") || Supports(step, "package-staging") || Supports(step, "image-staging")
  }

  function StageReasons(step: Step, caps: set<string>, modeIntent: string): set<string> {
    if "prepare-artifacts" in caps && modeIntent == "prepare+apply" && FitsPrepare(step)
    then {FITS_PREPARE} else {}
  }

  predicate ManyNodes(topology: string) {
    topology == "multi-node" || topology == "ha"
  }

  function TopologyPoints(step: Step, topology: string): int {
    if !ManyNodes(topology) then 0
    else if Supports(step, "kubeadm-join") then 35
    else if Supports(step, "cluster-verification") then 18
    else 0
  }

  function TopologyReasons(step: Step, topology: string): set<string> {
    if !ManyNodes(topology) then {}
    else if Supports(step, "kubeadm-join") then {NEEDS_JOIN}
    else if Supports(step, "cluster-verification") then {WANTS_VERIFICATION}
    else {}
  }

  const FITS_PREPARE := "fits prepare stage in prepare+apply workflow"
  const NEEDS_JOIN := "topology requires node join flow"
  const WANTS_VERIFICATION := "topology benefits from cluster verification"

  lemma FixedReasons()
    ensures TrimSpace(FITS_PREPARE) == FITS_PREPARE != ""
    ensures TrimSpace(NEEDS_JOIN) == NEEDS_JOIN != ""
    ensures TrimSpace(WANTS_VERIFICATION) == WANTS_VERIFICATION != ""
  {
    hide Trim, TrimLeft, TrimRight;
    TrimFixed(FITS_PREPARE, IsSpace);
    TrimFixed(NEEDS_JOIN, IsSpace);
    TrimFixed(WANTS_VERIFICATION, IsSpace);
  }

  /** applyCapabilityScore: whatever order the capabilities come in, the score is the same, and so is
      the set of reasons once they are tidied. */
  method ApplyCapabilityScore(
    score0: int, why0: seq<string>, step: Step, caps: set<string>, modeIntent: string, topology: string)
    returns (score: int, why: seq<string>)
    ensures score == score0 + CapabilityPoints(step, caps) + StagePoints(step, caps, modeIntent)
                     + TopologyPoints(step, topology)
    ensures Tidied(why) == Tidied(why0) + SupportReasons(step, caps) + StageReasons(step, caps, modeIntent)
                           + TopologyReasons(step, topology)
  {
    hide Tidied, Supports, Points, Reason, TrimSpace, CapabilityPoints;
    score, why := score0, why0;
    var todo := caps;
    while todo != {}
      invariant todo <= caps
      invariant score + CapabilityPoints(step, todo) == score0 + CapabilityPoints(step, caps)
      invariant Tidied(why) == Tidied(why0) + SupportReasons(step, caps - todo)
      decreases todo
    {
      var c :| c in todo;
      TakeAny(step, todo, c);
      SupportReasonsStep(step, caps - todo, c);
      assert caps - (todo - {c}) == caps - todo + {c};
      if Supports(step, c) {
        TidiedStep(why, Reason(c));
        ReasonIsTrimmed(c);
        ReasonIsNotBlank(c);
        score, why := score + Points(c), why + [Reason(c)];
      }
      todo := todo - {c};
    }
    NoPoints(step);
    assert caps - todo == caps;
    FixedReasons();
    if "prepare-artifacts" in caps && modeIntent == "prepare+apply" {
      if FitsPrepare(step) {
        TidiedStep(why, FITS_PREPARE);
        score, why := score + 20, why + [FITS_PREPARE];
      }
      if step.kind == "Command" {
        score := score - 25;
      }
    }
    if ManyNodes(topology) {
      if Supports(step, "kubeadm-join") {
        TidiedStep(why, NEEDS_JOIN);
        score, why := score + 35, why + [NEEDS_JOIN];
      } else if Supports(step, "cluster-verification") {
        TidiedStep(why, WANTS_VERIFICATION);
        score, why := score + 18, why + [WANTS_VERIFICATION];
      }
    }
  }

  lemma NoPoints(step: Step)
    ensures CapabilityPoints(step, {}) == 0
  {
  }

  lemma ReasonIsNotBlank(c: string)
    ensures Reason(c) != ""
  {
  }

  lemma SupportReasonsStep(step: Step, caps: set<string>, c: string)
    ensures SupportReasons(step, caps + {c})
         == SupportReasons(step, caps) + if Supports(step, c) then {TrimSpace(Reason(c))} else {}
  {
    hide Supports, Reason, TrimSpace;
  }

  // ---------------------------------------------------------------------------------------------
  // The scored list

  /** What the prompt alone says about a step: points and reasons. */
  type Lexical = Step -> (int, seq<string>)

  predicate Staging(caps: set<string>) {
    "prepare-artifacts" in caps || "package-staging" in caps || "image-staging" in caps
  }

  /** The untyped Command step and steps outside the prepare role lose points. */
  function Penalty(step: Step, caps: set<string>, modeIntent: string): int {
    (if step.kind == "Command" then 15 else 0)
    + (if Staging(caps) && step.kind == "Command" then 60 else 0)
    + (if modeIntent == "prepare+apply" && !ContainsGuidance(step.allowedRoles, "prepare") && Staging(caps)
       then 45 else 0)
  }

  const DEPRIORITIZED := "deprioritized for typed artifact staging flow"

  function BaseReasons(step: Step, lexical: Lexical, caps: set<string>): seq<string> {
    lexical(step).1 + if Staging(caps) && step.kind == "Command" then [DEPRIORITIZED] else []
  }

  /** The candidate a step becomes; it is listed when its score is positive. */
  ghost function CandidateFor(
    step: Step, lexical: Lexical, caps: set<string>, modeIntent: string, topology: string): Candidate
  {
    var score := lexical(step).0 - Penalty(step, caps, modeIntent) + CapabilityPoints(step, caps)
                 + StagePoints(step, caps, modeIntent) + TopologyPoints(step, topology);
    var why := Tidied(BaseReasons(step, lexical, caps)) + SupportReasons(step, caps)
               + StageReasons(step, caps, modeIntent) + TopologyReasons(step, topology);
    Candidate(step, score, ConfidenceFor(score), Sorted(why))
  }

  ghost function Candidates(
    steps: seq<Step>, lexical: Lexical, caps: set<string>, modeIntent: string, topology: string): seq<Candidate>
  {
    if steps == [] then [] else
      var rest := Candidates(steps[..|steps| - 1], lexical, caps, modeIntent, topology);
      var c := CandidateFor(steps[|steps| - 1], lexical, caps, modeIntent, topology);
      if c.score > 0 then rest + [c] else rest
  }

  /** The comparison handed to sort.Slice */
  predicate Before(a: Candidate, b: Candidate) {
    a.score > b.score || (a.score == b.score && Less(a.step.kind, b.step.kind))
  }

  ghost predicate Ranked(r: seq<Candidate>) {
    forall i, j | 0 <= i < j < |r| :: !Before(r[j], r[i])
  }

  ghost predicate DistinctKinds(cs: seq<Candidate>) {
    forall i, j | 0 <= i < j < |cs| :: cs[i].step.kind != cs[j].step.kind
  }

  lemma BeforeTransitive(a: Candidate, b: Candidate, c: Candidate)
    requires Before(a, b) && Before(b, c)
    ensures Before(a, c)
  {
    if Less(a.step.kind, b.step.kind) && Less(b.step.kind, c.step.kind) {
      LessTransitive(a.step.kind, b.step.kind, c.step.kind);
    }
  }

  function InsertCandidate(r: seq<Candidate>, x: Candidate): (t: seq<Candidate>)
    ensures multiset(t) == multiset(r) + multiset{x}
  {
    if r == [] then [x]
    else if Before(x, r[0]) then [x] + r
    else
      assert r == [r[0]] + r[1..];
      [r[0]] + InsertCandidate(r[1..], x)
  }

  lemma {:induction false} InsertKeepsRank(r: seq<Candidate>, x: Candidate)
    requires Ranked(r)
    ensures Ranked(InsertCandidate(r, x))
  {
    hide Before;
    if r != [] {
      if Before(x, r[0]) {
        forall j | 0 <= j < |r| ensures !Before(r[j], x) {
          if Before(r[j], x) {
            BeforeTransitive(r[j], x, r[0]);
            BeforeIrreflexive(r[0]);
          }
        }
      } else {
        InsertKeepsRank(r[1..], x);
        var rest := InsertCandidate(r[1..], x);
        forall j | 0 <= j < |rest| ensures !Before(rest[j], r[0]) {
          assert rest[j] in multiset(rest);
          assert rest[j] in r[1..] || rest[j] == x;
        }
      }
    }
  }

  lemma BeforeIrreflexive(a: Candidate)
    ensures !Before(a, a)
  {
    LessTotal(a.step.kind, a.step.kind);
  }

  lemma TailMultiset(r: seq<Candidate>)
    requires r != []
    ensures multiset(r[1..]) == multiset(r) - multiset{r[0]}
  {
    assert r == [r[0]] + r[1..];
  }

  lemma HeadsAgree(r: seq<Candidate>, t: seq<Candidate>)
    requires Ranked(r) && Ranked(t) && DistinctKinds(r)
    requires r != [] && t != [] && r[0] in t && t[0] in r
    ensures r[0] == t[0]
  {
    hide Less;
    var j :| 0 <= j < |t| && t[j] == r[0];
    var i :| 0 <= i < |r| && r[i] == t[0];
    LessTotal(r[0].step.kind, t[0].step.kind);
    assert i > 0 ==> !Before(r[i], r[0]);
    assert j > 0 ==> !Before(t[j], t[0]);
  }

  /** Among steps of distinct kinds the comparison leaves no ties: whatever the sort does, the ranking
      is the same. */
  lemma {:induction false} RankingIsUnique(r: seq<Candidate>, t: seq<Candidate>)
    requires Ranked(r) && Ranked(t) && multiset(r) == multiset(t) && DistinctKinds(r)
    ensures r == t
  {
    hide Less, Before;
    if r != [] {
      assert r[0] in multiset(t) && |t| == |multiset(t)| == |multiset(r)|;
      assert t[0] in multiset(r);
      HeadsAgree(r, t);
      TailMultiset(r);
      TailMultiset(t);
      RankingIsUnique(r[1..], t[1..]);
    } else {
      assert |multiset(t)| == 0;
    }
  }

  lemma NothingRanked()
    ensures Ranked([])
  {
  }

  /** The body of the loop over the step kinds. */
  method ScoreStep(step: Step, lexical: Lexical, caps: set<string>, modeIntent: string, topology: string)
    returns (c: Candidate)
    ensures c == CandidateFor(step, lexical, caps, modeIntent, topology)
  {
    hide Tidied, Supports, CapabilityPoints, Penalty, StagePoints, TopologyPoints, Sorted,
         SupportReasons, StageReasons, TopologyReasons, BaseReasons, ConfidenceFor;
    var score := lexical(step).0 - Penalty(step, caps, modeIntent);
    var why := BaseReasons(step, lexical, caps);
    score, why := ApplyCapabilityScore(score, why, step, caps, modeIntent, topology);
    var reasons := SortStrings(Tidied(why));
    c := Candidate(step, score, ConfidenceFor(score), reasons);
  }

  /** The scored list of DiscoverCandidateStepsWithOptions, before anything is selected from it. */
  method ScoreSteps(steps: seq<Step>, lexical: Lexical, caps: set<string>, modeIntent: string, topology: string)
    returns (scored: seq<Candidate>)
    ensures Ranked(scored)
    ensures multiset(scored) == multiset(Candidates(steps, lexical, caps, modeIntent, topology))
  {
    hide Before, InsertCandidate, CandidateFor, Ranked;
    scored := [];
    NothingRanked();
    for i := 0 to |steps|
      invariant Ranked(scored)
      invariant multiset(scored) == multiset(Candidates(steps[..i], lexical, caps, modeIntent, topology))
    {
      var candidate := ScoreStep(steps[i], lexical, caps, modeIntent, topology);
      assert steps[..i + 1][..i] == steps[..i];
      if candidate.score > 0 {
        InsertKeepsRank(scored, candidate);
        scored := InsertCandidate(scored, candidate);
      }
    }
    assert steps[..|steps|] == steps;
  }

  // ---------------------------------------------------------------------------------------------
  // Selection

  predicate HasKind(out: seq<Candidate>, kind: string) {
    exists c | c in out :: c.step.kind == kind
  }

  predicate Covered(out: seq<Candidate>, capability: string) {
    exists c | c in out :: Supports(c.step, capability)
  }

  /** appendCandidate */
  function Append(out: seq<Candidate>, c: Candidate): seq<Candidate> {
    if HasKind(out, c.step.kind) then out else out + [c]
  }

  /** Append every candidate of that confidence. */
  function TakeAll(out: seq<Candidate>, scored: seq<Candidate>, confidence: Confidence): seq<Candidate> {
    if scored == [] then out else
      var before, c := TakeAll(out, scored[..|scored| - 1], confidence), scored[|scored| - 1];
      if c.confidence == confidence then Append(before, c) else before
  }

  /** Append candidates of that confidence while there is room. */
  function FillUp(out: seq<Candidate>, scored: seq<Candidate>, confidence: Confidence): seq<Candidate> {
    if scored == [] then out else
      var before, c := FillUp(out, scored[..|scored| - 1], confidence), scored[|scored| - 1];
      if |before| < CANDIDATE_LIMIT && c.confidence == confidence then Append(before, c) else before
  }

  function FirstSupporter(scored: seq<Candidate>, capability: string): (i: nat)
    ensures i <= |scored|
  {
    if scored == [] || Supports(scored[0].step, capability) then 0 else 1 + FirstSupporter(scored[1..], capability)
  }

  lemma {:induction false} FirstSupporterIsFirst(scored: seq<Candidate>, capability: string)
    ensures var i := FirstSupporter(scored, capability);
            && (forall k | 0 <= k < i :: !Supports(scored[k].step, capability))
            && (i < |scored| ==> Supports(scored[i].step, capability))
  {
    hide Supports;
    if scored != [] && !Supports(scored[0].step, capability) {
      FirstSupporterIsFirst(scored[1..], capability);
      assert forall k | 1 <= k < |scored| :: scored[k] == scored[1..][k - 1];
    }
  }

  /** ensureCapabilityCandidate */
  function Ensure(out: seq<Candidate>, scored: seq<Candidate>, capability: string): seq<Candidate> {
    var i := FirstSupporter(scored, capability);
    if Covered(out, capability) || i == |scored| then out else Append(out, scored[i])
  }

  function EnsureAll(out: seq<Candidate>, scored: seq<Candidate>, order: seq<string>): seq<Candidate> {
    if order == [] then out
    else Ensure(EnsureAll(out, scored, order[..|order| - 1]), scored, order[|order| - 1])
  }

  /** What is selected when the capabilities come in that order. */
  function Select(scored: seq<Candidate>, order: seq<string>): seq<Candidate> {
    var high := TakeAll([], scored, High);
    var ensured := EnsureAll(high, scored, order);
    FillUp(FillUp(ensured, scored, Medium), scored, Low)
  }

  /** Enumerates the keys of the map once each. */
  ghost predicate Enumerates(order: seq<string>, caps: set<string>) {
    (forall c :: c in order <==> c in caps) && |order| == |caps|
  }

  /** Progress from out to later: no kind twice, nothing dropped, nothing made up. */
  ghost predicate Grows(out: seq<Candidate>, later: seq<Candidate>, scored: seq<Candidate>) {
    && out <= later
    && (DistinctKinds(out) ==> DistinctKinds(later))
    && (forall c | c in later :: c in out || c in scored)
  }

  lemma AppendGrows(out: seq<Candidate>, c: Candidate, scored: seq<Candidate>)
    requires c in scored
    ensures Grows(out, Append(out, c), scored) && |out| <= |Append(out, c)| <= |out| + 1
    ensures HasKind(Append(out, c), c.step.kind)
  {
    var later := Append(out, c);
    if later != out {
      assert later[|out|] == c;
      assert forall k | 0 <= k < |out| :: out[k] in out;
    }
  }

  lemma GrowsTransitive(a: seq<Candidate>, b: seq<Candidate>, c: seq<Candidate>, scored: seq<Candidate>)
    requires Grows(a, b, scored) && Grows(b, c, scored)
    ensures Grows(a, c, scored)
  {
  }

  /** In a list of distinct kinds, having the kind of a candidate is having the candidate. */
  lemma KindNamesCandidate(out: seq<Candidate>, scored: seq<Candidate>, c: Candidate)
    requires DistinctKinds(scored) && c in scored && (forall x | x in out :: x in scored)
    requires HasKind(out, c.step.kind)
    ensures c in out
  {
    var x :| x in out && x.step.kind == c.step.kind;
    var i :| 0 <= i < |scored| && scored[i] == x;
    var j :| 0 <= j < |scored| && scored[j] == c;
  }

  /** The number of candidates of that confidence. */
  function CountOf(scored: seq<Candidate>, confidence: Confidence): nat {
    if scored == [] then 0 else
      CountOf(scored[..|scored| - 1], confidence)
      + if scored[|scored| - 1].confidence == confidence then 1 else 0
  }

  lemma {:induction false} TakeAllFacts(out: seq<Candidate>, scored: seq<Candidate>, confidence: Confidence)
    ensures var later := TakeAll(out, scored, confidence);
            && Grows(out, later, scored)
            && |later| <= |out| + CountOf(scored, confidence)
            && forall c | c in scored && c.confidence == confidence :: HasKind(later, c.step.kind)
  {
    hide Grows, HasKind, Append;
    if scored == [] {
      GrowsRefl(out, scored);
    } else {
      var init, last := scored[..|scored| - 1], scored[|scored| - 1];
      var before, later := TakeAll(out, init, confidence), TakeAll(out, scored, confidence);
      TakeAllFacts(out, init, confidence);
      GrowsMore(out, before, init, scored);
      AppendGrows(before, last, scored);
      GrowsRefl(before, scored);
      GrowsTransitive(out, before, later, scored);
      forall c | c in scored && c.confidence == confidence ensures HasKind(later, c.step.kind) {
        if c != last {
          assert c in init;
          KindsStay(before, later, scored, c.step.kind);
        }
      }
    }
  }

  lemma GrowsRefl(out: seq<Candidate>, scored: seq<Candidate>)
    ensures Grows(out, out, scored)
  {
  }

  lemma GrowsMore(out: seq<Candidate>, later: seq<Candidate>, part: seq<Candidate>, scored: seq<Candidate>)
    requires Grows(out, later, part) && forall c | c in part :: c in scored
    ensures Grows(out, later, scored)
  {
  }

  lemma KindsStay(out: seq<Candidate>, later: seq<Candidate>, scored: seq<Candidate>, kind: string)
    requires Grows(out, later, scored) && HasKind(out, kind)
    ensures HasKind(later, kind)
  {
    var c :| c in out && c.step.kind == kind;
    assert c in later;
  }

  lemma CoverageStays(out: seq<Candidate>, later: seq<Candidate>, scored: seq<Candidate>, capability: string)
    requires Grows(out, later, scored) && Covered(out, capability)
    ensures Covered(later, capability)
  {
    hide Supports;
    var c :| c in out && Supports(c.step, capability);
    assert c in later;
  }

  /** One capability: at most one candidate is added, and it is covered if any scored step supports it. */
  lemma EnsureFacts(out: seq<Candidate>, scored: seq<Candidate>, capability: string)
    ensures var later := Ensure(out, scored, capability);
            && Grows(out, later, scored) && |later| <= |out| + 1
            && (DistinctKinds(scored) && (forall c | c in out :: c in scored) && Covered(scored, capability)
                ==> Covered(later, capability))
  {
    hide Supports, Append;
    var i := FirstSupporter(scored, capability);
    FirstSupporterIsFirst(scored, capability);
    GrowsRefl(out, scored);
    if !Covered(out, capability) && i < |scored| {
      AppendGrows(out, scored[i], scored);
      var later := Append(out, scored[i]);
      if DistinctKinds(scored) && forall c | c in out :: c in scored {
        KindNamesCandidate(later, scored, scored[i]);
      }
    }
  }

  lemma {:induction false} EnsureAllFacts(out: seq<Candidate>, scored: seq<Candidate>, order: seq<string>)
    requires DistinctKinds(scored) && forall c | c in out :: c in scored
    ensures var later := EnsureAll(out, scored, order);
            && Grows(out, later, scored) && |later| <= |out| + |order|
            && forall c | c in order && Covered(scored, c) :: Covered(later, c)
  {
    hide Covered, Ensure, DistinctKinds;
    if order == [] {
      GrowsRefl(out, scored);
    } else {
      var init, last := order[..|order| - 1], order[|order| - 1];
      var before, later := EnsureAll(out, scored, init), EnsureAll(out, scored, order);
      EnsureAllFacts(out, scored, init);
      EnsureFacts(before, scored, last);
      GrowsTransitive(out, before, later, scored);
      forall c | c in order && Covered(scored, c) ensures Covered(later, c) {
        if c != last {
          assert c in init;
          CoverageStays(before, later, scored, c);
        }
      }
    }
  }

  lemma {:induction false} FillUpFacts(out: seq<Candidate>, scored: seq<Candidate>, confidence: Confidence)
    ensures var later := FillUp(out, scored, confidence);
            && Grows(out, later, scored)
            && (|later| <= CANDIDATE_LIMIT || later == out)
            && (|later| >= CANDIDATE_LIMIT
                || forall c | c in scored && c.confidence == confidence :: HasKind(later, c.step.kind))
  {
    hide Grows, HasKind, Append;
    if scored == [] {
      GrowsRefl(out, scored);
    } else {
      var init, last := scored[..|scored| - 1], scored[|scored| - 1];
      var before, later := FillUp(out, init, confidence), FillUp(out, scored, confidence);
      FillUpFacts(out, init, confidence);
      GrowsMore(out, before, init, scored);
      AppendGrows(before, last, scored);
      GrowsRefl(before, scored);
      GrowsTransitive(out, before, later, scored);
      forall c | |later| < CANDIDATE_LIMIT && c in scored && c.confidence == confidence
        ensures HasKind(later, c.step.kind)
      {
        if c != last {
          assert c in init;
          KindsStay(before, later, scored, c.step.kind);
        }
      }
    }
  }

  /** What a selection promises for the required capabilities. */
  ghost predicate GoodSelection(out: seq<Candidate>, scored: seq<Candidate>, order: seq<string>) {
    && DistinctKinds(out)
    && (forall c | c in out :: c in scored)
    && (forall c | c in scored && c.confidence == High :: c in out)
    && (forall capability | capability in order && Covered(scored, capability) :: Covered(out, capability))
    && (|out| <= CANDIDATE_LIMIT || |out| <= CountOf(scored, High) + |order|)
    && (|out| < CANDIDATE_LIMIT ==> forall c | c in scored :: c in out)
  }

  /** In whatever order the capabilities come: no step twice, every high-confidence step, a supporter
      for every required capability that any scored step supports, no more steps than needed, and no
      step left out while there is room. */
  lemma SelectionIsGood(scored: seq<Candidate>, order: seq<string>)
    requires DistinctKinds(scored)
    ensures GoodSelection(Select(scored, order), scored, order)
  {
    hide DistinctKinds, HasKind, Covered, TakeAll, EnsureAll, FillUp, CountOf;
    var high := TakeAll([], scored, High);
    var ensured := EnsureAll(high, scored, order);
    var medium := FillUp(ensured, scored, Medium);
    var out := FillUp(medium, scored, Low);
    NoKinds();
    TakeAllFacts([], scored, High);
    EnsureAllFacts(high, scored, order);
    FillUpFacts(ensured, scored, Medium);
    FillUpFacts(medium, scored, Low);
    GrowsTransitive(ensured, medium, out, scored);
    GrowsTransitive(high, ensured, out, scored);
    forall c | c in scored && (c.confidence == High || |out| < CANDIDATE_LIMIT) ensures c in out {
      if c.confidence == High {
        KindsStay(high, out, scored, c.step.kind);
      } else if c.confidence == Medium {
        KindsStay(medium, out, scored, c.step.kind);
      }
      KindNamesCandidate(out, scored, c);
    }
    forall capability | capability in order && Covered(scored, capability) ensures Covered(out, capability) {
      CoverageStays(ensured, out, scored, capability);
    }
  }

  lemma NoKinds()
    ensures DistinctKinds([])
  {
  }

  /** selectCandidateSteps, with the capabilities in the order the map yields them. */
  method SelectCandidateSteps(scored: seq<Candidate>, caps: set<string>)
    returns (out: seq<Candidate>, order: seq<string>)
    ensures Enumerates(order, caps) && out == Select(scored, order)
    ensures DistinctKinds(scored) ==> GoodSelection(out, scored, order)
  {
    hide DistinctKinds, HasKind, TakeAll, EnsureAll, FillUp, Ensure, GoodSelection;
    NothingChosen(scored);
    out := [];
    for i := 0 to |scored|
      invariant out == TakeAll([], scored[..i], High)
    {
      TakeAllNext([], scored, i, High);
      if scored[i].confidence == High {
        out := Append(out, scored[i]);
      }
    }
    assert scored[..|scored|] == scored;
    ghost var high := out;
    order := [];
    var todo := caps;
    while todo != {}
      invariant todo <= caps && |order| == |caps| - |todo|
      invariant forall c :: c in order <==> c in caps - todo
      invariant out == EnsureAll(high, scored, order)
      decreases todo
    {
      var capability :| capability in todo;
      out := EnsureCapabilityCandidate(out, scored, capability);
      EnsureAllNext(high, scored, order, capability);
      order, todo := order + [capability], todo - {capability};
    }
    ghost var ensured := out;
    for i := 0 to |scored|
      invariant out == FillUp(ensured, scored[..i], Medium)
    {
      FillUpNext(ensured, scored, i, Medium);
      if |out| >= CANDIDATE_LIMIT {
        FillUpFull(ensured, scored, i, Medium);
        break;
      }
      if scored[i].confidence == Medium {
        out := Append(out, scored[i]);
      }
    }
    assert scored[..|scored|] == scored;
    ghost var medium := FillUp(ensured, scored, Medium);
    assert out == medium;
    for i := 0 to |scored|
      invariant out == FillUp(medium, scored[..i], Low)
    {
      FillUpNext(medium, scored, i, Low);
      if |out| >= CANDIDATE_LIMIT {
        FillUpFull(medium, scored, i, Low);
        break;
      }
      if scored[i].confidence == Low {
        out := Append(out, scored[i]);
      }
    }
    assert scored[..|scored|] == scored;
    if DistinctKinds(scored) {
      SelectionIsGood(scored, order);
    }
  }

  /** The two loops of ensureCapabilityCandidate. */
  method EnsureCapabilityCandidate(out: seq<Candidate>, scored: seq<Candidate>, capability: string)
    returns (later: seq<Candidate>)
    ensures later == Ensure(out, scored, capability)
  {
    hide Supports;
    for i := 0 to |out|
      invariant forall k | 0 <= k < i :: !Supports(out[k].step, capability)
    {
      if Supports(out[i].step, capability) {
        assert out[i] in out;
        return out;
      }
    }
    assert !Covered(out, capability);
    FirstSupporterIsFirst(scored, capability);
    for i := 0 to |scored|
      invariant forall k | 0 <= k < i :: !Supports(scored[k].step, capability)
    {
      if Supports(scored[i].step, capability) {
        assert i == FirstSupporter(scored, capability);
        return Append(out, scored[i]);
      }
    }
    later := out;
  }

  lemma NothingChosen(scored: seq<Candidate>)
    ensures TakeAll([], scored[..0], High) == []
    ensures forall out :: EnsureAll(out, scored, []) == out
    ensures forall out, confidence :: FillUp(out, scored[..0], confidence) == out
  {
  }

  lemma TakeAllNext(out: seq<Candidate>, scored: seq<Candidate>, i: nat, confidence: Confidence)
    requires i < |scored|
    ensures var before := TakeAll(out, scored[..i], confidence);
            TakeAll(out, scored[..i + 1], confidence)
            == if scored[i].confidence == confidence then Append(before, scored[i]) else before
  {
    hide Append;
    assert scored[..i + 1][..i] == scored[..i];
  }

  lemma EnsureAllNext(out: seq<Candidate>, scored: seq<Candidate>, order: seq<string>, capability: string)
    ensures EnsureAll(out, scored, order + [capability]) == Ensure(EnsureAll(out, scored, order), scored, capability)
  {
    hide Ensure;
    assert (order + [capability])[..|order|] == order;
  }

  lemma FillUpNext(out: seq<Candidate>, scored: seq<Candidate>, i: nat, confidence: Confidence)
    requires i < |scored|
    ensures var before := FillUp(out, scored[..i], confidence);
            FillUp(out, scored[..i + 1], confidence)
            == if |before| < CANDIDATE_LIMIT && scored[i].confidence == confidence
               then Append(before, scored[i]) else before
  {
    hide Append;
    assert scored[..i + 1][..i] == scored[..i];
  }

  /** Once the limit is reached, the rest of the list changes nothing. */
  lemma {:induction false} FillUpFull(out: seq<Candidate>, scored: seq<Candidate>, i: nat, confidence: Confidence)
    requires i <= |scored| && |FillUp(out, scored[..i], confidence)| >= CANDIDATE_LIMIT
    ensures FillUp(out, scored, confidence) == FillUp(out, scored[..i], confidence)
  {
    hide Append;
    if i < |scored| {
      var n := |scored| - 1;
      assert scored[..n][..i] == scored[..i];
      FillUpFull(out, scored[..n], i, confidence);
    } else {
      assert scored[..i] == scored;
    }
  }

  /** What is selected, and even how much, does depend on the order of the map: when the first
      supporter of b also supports a but not the other way round, asking for a first adds two steps and
      asking for b first adds one. */
  lemma SelectionDependsOnOrder(scored: seq<Candidate>, x: Candidate, y: Candidate, a: string, b: string)
    requires |TakeAll([], scored, High)| >= CANDIDATE_LIMIT
    requires !Covered(TakeAll([], scored, High), a) && !Covered(TakeAll([], scored, High), b)
    requires DistinctKinds(scored)
    requires FirstSupporter(scored, a) < |scored| && x == scored[FirstSupporter(scored, a)]
    requires FirstSupporter(scored, b) < |scored| && y == scored[FirstSupporter(scored, b)]
    requires Supports(y.step, a) && !Supports(x.step, b)
    ensures var high := |TakeAll([], scored, High)|;
            |Select(scored, [a, b])| == high + 2 && |Select(scored, [b, a])| == high + 1
  {
    hide Supports, DistinctKinds, TakeAll, FirstSupporter, FillUp, EnsureAll, Append;
    var high := TakeAll([], scored, High);
    NoKinds();
    NothingChosen(scored);
    TakeAllFacts([], scored, High);
    FirstSupporterIsFirst(scored, a);
    FirstSupporterIsFirst(scored, b);
    AddsSupporter(high, scored, x, a);
    AddsSupporter(high, scored, y, b);
    EnsureAllNext(high, scored, [], a);
    EnsureAllNext(high, scored, [a], b);
    EnsureAllNext(high, scored, [], b);
    EnsureAllNext(high, scored, [b], a);
    assert [a] + [b] == [a, b] && [b] + [a] == [b, a] && [] + [a] == [a] && [] + [b] == [b];
    var viaA, viaB := high + [x], high + [y];
    CoveredByOneMore(high, x, b);
    CoveredByOneMore(high, y, a);
    AddsSupporter(viaA, scored, y, b);
    FullIsFinal(viaA + [y], scored);
    FullIsFinal(viaB, scored);
  }

  lemma CoveredByOneMore(out: seq<Candidate>, x: Candidate, capability: string)
    ensures Covered(out + [x], capability) <==> Covered(out, capability) || Supports(x.step, capability)
  {
    hide Supports;
    assert forall c :: c in out + [x] <==> c in out || c == x;
  }

  lemma AddsSupporter(out: seq<Candidate>, scored: seq<Candidate>, x: Candidate, capability: string)
    requires DistinctKinds(scored) && forall c | c in out :: c in scored
    requires !Covered(out, capability)
    requires FirstSupporter(scored, capability) < |scored| && x == scored[FirstSupporter(scored, capability)]
    ensures Ensure(out, scored, capability) == out + [x]
  {
    hide Supports, DistinctKinds, FirstSupporter;
    FirstSupporterIsFirst(scored, capability);
    if HasKind(out, x.step.kind) {
      KindNamesCandidate(out, scored, x);
    }
  }

  lemma FullIsFinal(out: seq<Candidate>, scored: seq<Candidate>)
    requires |out| >= CANDIDATE_LIMIT
    ensures FillUp(FillUp(out, scored, Medium), scored, Low) == out
  {
    hide FillUp;
    NothingChosen(scored);
    FillUpFull(out, scored, 0, Medium);
    FillUpFull(out, scored, 0, Low);
  }

  /** Coverage needs the kinds to be distinct, as the step catalogue makes them: of two scored steps of
      one kind, the first can shut out the second together with the capability only it supports. */
  lemma RepeatedKindLosesCapability(x: Candidate, y: Candidate, a: string)
    requires x.step.kind == y.step.kind && x.confidence == High
    requires !Supports(x.step, a) && Supports(y.step, a)
    ensures Covered([x, y], a) && !Covered(Select([x, y], [a]), a)
  {
    hide Supports, TakeAll, FillUp, EnsureAll, Append, FirstSupporter, HasKind;
    var scored := [x, y];
    assert scored[1] in scored;
    HighOfTwo(x, y);
    NothingChosen(scored);
    EnsureAllNext([x], scored, [], a);
    assert [] + [a] == [a];
    ShutOut(x, x);
    ShutOut(x, y);
    assert Ensure([x], scored, a) == [x];
    OneKind(x, y, Medium);
    OneKind(x, y, Low);
  }

  lemma ShutOut(x: Candidate, c: Candidate)
    requires x.step.kind == c.step.kind
    ensures Append([x], c) == [x]
  {
    assert x in [x];
  }

  lemma HighOfTwo(x: Candidate, y: Candidate)
    requires x.step.kind == y.step.kind && x.confidence == High
    ensures TakeAll([], [x, y], High) == [x]
  {
    hide TakeAll;
    var scored := [x, y];
    NothingChosen(scored);
    TakeAllNext([], scored, 0, High);
    TakeAllNext([], scored, 1, High);
    ShutOut(x, y);
    assert scored[..2] == scored;
  }

  lemma OneKind(x: Candidate, y: Candidate, confidence: Confidence)
    requires x.step.kind == y.step.kind
    ensures FillUp([x], [x, y], confidence) == [x]
  {
    hide FillUp, Append;
    var scored := [x, y];
    NothingChosen(scored);
    FillUpNext([x], scored, 0, confidence);
    FillUpNext([x], scored, 1, confidence);
    ShutOut(x, x);
    ShutOut(x, y);
    assert scored[..2] == scored;
  }

  // ---------------------------------------------------------------------------------------------
  // From the steps of the catalogue to the selection

  ghost predicate DistinctSteps(steps: seq<Step>) {
    forall i, j | 0 <= i < j < |steps| :: steps[i].kind != steps[j].kind
  }

  /** Candidates of steps of distinct kinds have distinct kinds. */
  lemma {:induction false} CandidatesAreDistinct(
    steps: seq<Step>, lexical: Lexical, caps: set<string>, modeIntent: string, topology: string)
    requires DistinctSteps(steps)
    ensures DistinctKinds(Candidates(steps, lexical, caps, modeIntent, topology))
    ensures forall c | c in Candidates(steps, lexical, caps, modeIntent, topology) :: c.step in steps
  {
    hide CandidateFor;
    if steps != [] {
      var n := |steps| - 1;
      CandidateKeepsStep(steps[n], lexical, caps, modeIntent, topology);
      CandidatesAreDistinct(steps[..n], lexical, caps, modeIntent, topology);
      var rest := Candidates(steps[..n], lexical, caps, modeIntent, topology);
      forall i | 0 <= i < |rest| ensures rest[i].step.kind != steps[n].kind {
        assert rest[i] in rest;
        var k :| 0 <= k < n && steps[..n][k] == rest[i].step;
      }
      assert forall x | x in steps[..n] :: x in steps;
    }
  }

  lemma CandidateKeepsStep(
    step: Step, lexical: Lexical, caps: set<string>, modeIntent: string, topology: string)
    ensures CandidateFor(step, lexical, caps, modeIntent, topology).step == step
  {
    hide CapabilityPoints, Tidied, Sorted, SupportReasons, Penalty, StagePoints, TopologyPoints, StageReasons,
         TopologyReasons, BaseReasons, ConfidenceFor;
  }

  lemma DistinctReordered(r: seq<Candidate>, t: seq<Candidate>)
    requires multiset(r) == multiset(t) && DistinctKinds(t)
    ensures DistinctKinds(r)
  {
    forall i, j | 0 <= i < j < |r| ensures r[i].step.kind != r[j].step.kind {
      TwoPositions(r, t, i, j);
    }
  }

  lemma TwoPositions(r: seq<Candidate>, t: seq<Candidate>, i: nat, j: nat)
    requires multiset(r) == multiset(t) && DistinctKinds(t) && i < j < |r|
    ensures r[i].step.kind != r[j].step.kind
  {
    assert r[i] in multiset(t) && r[j] in multiset(t);
    var k :| 0 <= k < |t| && t[k] == r[i];
    var l :| 0 <= l < |t| && t[l] == r[j];
    if r[i] == r[j] {
      assert r == r[..i] + [r[i]] + r[i + 1..j] + [r[j]] + r[j + 1..];
      assert multiset(r)[r[i]] >= 2;
      OnceInDistinct(t, k);
    }
  }

  lemma OnceInDistinct(t: seq<Candidate>, k: nat)
    requires DistinctKinds(t) && k < |t|
    ensures multiset(t)[t[k]] == 1
  {
    assert t == t[..k] + [t[k]] + t[k + 1..];
    assert t[k] !in t[..k] && t[k] !in t[k + 1..];
  }

  /** The list is the only ranking of the candidates. */
  ghost predicate IsTheRanking(scored: seq<Candidate>, candidates: seq<Candidate>) {
    && Ranked(scored) && multiset(scored) == multiset(candidates)
    && forall r | Ranked(r) && multiset(r) == multiset(candidates) :: r == scored
  }

  /** DiscoverCandidateStepsWithOptions: for a catalogue of distinct kinds the scored list is the one ranking,
      whatever the maps and the sort do, and the selection from it is good. */
  method DiscoverCandidateSteps(
    steps: seq<Step>, lexical: Lexical, caps: set<string>, modeIntent: string, topology: string)
    returns (scored: seq<Candidate>, selected: seq<Candidate>, order: seq<string>)
    ensures Enumerates(order, caps) && selected == Select(scored, order)
    ensures DistinctSteps(steps) ==>
              IsTheRanking(scored, Candidates(steps, lexical, caps, modeIntent, topology))
              && GoodSelection(selected, scored, order)
  {
    hide DistinctKinds, DistinctSteps, Candidates, Ranked, Select, GoodSelection;
    scored := ScoreSteps(steps, lexical, caps, modeIntent, topology);
    selected, order := SelectCandidateSteps(scored, caps);
    if DistinctSteps(steps) {
      var candidates := Candidates(steps, lexical, caps, modeIntent, topology);
      CandidatesAreDistinct(steps, lexical, caps, modeIntent, topology);
      DistinctReordered(scored, candidates);
      forall r | Ranked(r) && multiset(r) == multiset(candidates) ensures r == scored {
        RankingIsUnique(scored, r);
      }
    }
  }

  // ---------------------------------------------------------------------------------------------
  // When the order of the capabilities shows

  /** The capability is left to the second pass: no high-confidence step supports it, but some step does. */
  predicate Open(scored: seq<Candidate>, capability: string) {
    !Covered(TakeAll([], scored, High), capability) && FirstSupporter(scored, capability) < |scored|
  }

  /** What the second pass adds for an open capability. */
  function SupporterOf(scored: seq<Candidate>, capability: string): Candidate
    requires FirstSupporter(scored, capability) < |scored|
  {
    scored[FirstSupporter(scored, capability)]
  }

  /** The first supporter of some open capability. */
  ghost predicate IsSupporter(scored: seq<Candidate>, caps: set<string>, x: Candidate) {
    exists c :: c in caps && Open(scored, c) && SupporterOf(scored, c) == x
  }

  /** The capability is open for y, and no other first supporter supports it. */
  ghost predicate OnlyFor(scored: seq<Candidate>, caps: set<string>, y: Candidate, e: string) {
    && e in caps && Open(scored, e) && SupporterOf(scored, e) == y
    && forall x | IsSupporter(scored, caps, x) && x != y :: !Supports(x.step, e)
  }

  /** Each first supporter has a capability that no other one supports. */
  ghost predicate AllNeeded(scored: seq<Candidate>, caps: set<string>) {
    forall y | IsSupporter(scored, caps, y) :: exists e :: OnlyFor(scored, caps, y, e)
  }

  ghost predicate SameElements(a: seq<Candidate>, b: seq<Candidate>) {
    forall c :: c in a <==> c in b
  }

  /** The second pass adds first supporters of open capabilities only. */
  lemma {:induction false} OnlySupportersAdded(scored: seq<Candidate>, order: seq<string>, x: Candidate)
    requires DistinctKinds(scored) && x in EnsureAll(TakeAll([], scored, High), scored, order)
    ensures x in TakeAll([], scored, High) || exists c :: c in order && Open(scored, c) && SupporterOf(scored, c) == x
  {
    hide DistinctKinds, TakeAll, FirstSupporter, Supports, Covered;
    var high := TakeAll([], scored, High);
    if order != [] {
      var n := |order| - 1;
      var before, c := EnsureAll(high, scored, order[..n]), order[n];
      NoKinds();
      TakeAllFacts([], scored, High);
      EnsureAllFacts(high, scored, order[..n]);
      assert order == order[..n] + [c];
      if x in before {
        OnlySupportersAdded(scored, order[..n], x);
      } else {
        if Covered(high, c) {
          CoverageStays(high, before, scored, c);
        }
        assert c in order && Open(scored, c);
        assert SupporterOf(scored, c) == x;
      }
    }
  }

  lemma {:induction false} EnsureAllJoin(out: seq<Candidate>, scored: seq<Candidate>, a: seq<string>, b: seq<string>)
    ensures EnsureAll(out, scored, a + b) == EnsureAll(EnsureAll(out, scored, a), scored, b)
  {
    hide Ensure;
    if b == [] {
      assert a + b == a;
    } else {
      EnsureAllJoin(out, scored, a, b[..|b| - 1]);
      assert (a + b)[..|a + b| - 1] == a + b[..|b| - 1];
    }
  }

  /** A first supporter with a capability of its own is added in every order. */
  lemma NeededIsAdded(scored: seq<Candidate>, order: seq<string>, caps: set<string>, y: Candidate, e: string)
    requires DistinctKinds(scored) && OnlyFor(scored, caps, y, e) && e in order && forall c | c in order :: c in caps
    ensures y in EnsureAll(TakeAll([], scored, High), scored, order)
  {
    hide DistinctKinds, TakeAll, FirstSupporter, Supports, EnsureAll;
    var high := TakeAll([], scored, High);
    var k :| 0 <= k < |order| && order[k] == e;
    var pre, post := order[..k], order[k + 1..];
    assert order == pre + [e] + post;
    var before := EnsureAll(high, scored, pre);
    NoKinds();
    TakeAllFacts([], scored, High);
    EnsureAllFacts(high, scored, pre);
    EnsureAllJoin(high, scored, pre + [e], post);
    EnsureAllNext(high, scored, pre, e);
    var later := Ensure(before, scored, e);
    if y !in before {
      forall x | x in before ensures !Supports(x.step, e) {
        OnlySupportersAdded(scored, pre, x);
      }
      AddsSupporter(before, scored, y, e);
    } else {
      EnsureFacts(before, scored, e);
    }
    EnsureFacts(before, scored, e);
    assert y in later;
    EnsureAllFacts(later, scored, post);
  }

  /** If each first supporter is needed, the second pass adds them all in every order. */
  lemma AddedInAnyOrder(scored: seq<Candidate>, order: seq<string>, caps: set<string>, x: Candidate)
    requires DistinctKinds(scored) && AllNeeded(scored, caps) && Enumerates(order, caps)
    ensures x in EnsureAll(TakeAll([], scored, High), scored, order)
       <==> x in TakeAll([], scored, High) || IsSupporter(scored, caps, x)
  {
    hide DistinctKinds, TakeAll, EnsureAll, Open;
    var high := TakeAll([], scored, High);
    NoKinds();
    TakeAllFacts([], scored, High);
    EnsureAllFacts(high, scored, order);
    if x in EnsureAll(high, scored, order) {
      OnlySupportersAdded(scored, order, x);
    }
    if IsSupporter(scored, caps, x) {
      var e :| OnlyFor(scored, caps, x, e);
      NeededIsAdded(scored, order, caps, x, e);
    }
  }

  lemma SameLength(a: seq<Candidate>, b: seq<Candidate>)
    requires SameElements(a, b) && DistinctKinds(a) && DistinctKinds(b)
    ensures |a| == |b|
  {
    DistinctCount(a);
    DistinctCount(b);
    assert (set c | c in a) == (set c | c in b);
  }

  lemma {:induction false} DistinctCount(a: seq<Candidate>)
    requires DistinctKinds(a)
    ensures |set c | c in a| == |a|
  {
    if a != [] {
      var n := |a| - 1;
      DistinctCount(a[..n]);
      assert a[n] !in a[..n];
      assert (set c | c in a) == (set c | c in a[..n]) + {a[n]} by {
        assert a == a[..n] + [a[n]];
      }
    }
  }

  lemma SameKinds(a: seq<Candidate>, b: seq<Candidate>, kind: string)
    requires SameElements(a, b)
    ensures HasKind(a, kind) <==> HasKind(b, kind)
  {
  }

  lemma AppendAlike(a: seq<Candidate>, b: seq<Candidate>, c: Candidate)
    requires SameElements(a, b)
    ensures SameElements(Append(a, c), Append(b, c))
  {
    SameKinds(a, b, c.step.kind);
  }

  /** Filling up two selections of the same candidates leaves two selections of the same candidates. */
  lemma {:induction false} FillAlike(
    a: seq<Candidate>, b: seq<Candidate>, scored: seq<Candidate>, confidence: Confidence)
    requires SameElements(a, b) && DistinctKinds(a) && DistinctKinds(b)
    ensures SameElements(FillUp(a, scored, confidence), FillUp(b, scored, confidence))
    ensures DistinctKinds(FillUp(a, scored, confidence)) && DistinctKinds(FillUp(b, scored, confidence))
  {
    hide SameElements, DistinctKinds, Append;
    FillUpFacts(a, scored, confidence);
    FillUpFacts(b, scored, confidence);
    if scored != [] {
      var init, last := scored[..|scored| - 1], scored[|scored| - 1];
      FillAlike(a, b, init, confidence);
      SameLength(FillUp(a, init, confidence), FillUp(b, init, confidence));
      AppendAlike(FillUp(a, init, confidence), FillUp(b, init, confidence), last);
    }
  }

  /** The same candidates are selected in every order of the capabilities. */
  ghost predicate OrderNeverShows(scored: seq<Candidate>, caps: set<string>) {
    forall a, b | Enumerates(a, caps) && Enumerates(b, caps) :: SameElements(Select(scored, a), Select(scored, b))
  }

  /** If each first supporter has an open capability of its own, the order of the capabilities never shows. */
  lemma SameSelectionInAnyOrder(scored: seq<Candidate>, caps: set<string>)
    requires DistinctKinds(scored) && AllNeeded(scored, caps)
    ensures OrderNeverShows(scored, caps)
  {
    hide DistinctKinds, TakeAll, EnsureAll, FillUp, AllNeeded, IsSupporter;
    var high := TakeAll([], scored, High);
    forall a, b | Enumerates(a, caps) && Enumerates(b, caps)
      ensures SameElements(Select(scored, a), Select(scored, b))
    {
      var x, y := EnsureAll(high, scored, a), EnsureAll(high, scored, b);
      forall c ensures c in x <==> c in y {
        AddedInAnyOrder(scored, a, caps, c);
        AddedInAnyOrder(scored, b, caps, c);
      }
      NoKinds();
      TakeAllFacts([], scored, High);
      EnsureAllFacts(high, scored, a);
      EnsureAllFacts(high, scored, b);
      FillAlike(x, y, scored, Medium);
      FillAlike(FillUp(x, scored, Medium), FillUp(y, scored, Medium), scored, Low);
    }
  }

  /** In particular when no first supporter of an open capability supports another one that has a different
      first supporter. */
  lemma UnentangledAreNeeded(scored: seq<Candidate>, caps: set<string>)
    requires forall c, d | c in caps && d in caps && Open(scored, c) && Open(scored, d)
                           && Supports(SupporterOf(scored, c).step, d) ::
               SupporterOf(scored, c) == SupporterOf(scored, d)
    ensures AllNeeded(scored, caps)
  {
    hide Supports, FirstSupporter, Covered;
    forall y | IsSupporter(scored, caps, y) ensures exists e :: OnlyFor(scored, caps, y, e) {
      var e :| e in caps && Open(scored, e) && SupporterOf(scored, e) == y;
      assert OnlyFor(scored, caps, y, e);
    }
  }

  lemma {:induction false} Enumeration(caps: set<string>) returns (order: seq<string>)
    ensures Enumerates(order, caps)
  {
    order := Sorted(caps);
  }

  /** A list whose high-confidence steps leave no room is not filled up. */
  lemma FullSelection(scored: seq<Candidate>, order: seq<string>)
    requires |TakeAll([], scored, High)| >= CANDIDATE_LIMIT && DistinctKinds(scored)
    ensures Select(scored, order) == EnsureAll(TakeAll([], scored, High), scored, order)
  {
    hide DistinctKinds, TakeAll, EnsureAll, FillUp;
    var high := TakeAll([], scored, High);
    NoKinds();
    TakeAllFacts([], scored, High);
    EnsureAllFacts(high, scored, order);
    FullIsFinal(EnsureAll(high, scored, order), scored);
  }

  lemma {:induction false} CoveredAddsNothing(out: seq<Candidate>, scored: seq<Candidate>, order: seq<string>)
    requires forall c | c in order :: Covered(out, c)
    ensures EnsureAll(out, scored, order) == out
  {
    hide Covered, Append;
    if order != [] {
      CoveredAddsNothing(out, scored, order[..|order| - 1]);
      assert order[|order| - 1] in order;
    }
  }

  lemma {:induction false} AddsOnly(out: seq<Candidate>, scored: seq<Candidate>, order: seq<string>, y: Candidate)
    requires forall c | c in order :: FirstSupporter(scored, c) < |scored| && SupporterOf(scored, c) == y
    ensures forall x | x in EnsureAll(out, scored, order) :: x in out || x == y
  {
    hide Covered, FirstSupporter, HasKind;
    if order != [] {
      AddsOnly(out, scored, order[..|order| - 1], y);
      assert order[|order| - 1] in order;
    }
  }

  /** Asked for first, a capability has its first supporter added. */
  lemma AskedFirst(scored: seq<Candidate>, caps: set<string>, c: string) returns (order: seq<string>)
    requires |TakeAll([], scored, High)| >= CANDIDATE_LIMIT && DistinctKinds(scored)
    requires c in caps && Open(scored, c)
    ensures Enumerates(order, caps) && SupporterOf(scored, c) in Select(scored, order)
  {
    hide DistinctKinds, TakeAll, EnsureAll, FirstSupporter, Select, Supports;
    var high := TakeAll([], scored, High);
    var rest := Enumeration(caps - {c});
    order := [c] + rest;
    NoKinds();
    NothingChosen(scored);
    TakeAllFacts([], scored, High);
    FullSelection(scored, order);
    EnsureAllJoin(high, scored, [c], rest);
    EnsureAllNext(high, scored, [], c);
    assert [] + [c] == [c];
    AddsSupporter(high, scored, SupporterOf(scored, c), c);
    EnsureFacts(high, scored, c);
    EnsureAllFacts(high + [SupporterOf(scored, c)], scored, rest);
    assert SupporterOf(scored, c) in high + [SupporterOf(scored, c)];
  }

  /** An order in which y's capabilities come last. */
  lemma AskedLast(scored: seq<Candidate>, caps: set<string>, y: Candidate)
    returns (first: seq<string>, last: seq<string>)
    ensures Enumerates(first + last, caps)
    ensures forall c :: c in last <==> c in caps && Open(scored, c) && SupporterOf(scored, c) == y
    ensures forall c | c in first :: c in caps && c !in last
  {
    hide Open, FirstSupporter;
    var mine := set c | c in caps && Open(scored, c) && SupporterOfOpen(scored, c, y);
    first := Enumeration(caps - mine);
    last := Enumeration(mine);
    assert forall c :: c in first + last <==> c in first || c in last;
    assert caps == (caps - mine) + mine;
  }

  predicate SupporterOfOpen(scored: seq<Candidate>, c: string, y: Candidate)
    requires Open(scored, c)
  {
    SupporterOf(scored, c) == y
  }

  lemma OpenSupporterIsNotHigh(scored: seq<Candidate>, c: string)
    requires Open(scored, c)
    ensures SupporterOf(scored, c) !in TakeAll([], scored, High)
  {
    hide TakeAll, Supports, FirstSupporter;
    FirstSupporterIsFirst(scored, c);
  }

  /** Asked for last, a first supporter without an open capability of its own is left out, unless another one
      has been. */
  lemma UnneededIsLeftOut(scored: seq<Candidate>, caps: set<string>, y: Candidate)
    returns (order: seq<string>, x: Candidate)
    requires |TakeAll([], scored, High)| >= CANDIDATE_LIMIT && DistinctKinds(scored)
    requires IsSupporter(scored, caps, y) && forall e :: !OnlyFor(scored, caps, y, e)
    ensures Enumerates(order, caps) && IsSupporter(scored, caps, x) && x !in Select(scored, order)
  {
    hide DistinctKinds, TakeAll, EnsureAll, FirstSupporter, Select, Supports;
    var high := TakeAll([], scored, High);
    var first, last := AskedLast(scored, caps, y);
    order := first + last;
    var mid := EnsureAll(high, scored, first);
    FullSelection(scored, order);
    EnsureAllJoin(high, scored, first, last);
    AddsOnly(mid, scored, last, y);
    if z :| IsSupporter(scored, caps, z) && z != y && z !in mid {
      x := z;
    } else {
      x := y;
      forall e | e in last ensures Covered(mid, e) {
        assert !OnlyFor(scored, caps, y, e);
        var z :| IsSupporter(scored, caps, z) && z != y && Supports(z.step, e);
        assert z in mid;
      }
      CoveredAddsNothing(mid, scored, last);
      var e :| e in caps && Open(scored, e) && SupporterOf(scored, e) == y;
      OpenSupporterIsNotHigh(scored, e);
      if y in mid {
        OnlySupportersAdded(scored, first, y);
      }
    }
  }

  /** For a list whose high-confidence steps leave no room that condition is exact: the order of the
      capabilities never shows if and only if each first supporter has an open capability of its own. */
  lemma OrderNeverShowsIff(scored: seq<Candidate>, caps: set<string>)
    requires |TakeAll([], scored, High)| >= CANDIDATE_LIMIT && DistinctKinds(scored)
    ensures OrderNeverShows(scored, caps) <==> AllNeeded(scored, caps)
  {
    hide DistinctKinds, TakeAll, Select, OnlyFor, Covered, FirstSupporter;
    if AllNeeded(scored, caps) {
      SameSelectionInAnyOrder(scored, caps);
    } else {
      var y :| IsSupporter(scored, caps, y) && forall e :: !OnlyFor(scored, caps, y, e);
      var without, x := UnneededIsLeftOut(scored, caps, y);
      var c :| c in caps && Open(scored, c) && SupporterOf(scored, c) == x;
      var asked := AskedFirst(scored, caps, c);
      assert !SameElements(Select(scored, asked), Select(scored, without));
    }
  }

  // ---------------------------------------------------------------------------------------------
  // Steps for which it does show

  const VERIFY := "cluster-verification"
  const BOOTSTRAP := "kubeadm-bootstrap"

  /** Entries of the step catalogue with their capabilities: five that have nothing to do with clusters, and all
      that support bootstrapping or verifying one. */
  const ORDERED_STEPS: seq<Step> := [
    Step("EditJSON", [], APPLY), Step("EditTOML", [], APPLY), Step("EditYAML", [], APPLY), Step("Swap", [], APPLY),
    Step("Sysctl", [], APPLY),
    Step("InstallPackage", ["package-staging", "apply-artifact-consumer", BOOTSTRAP], APPLY),
    Step("CheckKubernetesCluster", [VERIFY, BOOTSTRAP], APPLY),
    Step("CheckHost", [BOOTSTRAP, "host-preflight"], ["apply", "prepare"]),
    Step("InitKubeadm", [BOOTSTRAP], APPLY),
    Step("LoadImage", ["image-staging", "apply-artifact-consumer", BOOTSTRAP], APPLY),
    Step("UpgradeKubeadm", [BOOTSTRAP], APPLY)]

  const APPLY := ["apply"]

  /** The lexical scores of a request that names the first five and has some words of the sixth. */
  function NamesFive(step: Step): (int, seq<string>) {
    (if step.kind == "EditJSON" then 105 else if step.kind == "EditTOML" then 104
     else if step.kind == "EditYAML" then 103 else if step.kind == "Swap" then 102
     else if step.kind == "Sysctl" then 101
     else if step.kind == "InstallPackage" then 36 else 0, [])
  }

  ghost function Listed(step: Step): Candidate {
    CandidateFor(step, NamesFive, {VERIFY, BOOTSTRAP}, "", "")
  }

  ghost function ListedSteps(steps: seq<Step>): (r: seq<Candidate>)
    ensures |r| == |steps| && forall i | 0 <= i < |r| :: r[i] == Listed(steps[i])
  {
    seq(|steps|, i requires 0 <= i < |steps| => Listed(steps[i]))
  }

  lemma {:induction false} AllListed(steps: seq<Step>)
    requires forall step | step in steps :: Listed(step).score > 0
    ensures Candidates(steps, NamesFive, {VERIFY, BOOTSTRAP}, "", "") == ListedSteps(steps)
  {
    hide Listed, CandidateFor;
    if steps != [] {
      AllListed(steps[..|steps| - 1]);
      assert Listed(steps[|steps| - 1]) == CandidateFor(steps[|steps| - 1], NamesFive, {VERIFY, BOOTSTRAP}, "", "") by {
        ListedIs(steps[|steps| - 1]);
      }
    }
  }

  lemma ListedIs(step: Step)
    ensures Listed(step) == CandidateFor(step, NamesFive, {VERIFY, BOOTSTRAP}, "", "")
  {
    hide CandidateFor;
  }

  lemma CapabilityNames()
    ensures TrimSpace(VERIFY) == VERIFY && TrimSpace(BOOTSTRAP) == BOOTSTRAP
  {
    hide Trim;
    TrimFixed(VERIFY, IsSpace);
    TrimFixed(BOOTSTRAP, IsSpace);
  }

  lemma OtherNames(c: string)
    requires c in ["package-staging", "apply-artifact-consumer", "image-staging", "host-preflight"]
    ensures TrimSpace(c) == c
  {
    hide Trim;
    TrimFixed(c, IsSpace);
  }

  lemma AreTrimmed(step: Step)
    requires step in ORDERED_STEPS
    ensures forall c | c in step.capabilities :: TrimSpace(c) == c
  {
    hide TrimSpace;
    CapabilityNames();
    forall c | c in ["package-staging", "apply-artifact-consumer", "image-staging", "host-preflight"]
      ensures TrimSpace(c) == c
    {
      OtherNames(c);
    }
  }

  lemma WhoSupports(step: Step)
    requires forall c | c in step.capabilities :: TrimSpace(c) == c
    ensures Supports(step, VERIFY) <==> VERIFY in step.capabilities
    ensures Supports(step, BOOTSTRAP) <==> BOOTSTRAP in step.capabilities
  {
    hide TrimSpace;
    CapabilityNames();
  }

  lemma TwoCapabilities(step: Step)
    ensures CapabilityPoints(step, {VERIFY, BOOTSTRAP})
         == (if Supports(step, VERIFY) then 30 else 0) + (if Supports(step, BOOTSTRAP) then 28 else 0)
  {
    hide Supports, CapabilityPoints;
    TakeAny(step, {VERIFY, BOOTSTRAP}, VERIFY);
    TakeAny(step, {BOOTSTRAP}, BOOTSTRAP);
    NoPoints(step);
    assert {VERIFY, BOOTSTRAP} - {VERIFY} == {BOOTSTRAP} && {BOOTSTRAP} - {BOOTSTRAP} == {};
  }

  lemma NothingElseCounts(step: Step)
    requires step.kind != "Command"
    ensures Penalty(step, {VERIFY, BOOTSTRAP}, "") == 0 && StagePoints(step, {VERIFY, BOOTSTRAP}, "") == 0
    ensures TopologyPoints(step, "") == 0
  {
    hide Supports, TrimSpace, ContainsGuidance, Staging;
  }

  lemma ListedScore(step: Step)
    requires step in ORDERED_STEPS
    ensures Supports(step, VERIFY) <==> VERIFY in step.capabilities
    ensures Supports(step, BOOTSTRAP) <==> BOOTSTRAP in step.capabilities
    ensures Listed(step).step == step && Listed(step).confidence == ConfidenceFor(Listed(step).score)
    ensures Listed(step).score == NamesFive(step).0 + (if VERIFY in step.capabilities then 30 else 0)
                                  + (if BOOTSTRAP in step.capabilities then 28 else 0)
  {
    hide Supports, CapabilityPoints, TrimSpace, Tidied, Sorted, SupportReasons, StageReasons, TopologyReasons,
         BaseReasons, Penalty, StagePoints, TopologyPoints, ConfidenceFor, NamesFive;
    AreTrimmed(step);
    WhoSupports(step);
    TwoCapabilities(step);
    NothingElseCounts(step);
  }

  lemma OrderedAreDistinct()
    ensures DistinctSteps(ORDERED_STEPS) && |ORDERED_STEPS| == 11
  {
  }

  /** When exactly the first candidates are of high confidence, the first pass selects those. */
  lemma {:induction false} HighPrefix(scored: seq<Candidate>, n: nat)
    requires DistinctKinds(scored) && n <= |scored|
    requires forall i | 0 <= i < |scored| :: scored[i].confidence == High <==> i < n
    ensures TakeAll([], scored, High) == scored[..n]
  {
    if scored != [] {
      var m := |scored| - 1;
      if n == |scored| {
        HighPrefix(scored[..m], m);
        assert forall c | c in scored[..m] :: c.step.kind != scored[m].step.kind;
        assert scored[..m] + [scored[m]] == scored;
      } else {
        HighPrefix(scored[..m], n);
        assert scored[..m][..n] == scored[..n];
      }
    }
  }

  /** The score of the step at position i, and what it supports. */
  lemma ListedAt(i: nat)
    requires i < |ORDERED_STEPS|
    ensures var step := ORDERED_STEPS[i];
            Listed(step).step == step && Listed(step).confidence == ConfidenceFor(Listed(step).score) &&
            Listed(step).score == (if i < 5 then 105 - i else if i == 5 then 64 else if i == 6 then 58 else 28) &&
            (Supports(step, BOOTSTRAP) <==> i >= 5) && (Supports(step, VERIFY) <==> i == 6)
  {
    hide Listed, Supports, ConfidenceFor;
    ListedScore(ORDERED_STEPS[i]);
  }

  lemma FirstLetterDecides(a: string, b: string)
    requires a != "" && b != "" && a[0] < b[0]
    ensures !Less(b, a)
  {
  }

  /** The list of these steps is ranked: the last four have one score and come in alphabetical order. */
  lemma ListIsRanked(steps: seq<Step>)
    requires steps == ORDERED_STEPS
    ensures Ranked(ListedSteps(steps))
  {
    hide Listed, Supports, Less;
    forall i, j | 0 <= i < j < |steps| ensures !Before(Listed(steps[j]), Listed(steps[i])) {
      ListedAt(i);
      ListedAt(j);
      if i >= 7 {
        FirstLetterDecides(steps[i].kind, steps[j].kind);
      }
    }
  }

  /** The scored list of these steps, and a proof that the order of the two capabilities shows: asked to
      bootstrap first, seven steps are selected, asked to verify first, six. */
  lemma OrderShows() returns (scored: seq<Candidate>)
    ensures DistinctSteps(ORDERED_STEPS)
    ensures scored == Candidates(ORDERED_STEPS, NamesFive, {VERIFY, BOOTSTRAP}, "", "") && Ranked(scored)
    ensures |Select(scored, [BOOTSTRAP, VERIFY])| == 7 && |Select(scored, [VERIFY, BOOTSTRAP])| == 6
  {
    hide Listed, Supports, TakeAll, Select, Candidates, TrimSpace, Less, FirstSupporter, DistinctKinds, Ranked,
         ORDERED_STEPS;
    var steps := ORDERED_STEPS;
    OrderedAreDistinct();
    forall i | 0 <= i < |steps|
      ensures Listed(steps[i]).step == steps[i] && Listed(steps[i]).confidence == ConfidenceFor(Listed(steps[i]).score)
      ensures Listed(steps[i]).score == if i < 5 then 105 - i else if i == 5 then 64 else if i == 6 then 58 else 28
      ensures Supports(steps[i], BOOTSTRAP) <==> i >= 5
      ensures Supports(steps[i], VERIFY) <==> i == 6
    {
      ListedAt(i);
    }
    AllListed(steps);
    scored := ListedSteps(steps);
    ListIsRanked(steps);
    CandidatesAreDistinct(steps, NamesFive, {VERIFY, BOOTSTRAP}, "", "");
    hide DistinctSteps;
    HighPrefix(scored, 5);
    FirstSupporterIsFirst(scored, BOOTSTRAP);
    FirstSupporterIsFirst(scored, VERIFY);
    assert Supports(scored[5].step, BOOTSTRAP) && Supports(scored[6].step, VERIFY);
    assert FirstSupporter(scored, BOOTSTRAP) == 5 && FirstSupporter(scored, VERIFY) == 6;
    assert forall c | c in scored[..5] :: !Supports(c.step, BOOTSTRAP) && !Supports(c.step, VERIFY);
    SelectionDependsOnOrder(scored, scored[5], scored[6], BOOTSTRAP, VERIFY);
  }
}
