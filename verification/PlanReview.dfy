/** Normalising the findings of the plan critic and deciding whether a plan may be executed:
    internal/askcli/plan_review.go. */
module PlanReview {
  import opened Text
  import opened Sorting

  /** PlanCriticFinding */
  datatype Finding = Finding(code: string, severity: string, message: string, path: string, recoverable: bool)

  /** PlanCriticResponse without its summary and suggested fixes, which normalisation leaves alone */
  datatype Critic = Critic(
    findings: seq<Finding>, blocking: seq<string>, advisory: seq<string>, missingContracts: seq<string>)

  datatype ArtifactContract = ArtifactContract(kind: string, producerPath: string, consumerPath: string)

  datatype SharedStateContract = SharedStateContract(
    name: string, availabilityModel: string, producerPath: string, consumerPaths: seq<string>)

  /** The parts of PlanResponse the review looks at. */
  datatype Plan = Plan(
    intent: string, routeIntent: string, modeIntent: string, topology: string, nodeCount: int,
    capabilities: seq<string>, entryScenario: string, needsPrepare: bool, artifactKinds: seq<string>,
    artifactContracts: seq<ArtifactContract>, sharedStateContracts: seq<SharedStateContract>,
    roleSelector: string, workerFlow: string, perNodeInvocation: bool,
    expectedNodeCount: int, expectedControlPlaneReady: int, finalVerificationRole: string,
    joinFile: string, controlPlaneCount: int, workerCount: int)

  const BLOCKING := "blocking"
  const ADVISORY := "advisory"
  const MISSING_CONTRACT := "missing_contract"

  const UNCLASSIFIED := "ask_unclassified_critic_finding"
  const MISSING_ROLE_SELECTOR := "missing_role_selector"
  const MISSING_ARTIFACT_CONSUMER := "missing_artifact_consumer"
  const ARTIFACT_CONTRACT_GAP := "artifact_contract_gap"
  const AMBIGUOUS_JOIN := "ambiguous_join_contract"
  const JOIN_FANOUT_GAP := "worker_join_fanout_gap"
  const ROLE_CARDINALITY_GAP := "role_cardinality_gap"
  const TOPOLOGY_GAP := "topology_fidelity_gap"
  const WEAK_VERIFICATION := "weak_verification_staging"

  // ---------------------------------------------------------------------------------------------
  // What the plan already provides

  predicate HasCapability(plan: Plan, want: string) {
    exists c | c in plan.capabilities :: TrimSpace(c) == want
  }

  /** askintent.ParseRoute(value) == RouteRefine */
  predicate IsRefine(route: string) {
    ToLower(TrimSpace(route)) == "refine"
  }

  predicate AllowsRecoverableRefineGaps(plan: Plan) {
    IsRefine(plan.intent) || IsRefine(plan.routeIntent)
  }

  predicate NeedsArtifactContracts(plan: Plan) {
    plan.needsPrepare || plan.artifactKinds != [] || plan.artifactContracts != []
  }

  predicate NeedsMultiRole(plan: Plan) {
    || TrimSpace(plan.topology) == "multi-node" || TrimSpace(plan.topology) == "ha" || plan.nodeCount > 1
    || TrimSpace(plan.workerFlow) != "" || plan.perNodeInvocation
    || HasCapability(plan, "kubeadm-join")
  }

  predicate NeedsStagedVerification(plan: Plan) {
    || NeedsArtifactContracts(plan) || NeedsMultiRole(plan) || TrimSpace(plan.modeIntent) == "prepare+apply"
    || HasCapability(plan, "kubeadm-bootstrap") || HasCapability(plan, "kubeadm-join")
  }

  function NormalKind(kind: string): string {
    ToLower(TrimSpace(kind))
  }

  predicate RequiresKind(plan: Plan, kind: string) {
    || (exists a | a in plan.artifactKinds :: NormalKind(a) == kind)
    || (exists c | c in plan.artifactContracts :: NormalKind(c.kind) == kind)
  }

  /** normalizedRequiredArtifactKinds, as a set */
  function RequiredKinds(plan: Plan): set<string> {
    (if RequiresKind(plan, "package") then {"package"} else {})
    + (if RequiresKind(plan, "image") then {"image"} else {})
  }

  const PREPARE_WORKFLOW := "workflows/prepare.yaml"
  const APPLY_WORKFLOW := "workflows/scenarios/apply.yaml"

  predicate IsCanonicalContract(plan: Plan, c: ArtifactContract, kind: string) {
    var entry := if TrimSpace(plan.entryScenario) == "" then APPLY_WORKFLOW else TrimSpace(plan.entryScenario);
    && NormalKind(c.kind) == kind
    && TrimSpace(c.producerPath) == PREPARE_WORKFLOW
    && TrimSpace(c.consumerPath) in {entry, APPLY_WORKFLOW}
  }

  predicate ArtifactsCovered(plan: Plan) {
    && RequiredKinds(plan) != {}
    && forall k | k in RequiredKinds(plan) :: exists c | c in plan.artifactContracts :: IsCanonicalContract(plan, c, k)
  }

  predicate LooksLikeWorkflowPath(path: string) {
    HasPrefix(TrimSpace(path), "workflows/")
  }

  /** A join file that is published for the workers, by and for concrete locations. */
  predicate IsJoinHandoff(c: SharedStateContract) {
    && Contains(ToLower(TrimSpace(c.name)), "join")
    && TrimSpace(c.availabilityModel) == "published-for-worker-consumption"
    && TrimSpace(c.producerPath) != "" && !LooksLikeWorkflowPath(c.producerPath)
    && (exists p | p in c.consumerPaths :: TrimSpace(p) != "")
    && (forall p | p in c.consumerPaths :: !LooksLikeWorkflowPath(p))
  }

  predicate JoinHandedOff(plan: Plan) {
    && NeedsMultiRole(plan) && TrimSpace(plan.roleSelector) != "" && TrimSpace(plan.joinFile) != ""
    && exists c | c in plan.sharedStateContracts :: IsJoinHandoff(c)
  }

  predicate RolesCounted(plan: Plan) {
    && NeedsMultiRole(plan) && plan.controlPlaneCount > 0 && plan.workerCount > 0
    && (plan.nodeCount > 0 ==> plan.controlPlaneCount + plan.workerCount == plan.nodeCount)
    && TrimSpace(plan.roleSelector) != ""
  }

  predicate VerificationStaged(plan: Plan) {
    && plan.expectedNodeCount > 0 && plan.expectedControlPlaneReady > 0
    && TrimSpace(plan.finalVerificationRole) == "control-plane"
    && JoinHandedOff(plan) && RolesCounted(plan)
  }

  predicate Mentions(lower: string, words: seq<string>) {
    exists w | w in words :: Contains(lower, w)
  }

  /** legacyPlanCriticMessageSatisfiedByNormalizedPlan */
  predicate MessageSatisfied(plan: Plan, message: string) {
    var lower := ToLower(TrimSpace(message));
    || (ArtifactsCovered(plan)
        && Mentions(lower, ["artifact contract", "artifact contract identifiers", "consumer bindings",
                            "artifact consumer"]))
    || (JoinHandedOff(plan)
        && Mentions(lower, ["ambiguous_join_contract", "join handoff", "join publication", "join-file",
                            "publish/consume", "worker joins"]))
    || (RolesCounted(plan)
        && Mentions(lower, ["role_cardinality_gap", "role cardinality", "1 control-plane", "1 worker", "role-count"]))
    || (VerificationStaged(plan)
        && Mentions(lower, ["weak_verification_staging", "checkcluster", "final cluster validation",
                            "final verification", "execution order"]))
  }

  /** planCriticFindingSatisfiedByNormalizedPlan */
  predicate Satisfied(plan: Plan, f: Finding) {
    if f.code in {ARTIFACT_CONTRACT_GAP, MISSING_ARTIFACT_CONSUMER} then ArtifactsCovered(plan)
    else if f.code in {AMBIGUOUS_JOIN, JOIN_FANOUT_GAP} then JoinHandedOff(plan)
    else if f.code == ROLE_CARDINALITY_GAP then RolesCounted(plan)
    else if f.code == WEAK_VERIFICATION then VerificationStaged(plan)
    else if f.code == UNCLASSIFIED then MessageSatisfied(plan, f.message)
    else false
  }

  /** planCriticFindingNeedsExecutionGate */
  predicate NeedsGate(plan: Plan, f: Finding) {
    && !AllowsRecoverableRefineGaps(plan)
    && if f.code in {MISSING_ARTIFACT_CONSUMER, ARTIFACT_CONTRACT_GAP} then
         NeedsArtifactContracts(plan) && plan.artifactContracts == []
       else if f.code == MISSING_ROLE_SELECTOR then
         NeedsMultiRole(plan) && TrimSpace(plan.roleSelector) == ""
       else if f.code in {AMBIGUOUS_JOIN, JOIN_FANOUT_GAP} then
         NeedsMultiRole(plan) && plan.sharedStateContracts == []
       else if f.code in {ROLE_CARDINALITY_GAP, TOPOLOGY_GAP} then
         NeedsMultiRole(plan) && (plan.nodeCount <= 0 || TrimSpace(plan.topology) == "unspecified")
       else if f.code == WEAK_VERIFICATION then
         NeedsStagedVerification(plan) && plan.expectedNodeCount <= 0
       else false
  }

  // ---------------------------------------------------------------------------------------------
  // Severity

  /** workflowissues.SpecFor: default severity and recoverability of the registered codes. */
  function SpecFor(code: string): Option<(string, bool)> {
    if code in {ARTIFACT_CONTRACT_GAP, ROLE_CARDINALITY_GAP} then Some((MISSING_CONTRACT, true))
    else if code in {AMBIGUOUS_JOIN, WEAK_VERIFICATION, TOPOLOGY_GAP, JOIN_FANOUT_GAP, UNCLASSIFIED} then
      Some((ADVISORY, true))
    else if code in {"duplicate_step_id", "duplicate_phase_name", "missing_entry_scenario",
                     "missing_prepare_apply_structure", MISSING_ROLE_SELECTOR, MISSING_ARTIFACT_CONSUMER,
                     "invalid_import_target", "unsupported_role_step_kind"} then
      Some((BLOCKING, false))
    else None
  }

  /** planCriticFindingIsFatal */
  predicate IsFatal(f: Finding) {
    if f.recoverable then false
    else if f.severity != "" then f.severity == BLOCKING
    else match SpecFor(f.code)
      case Some(spec) => spec.0 == BLOCKING && !spec.1
      case None => false
  }

  /** planCriticFindingIsRecoverable */
  predicate IsRecoverable(f: Finding) {
    f.recoverable || match SpecFor(f.code) case Some(spec) => spec.1 case None => false
  }

  predicate IsMissingContract(f: Finding) {
    !IsFatal(f) && f.severity == MISSING_CONTRACT && !IsRecoverable(f)
  }

  predicate IsAdvisory(f: Finding) {
    !IsFatal(f) && !IsMissingContract(f)
  }

  // ---------------------------------------------------------------------------------------------
  // Normalising the findings

  /** planCriticFindingKey; whether a finding is recoverable is not part of its key. */
  function Key(f: Finding): string {
    TrimSpace(f.code) + "|" + TrimSpace(f.severity) + "|" + TrimSpace(f.path) + "|" + TrimSpace(f.message)
  }

  /** legacyPlanCriticFinding */
  function Legacy(text: string, severity: string): Finding {
    Finding(UNCLASSIFIED, severity, text, "", true)
  }

  /** Fields trimmed and the severity filled in. */
  function Tidy(f: Finding): Finding {
    var severity := TrimSpace(f.severity);
    Finding(TrimSpace(f.code), if severity == "" then ADVISORY else severity,
            TrimSpace(f.message), TrimSpace(f.path), f.recoverable)
  }

  predicate HasKey(fs: seq<Finding>, key: string) {
    exists f | f in fs :: Key(f) == key
  }

  /** appendLegacy: the texts that no finding expresses yet, in order. */
  function AddLegacy(fs: seq<Finding>, texts: seq<string>, severity: string): seq<Finding> {
    if texts == [] then fs else
      var before, text := AddLegacy(fs, texts[..|texts| - 1], severity), TrimSpace(texts[|texts| - 1]);
      if text == "" || HasKey(before, Key(Legacy(text, severity))) then before
      else before + [Legacy(text, severity)]
  }

  function WithLegacy(c: Critic): seq<Finding> {
    AddLegacy(AddLegacy(AddLegacy(c.findings, c.blocking, BLOCKING), c.advisory, ADVISORY),
              c.missingContracts, MISSING_CONTRACT)
  }

  /** Add the tidied finding unless it is blank or its key is taken. */
  function AddTidy(out: seq<Finding>, f: Finding): seq<Finding> {
    if Tidy(f).message == "" || HasKey(out, Key(Tidy(f))) then out else out + [Tidy(f)]
  }

  /** dedupePlanCriticFindings, continuing from what has been kept so far */
  function Dedupe(out: seq<Finding>, fs: seq<Finding>): seq<Finding> {
    if fs == [] then out else AddTidy(Dedupe(out, fs[..|fs| - 1]), fs[|fs| - 1])
  }

  function Unsatisfied(plan: Plan, fs: seq<Finding>): (r: seq<Finding>)
    ensures forall f :: f in r <==> f in fs && !Satisfied(plan, f)
  {
    hide Satisfied;
    if fs == [] then [] else
      var rest := Unsatisfied(plan, fs[..|fs| - 1]);
      assert fs == fs[..|fs| - 1] + [fs[|fs| - 1]];
      if Satisfied(plan, fs[|fs| - 1]) then rest else rest + [fs[|fs| - 1]]
  }

  /** normalizedPlanCriticFindings */
  function Findings(plan: Plan, c: Critic): seq<Finding> {
    Unsatisfied(plan, Dedupe([], WithLegacy(c)))
  }

  /** The texts of the findings of one class. */
  function Texts(fs: seq<Finding>, class_: Finding -> bool): set<string> {
    set f | f in fs && class_(f) && TrimSpace(f.message) != "" :: TrimSpace(f.message)
  }

  /** normalizePlanCritic */
  ghost function Normalize(plan: Plan, c: Critic): Critic {
    var fs := Findings(plan, c);
    Critic(fs, Sorted(Texts(fs, IsFatal)), Sorted(Texts(fs, IsAdvisory)), Sorted(Texts(fs, IsMissingContract)))
  }

  /** fatalPlanReviewReasons; fixed holds what the plan contributes by itself. */
  ghost function FatalReasons(plan: Plan, c: Critic, fixed: set<string>): seq<string> {
    Sorted(Texts(Findings(plan, c), f => IsFatal(f) || NeedsGate(plan, f)) + fixed)
  }

  // ---------------------------------------------------------------------------------------------
  // Tidied findings

  lemma TidyIsStable(f: Finding)
    ensures Tidy(Tidy(f)) == Tidy(f)
    ensures Tidy(f).severity != ""
  {
    hide Trim;
    TrimIdempotent(f.code, IsSpace);
    TrimIdempotent(f.severity, IsSpace);
    TrimIdempotent(f.message, IsSpace);
    TrimIdempotent(f.path, IsSpace);
    TrimFixed(ADVISORY, IsSpace);
  }

  predicate IsTidy(f: Finding) {
    Tidy(f) == f && f.message != ""
  }

  lemma LegacyIsTidy(text: string, severity: string)
    requires severity in {BLOCKING, ADVISORY, MISSING_CONTRACT}
    requires TrimSpace(text) == text != ""
    ensures IsTidy(Legacy(text, severity))
    ensures !IsFatal(Legacy(text, severity)) && IsAdvisory(Legacy(text, severity))
    ensures forall plan :: !NeedsGate(plan, Legacy(text, severity))
  {
    hide Trim;
    TrimFixed(UNCLASSIFIED, IsSpace);
    TrimFixed(severity, IsSpace);
    TrimFixed("", IsSpace);
  }

  ghost predicate DistinctKeys(fs: seq<Finding>) {
    forall i, j | 0 <= i < j < |fs| :: Key(fs[i]) != Key(fs[j])
  }

  /** What deduplication leaves: tidied findings with distinct keys. */
  ghost predicate Settled(fs: seq<Finding>) {
    (forall f | f in fs :: IsTidy(f)) && DistinctKeys(fs)
  }

  lemma AddTidySettles(out: seq<Finding>, f: Finding)
    requires Settled(out)
    ensures Settled(AddTidy(out, f)) && out <= AddTidy(out, f)
    ensures Tidy(f).message != "" ==> HasKey(AddTidy(out, f), Key(Tidy(f)))
  {
    hide Key, Tidy;
    TidyIsStable(f);
    var later := AddTidy(out, f);
    if later != out {
      assert later[|out|] == Tidy(f);
      forall i | 0 <= i < |out| ensures Key(out[i]) != Key(Tidy(f)) {
        assert out[i] in out;
      }
    }
  }

  lemma {:induction false} DedupeSettles(out: seq<Finding>, fs: seq<Finding>)
    requires Settled(out)
    ensures Settled(Dedupe(out, fs)) && out <= Dedupe(out, fs)
    ensures forall g | g in Dedupe(out, fs) :: g in out || exists f | f in fs :: g == Tidy(f)
    ensures forall f | f in fs && Tidy(f).message != "" :: HasKey(Dedupe(out, fs), Key(Tidy(f)))
  {
    hide Settled, Key, Tidy, HasKey;
    if fs != [] {
      var init, last := fs[..|fs| - 1], fs[|fs| - 1];
      DedupeSettles(out, init);
      var before, later := Dedupe(out, init), Dedupe(out, fs);
      AddTidySettles(before, last);
      forall f | f in fs && Tidy(f).message != "" ensures HasKey(later, Key(Tidy(f))) {
        if f != last {
          assert f in init;
          KeyStays(before, later, Key(Tidy(f)));
        }
      }
    }
  }

  lemma KeyStays(fs: seq<Finding>, more: seq<Finding>, key: string)
    requires fs <= more && HasKey(fs, key)
    ensures HasKey(more, key)
  {
    hide Key;
    var f :| f in fs && Key(f) == key;
    assert f in more;
  }

  /** Deduplicating what is already settled changes nothing, and then goes on with the rest. */
  lemma {:induction false} DedupeOfSettled(fs: seq<Finding>)
    requires Settled(fs)
    ensures Dedupe([], fs) == fs
  {
    hide Key, Tidy;
    if fs != [] {
      var init, last := fs[..|fs| - 1], fs[|fs| - 1];
      assert last in fs && forall f | f in init :: f in fs;
      DedupeOfSettled(init);
      assert fs == init + [last];
    }
  }

  lemma {:induction false} DedupeJoin(out: seq<Finding>, a: seq<Finding>, b: seq<Finding>)
    ensures Dedupe(out, a + b) == Dedupe(Dedupe(out, a), b)
  {
    hide AddTidy;
    if b == [] {
      assert a + b == a;
    } else {
      DedupeJoin(out, a, b[..|b| - 1]);
      assert (a + b)[..|a + b| - 1] == a + b[..|b| - 1];
    }
  }

  // ---------------------------------------------------------------------------------------------
  // Legacy texts

  const SEVERITIES: set<string> := {BLOCKING, ADVISORY, MISSING_CONTRACT}

  /** g is the legacy finding of one of the texts. */
  predicate IsLegacyOf(g: Finding, texts: seq<string>, severity: string) {
    && g == Legacy(g.message, severity) && g.message != ""
    && exists t | t in texts :: TrimSpace(t) == g.message
  }

  /** Each non-blank text has a finding with the key of its legacy finding. */
  predicate AllKeyed(fs: seq<Finding>, texts: seq<string>, severity: string) {
    forall t | t in texts && TrimSpace(t) != "" :: HasKey(fs, Key(Legacy(TrimSpace(t), severity)))
  }

  lemma IsLegacyTidy(g: Finding, texts: seq<string>, severity: string)
    requires severity in SEVERITIES && IsLegacyOf(g, texts, severity)
    ensures IsTidy(g) && !IsFatal(g) && IsAdvisory(g) && forall plan :: !NeedsGate(plan, g)
  {
    hide Trim;
    var t :| t in texts && TrimSpace(t) == g.message;
    TrimIdempotent(t, IsSpace);
    LegacyIsTidy(g.message, severity);
  }

  lemma AddOne(fs: seq<Finding>, g: Finding)
    requires Settled(fs) && IsTidy(g) && !HasKey(fs, Key(g))
    ensures Settled(fs + [g])
  {
    hide Key, IsTidy;
    forall i | 0 <= i < |fs| ensures Key(fs[i]) != Key(g) {
      assert fs[i] in fs;
    }
  }

  lemma {:induction false} AddLegacyFacts(fs: seq<Finding>, texts: seq<string>, severity: string)
    requires severity in SEVERITIES
    ensures var r := AddLegacy(fs, texts, severity);
            && fs <= r && (Settled(fs) ==> Settled(r)) && AllKeyed(r, texts, severity)
            && forall g | g in r :: g in fs || (IsLegacyOf(g, texts, severity) && !HasKey(fs, Key(g)))
  {
    hide Key, HasKey, Settled, IsLegacyOf, TrimSpace;
    if texts != [] {
      var init, last := texts[..|texts| - 1], texts[|texts| - 1];
      var before, r := AddLegacy(fs, init, severity), AddLegacy(fs, texts, severity);
      AddLegacyFacts(fs, init, severity);
      AddOneLegacy(fs, before, texts, severity);
      forall t | t in texts && TrimSpace(t) != "" ensures HasKey(r, Key(Legacy(TrimSpace(t), severity))) {
        if t != last {
          assert t in init;
          KeyStays(before, r, Key(Legacy(TrimSpace(t), severity)));
        }
      }
      forall g | g in before && g !in fs ensures IsLegacyOf(g, texts, severity) && !HasKey(fs, Key(g)) {
        LegacyOfMore(g, texts, severity);
      }
    }
  }

  lemma LegacyOfMore(g: Finding, texts: seq<string>, severity: string)
    requires texts != [] && IsLegacyOf(g, texts[..|texts| - 1], severity)
    ensures IsLegacyOf(g, texts, severity)
  {
    hide TrimSpace;
    var t :| t in texts[..|texts| - 1] && TrimSpace(t) == g.message;
    assert t in texts;
  }

  /** The step from all texts but the last to all texts. */
  lemma AddOneLegacy(fs: seq<Finding>, before: seq<Finding>, texts: seq<string>, severity: string)
    requires severity in SEVERITIES && texts != []
    requires before == AddLegacy(fs, texts[..|texts| - 1], severity) && fs <= before
    ensures var r := AddLegacy(fs, texts, severity);
            var text := TrimSpace(texts[|texts| - 1]);
            && before <= r && (Settled(before) ==> Settled(r))
            && (text != "" ==> HasKey(r, Key(Legacy(text, severity))))
            && forall g | g in r :: g in before || (IsLegacyOf(g, texts, severity) && !HasKey(fs, Key(g)))
  {
    hide Key, Settled, TrimSpace, IsTidy, AddLegacy;
    var r := AddLegacy(fs, texts, severity);
    var text := TrimSpace(texts[|texts| - 1]);
    var g := Legacy(text, severity);
    LastLegacy(fs, texts, severity);
    if r != before {
      assert texts[|texts| - 1] in texts;
      IsLegacyTidy(g, texts, severity);
      if Settled(before) { AddOne(before, g); }
      if HasKey(fs, Key(g)) { KeyStays(fs, before, Key(g)); }
      assert r[|before|] == g;
    }
  }

  lemma LastLegacy(fs: seq<Finding>, texts: seq<string>, severity: string)
    requires texts != []
    ensures var before, text := AddLegacy(fs, texts[..|texts| - 1], severity), TrimSpace(texts[|texts| - 1]);
            AddLegacy(fs, texts, severity)
            == if text == "" || HasKey(before, Key(Legacy(text, severity))) then before
               else before + [Legacy(text, severity)]
  {
    hide Key, TrimSpace, HasKey;
  }

  /** The texts of a critic that carry that severity. */
  function ListOf(c: Critic, severity: string): seq<string> {
    if severity == BLOCKING then c.blocking else if severity == ADVISORY then c.advisory else c.missingContracts
  }

  /** g expresses a text of the critic that none of its findings expresses. */
  predicate IsNewLegacy(c: Critic, g: Finding) {
    g.severity in SEVERITIES && IsLegacyOf(g, ListOf(c, g.severity), g.severity) && !HasKey(c.findings, Key(g))
  }

  lemma WithLegacyFacts(c: Critic)
    ensures var r := WithLegacy(c);
            && c.findings <= r && (Settled(c.findings) ==> Settled(r))
            && (forall severity | severity in SEVERITIES :: AllKeyed(r, ListOf(c, severity), severity))
            && (forall g | g in r && g !in c.findings :: IsNewLegacy(c, g))
  {
    hide Key, HasKey, Settled, AllKeyed, AddLegacy, TrimSpace;
    var a := AddLegacy(c.findings, c.blocking, BLOCKING);
    var b := AddLegacy(a, c.advisory, ADVISORY);
    var r := AddLegacy(b, c.missingContracts, MISSING_CONTRACT);
    AddLegacyFacts(c.findings, c.blocking, BLOCKING);
    AddLegacyFacts(a, c.advisory, ADVISORY);
    AddLegacyFacts(b, c.missingContracts, MISSING_CONTRACT);
    KeyedStays(a, r, c.blocking, BLOCKING);
    KeyedStays(b, r, c.advisory, ADVISORY);
    forall g | g in r && g !in c.findings
      ensures IsNewLegacy(c, g)
    {
      if HasKey(c.findings, Key(g)) {
        KeyStays(c.findings, a, Key(g));
        KeyStays(c.findings, b, Key(g));
      }
    }
  }

  lemma KeyedStays(fs: seq<Finding>, more: seq<Finding>, texts: seq<string>, severity: string)
    requires fs <= more && AllKeyed(fs, texts, severity)
    ensures AllKeyed(more, texts, severity)
  {
    hide Key, TrimSpace, HasKey;
    forall t | t in texts && TrimSpace(t) != "" ensures HasKey(more, Key(Legacy(TrimSpace(t), severity))) {
      KeyStays(fs, more, Key(Legacy(TrimSpace(t), severity)));
    }
  }

  // ---------------------------------------------------------------------------------------------
  // Normalising what is already normalised

  /** The findings of a normalised critic. */
  ghost predicate Normal(plan: Plan, fs: seq<Finding>) {
    Settled(fs) && forall f | f in fs :: !Satisfied(plan, f)
  }

  lemma {:induction false} UnsatisfiedSettles(plan: Plan, fs: seq<Finding>)
    requires Settled(fs)
    ensures Settled(Unsatisfied(plan, fs))
  {
    hide Key, IsTidy, Satisfied;
    if fs != [] {
      var init, last := fs[..|fs| - 1], fs[|fs| - 1];
      assert last in fs && forall f | f in init :: f in fs;
      UnsatisfiedSettles(plan, init);
      var rest := Unsatisfied(plan, init);
      forall i | 0 <= i < |rest| ensures Key(rest[i]) != Key(last) {
        assert rest[i] in rest;
        assert rest[i] in init;
      }
    }
  }

  lemma FindingsAreNormal(plan: Plan, c: Critic)
    ensures Normal(plan, Findings(plan, c))
  {
    hide Satisfied, Key, IsTidy, Tidy, WithLegacy;
    DedupeSettles([], WithLegacy(c));
    UnsatisfiedSettles(plan, Dedupe([], WithLegacy(c)));
  }

  lemma {:induction false} UnsatisfiedKeepsNormal(plan: Plan, fs: seq<Finding>, more: seq<Finding>)
    requires fs <= more && forall f | f in fs :: !Satisfied(plan, f)
    ensures fs <= Unsatisfied(plan, more)
  {
    hide Satisfied;
    if |fs| < |more| {
      UnsatisfiedKeepsNormal(plan, fs, more[..|more| - 1]);
    } else if fs != [] {
      assert fs[|fs| - 1] in fs && forall f | f in fs[..|fs| - 1] :: f in fs;
      assert more == fs;
      UnsatisfiedKeepsNormal(plan, fs[..|fs| - 1], fs[..|fs| - 1]);
      UnsatisfiedIsPrefix(plan, fs[..|fs| - 1]);
    }
  }

  lemma {:induction false} UnsatisfiedIsPrefix(plan: Plan, fs: seq<Finding>)
    requires forall f | f in fs :: !Satisfied(plan, f)
    ensures Unsatisfied(plan, fs) == fs
  {
    hide Satisfied;
    if fs != [] {
      assert fs[|fs| - 1] in fs && forall f | f in fs[..|fs| - 1] :: f in fs;
      UnsatisfiedIsPrefix(plan, fs[..|fs| - 1]);
    }
  }

  /** Two legacy findings with the same key are the same finding. */
  lemma LegacyKeyInjective(f: Finding, g: Finding)
    requires f == Legacy(f.message, f.severity) && g == Legacy(g.message, g.severity)
    requires f.severity in SEVERITIES && g.severity in SEVERITIES && IsTidy(f) && IsTidy(g)
    requires Key(f) == Key(g)
    ensures f == g
  {
    hide Trim;
    TrimFixed("", IsSpace);
    TrimFixed(f.severity, IsSpace);
    TrimFixed(g.severity, IsSpace);
    var n := |UNCLASSIFIED| + 1;
    assert Key(f) == UNCLASSIFIED + "|" + f.severity + "|" + "" + "|" + f.message;
    assert Key(g) == UNCLASSIFIED + "|" + g.severity + "|" + "" + "|" + g.message;
    assert Key(f)[n] == f.severity[0] && Key(g)[n] == g.severity[0];
    assert f.severity == g.severity;
    assert f.message == Key(f)[n + |f.severity| + 2..];
    assert g.message == Key(g)[n + |g.severity| + 2..];
  }

  /** The texts of that severity have been dealt with: expressed by a finding, or satisfied by the plan. */
  ghost predicate Handled(plan: Plan, fs: seq<Finding>, texts: seq<string>, severity: string) {
    forall g | IsLegacyOf(g, texts, severity) :: HasKey(fs, Key(g)) || Satisfied(plan, g)
  }

  /** Normalising a critic whose findings are normal only appends legacy findings for texts that were
      not dealt with, and deals with them all. */
  lemma RenormalizeFacts(plan: Plan, c: Critic)
    requires Normal(plan, c.findings)
    ensures var r := Findings(plan, c);
            && c.findings <= r
            && (forall severity | severity in SEVERITIES :: Handled(plan, r, ListOf(c, severity), severity))
            && (forall g | g in r && g !in c.findings :: IsNewLegacy(c, g) && !Satisfied(plan, g))
  {
    hide Key, Satisfied, Settled, HasKey, IsLegacyOf, WithLegacy, Dedupe, AllKeyed, ListOf, IsTidy;
    var all := WithLegacy(c);
    WithLegacyFacts(c);
    DedupeOfSettled(all);
    var r := Findings(plan, c);
    assert r == Unsatisfied(plan, all);
    UnsatisfiedKeepsNormal(plan, c.findings, all);
    forall severity, g | severity in SEVERITIES && IsLegacyOf(g, ListOf(c, severity), severity)
      ensures HasKey(r, Key(g)) || Satisfied(plan, g)
    {
      TextHandled(plan, c, all, g, severity);
    }
  }

  lemma TextHandled(plan: Plan, c: Critic, all: seq<Finding>, g: Finding, severity: string)
    requires severity in SEVERITIES && IsLegacyOf(g, ListOf(c, severity), severity)
    requires AllKeyed(all, ListOf(c, severity), severity)
    requires forall f | f in c.findings :: !Satisfied(plan, f)
    requires forall f | f in all :: f in c.findings
               || (f.severity in SEVERITIES && IsLegacyOf(f, ListOf(c, f.severity), f.severity))
    ensures HasKey(Unsatisfied(plan, all), Key(g)) || Satisfied(plan, g)
  {
    hide Key, Satisfied, ListOf, TrimSpace, IsTidy;
    var texts := ListOf(c, severity);
    var t :| t in texts && TrimSpace(t) == g.message;
    assert HasKey(all, Key(g));
    var f :| f in all && Key(f) == Key(g);
    if Satisfied(plan, f) {
      IsLegacyTidy(f, ListOf(c, f.severity), f.severity);
      IsLegacyTidy(g, texts, severity);
      LegacyKeyInjective(f, g);
    } else {
      assert f in Unsatisfied(plan, all);
    }
  }

  /** The texts of a class that no added finding belongs to stay the same. */
  lemma TextsStay(fs: seq<Finding>, more: seq<Finding>, class_: Finding -> bool)
    requires fs <= more && forall g | g in more && g !in fs :: !class_(g)
    ensures Texts(more, class_) == Texts(fs, class_)
  {
    hide TrimSpace;
    assert forall f | f in fs :: f in more;
  }

  lemma SameClass(fs: seq<Finding>, p: Finding -> bool, q: Finding -> bool)
    requires forall f :: p(f) == q(f)
    ensures Texts(fs, p) == Texts(fs, q)
  {
    hide TrimSpace;
  }

  /** Normalising again adds nothing that blocks, gates or counts as a missing contract. */
  lemma AddedIsHarmless(plan: Plan, c: Critic)
    requires Normal(plan, c.findings)
    ensures var r := Findings(plan, c);
            forall g | g in r && g !in c.findings ::
              !IsFatal(g) && !NeedsGate(plan, g) && !IsMissingContract(g) && IsAdvisory(g)
  {
    hide Key, Satisfied, HasKey, IsLegacyOf, Findings, ListOf, IsFatal, NeedsGate;
    RenormalizeFacts(plan, c);
    forall g | g in Findings(plan, c) && g !in c.findings
      ensures !IsFatal(g) && !NeedsGate(plan, g) && !IsMissingContract(g) && IsAdvisory(g)
    {
      IsLegacyTidy(g, ListOf(c, g.severity), g.severity);
    }
  }

  /** The decision to stop does not depend on whether the critic has been normalised before. */
  lemma GateInvariance(plan: Plan, c: Critic, fixed: set<string>)
    ensures FatalReasons(plan, Normalize(plan, c), fixed) == FatalReasons(plan, c, fixed)
  {
    hide Findings, IsFatal, NeedsGate, Texts, Normal, Sorted;
    var n := Normalize(plan, c);
    FindingsAreNormal(plan, c);
    AddedIsHarmless(plan, n);
    RenormalizeFacts(plan, n);
    TextsStay(n.findings, Findings(plan, n), f => IsFatal(f) || NeedsGate(plan, f));
  }

  /** From the first normalisation on, the blocking texts and the missing contracts are fixed, and the
      findings only grow. */
  lemma NormalizeAgain(plan: Plan, c: Critic)
    ensures var n := Normalize(plan, c);
            var again := Normalize(plan, n);
            && again.blocking == n.blocking && again.missingContracts == n.missingContracts
            && n.findings <= again.findings
  {
    hide Findings, IsFatal, NeedsGate, Texts, Normal, Sorted, IsMissingContract;
    var n := Normalize(plan, c);
    FindingsAreNormal(plan, c);
    AddedIsHarmless(plan, n);
    RenormalizeFacts(plan, n);
    TextsStay(n.findings, Findings(plan, n), IsFatal);
    TextsStay(n.findings, Findings(plan, n), IsMissingContract);
  }

  // ---------------------------------------------------------------------------------------------
  // How long the findings grow

  /** Texts that have been dealt with give no new finding. */
  lemma NoNewOnes(plan: Plan, c: Critic, g: Finding)
    requires IsNewLegacy(c, g) && !Satisfied(plan, g)
    ensures !Handled(plan, c.findings, ListOf(c, g.severity), g.severity)
  {
    hide Key, Satisfied, IsLegacyOf, HasKey, ListOf;
  }

  /** Nothing is appended to distinct findings when nothing new is in the result. */
  lemma NothingAppended(fs: seq<Finding>, more: seq<Finding>)
    requires fs <= more && DistinctKeys(more) && forall g | g in more :: g in fs
    ensures more == fs
  {
    if more != [] {
      PositionOf(fs, more, |more| - 1);
    }
  }

  lemma PositionOf(fs: seq<Finding>, more: seq<Finding>, k: nat)
    requires fs <= more && DistinctKeys(more) && k < |more| && more[k] in fs
    ensures k < |fs|
  {
    hide Key;
    var i :| 0 <= i < |fs| && fs[i] == more[k];
    assert more[i] == fs[i];
    assert i == k;
  }

  /** The second normalisation leaves only advisory texts to deal with. */
  lemma OnlyAdvisoryLeft(plan: Plan, c1: Critic, g: Finding)
    requires Normal(plan, c1.findings)
    requires var c2 := Normalize(plan, c1);
             && c2.blocking == c1.blocking && c2.missingContracts == c1.missingContracts
             && IsNewLegacy(c2, g) && !Satisfied(plan, g)
    ensures g.severity == ADVISORY
  {
    hide Key, Satisfied, IsLegacyOf, HasKey, Findings, Sorted, Texts, Normal, Handled;
    var c2 := Normalize(plan, c1);
    RenormalizeFacts(plan, c1);
    NoNewOnes(plan, c2, g);
  }

  /** A new advisory finding repeats a text that is advisory already. */
  lemma AdvisoryTextsClosed(fs: seq<Finding>, more: seq<Finding>, advisory: seq<string>)
    requires fs <= more && forall t | t in advisory :: t in Texts(fs, IsAdvisory)
    requires forall g | g in more && g !in fs :: IsLegacyOf(g, advisory, ADVISORY)
    ensures Texts(more, IsAdvisory) == Texts(fs, IsAdvisory)
  {
    hide Trim;
    forall t | t in Texts(more, IsAdvisory) ensures t in Texts(fs, IsAdvisory) {
      var g :| g in more && IsAdvisory(g) && TrimSpace(g.message) == t && t != "";
      if g !in fs {
        var u :| u in advisory && TrimSpace(u) == g.message;
        TrimIdempotent(u, IsSpace);
        var f :| f in fs && IsAdvisory(f) && TrimSpace(f.message) == u;
        TrimIdempotent(f.message, IsSpace);
        assert t == u;
      }
    }
    assert forall f | f in fs :: f in more;
  }

  lemma SecondAndThirdAdvisoryAgree(plan: Plan, c1: Critic)
    requires Normal(plan, c1.findings)
    requires var c2 := Normalize(plan, c1);
             c2.blocking == c1.blocking && c2.missingContracts == c1.missingContracts
    ensures var c2 := Normalize(plan, c1); Normalize(plan, c2).advisory == c2.advisory
  {
    hide Key, Satisfied, IsLegacyOf, HasKey, Findings, Texts, Normal, Handled;
    var c2 := Normalize(plan, c1);
    FindingsAreNormal(plan, c1);
    RenormalizeFacts(plan, c2);
    forall g | g in Findings(plan, c2) && g !in c2.findings ensures IsLegacyOf(g, c2.advisory, ADVISORY) {
      OnlyAdvisoryLeft(plan, c1, g);
    }
    AdvisoryTextsClosed(c2.findings, Findings(plan, c2), c2.advisory);
  }

  /** Normalisation is stable from the third time on. */
  lemma NormalizeStabilises(plan: Plan, c: Critic)
    ensures var third := Normalize(plan, Normalize(plan, Normalize(plan, c))); Normalize(plan, third) == third
  {
    hide Key, Satisfied, IsLegacyOf, HasKey, Findings, Sorted, Texts, Normal, Handled;
    var c1 := Normalize(plan, c);
    var c2 := Normalize(plan, c1);
    var c3 := Normalize(plan, c2);
    FindingsAreNormal(plan, c);
    FindingsAreNormal(plan, c1);
    FindingsAreNormal(plan, c2);
    FindingsAreNormal(plan, c3);
    NormalizeAgain(plan, c);
    NormalizeAgain(plan, c1);
    SecondAndThirdAdvisoryAgree(plan, c1);
    RenormalizeFacts(plan, c2);
    RenormalizeFacts(plan, c3);
    var fs := Findings(plan, c3);
    forall g | g in fs ensures g in c3.findings {
      if g !in c3.findings {
        NoNewOnes(plan, c3, g);
      }
    }
    NormalIsDistinct(plan, fs);
    NothingAppended(c3.findings, fs);
  }

  lemma NormalIsDistinct(plan: Plan, fs: seq<Finding>)
    requires Normal(plan, fs)
    ensures DistinctKeys(fs)
  {
  }

  const MISSING_ENTRY_SCENARIO := "missing_entry_scenario"

  /** A text that neither a finding nor the plan deals with makes the findings grow. */
  lemma GrowsFor(plan: Plan, c: Critic, text: string, severity: string)
    requires Normal(plan, c.findings) && severity in SEVERITIES
    requires text in ListOf(c, severity) && TrimSpace(text) == text != ""
    requires !HasKey(c.findings, Key(Legacy(text, severity))) && !Satisfied(plan, Legacy(text, severity))
    ensures |c.findings| < |Findings(plan, c)| && HasKey(Findings(plan, c), Key(Legacy(text, severity)))
  {
    hide Key, Satisfied, HasKey, Findings, TrimSpace, Normal, ListOf;
    RenormalizeFacts(plan, c);
    var r := Findings(plan, c);
    assert IsLegacyOf(Legacy(text, severity), ListOf(c, severity), severity);
    assert HasKey(r, Key(Legacy(text, severity)));
    assert |r| == |c.findings| ==> r == c.findings;
  }

  /** A single tidy finding that the plan does not satisfy is its own normal form. */
  lemma FindingsOfOne(plan: Plan, f: Finding)
    requires IsTidy(f) && !Satisfied(plan, f)
    ensures Findings(plan, Critic([f], [], [], [])) == [f]
  {
    hide Satisfied, Key, Tidy;
    assert [f][..0] == [];
    assert WithLegacy(Critic([f], [], [], [])) == [f];
    UnsatisfiedIsPrefix(plan, [f]);
    assert Dedupe([], [f]) == AddTidy(Dedupe([], []), f) == [f];
  }

  lemma UnclassifiedKey(f: Finding, text: string, severity: string)
    requires f.code == MISSING_ENTRY_SCENARIO
    ensures Key(f) != Key(Legacy(text, severity))
  {
    hide Trim;
    TrimFixed(f.code, IsSpace);
    TrimFixed(UNCLASSIFIED, IsSpace);
    assert Key(f)[0] == 'm' && Key(Legacy(text, severity))[0] == 'a';
  }

  /** Twice it can grow: a blocking finding comes back as a legacy finding of its text, and that one as
      an advisory. */
  lemma FindingsCanGrowTwice(plan: Plan, message: string)
    requires TrimSpace(message) == message != "" && !MessageSatisfied(plan, message)
    ensures var f := Finding(MISSING_ENTRY_SCENARIO, BLOCKING, message, "", false);
            var first := Normalize(plan, Critic([f], [], [], []));
            var second := Normalize(plan, first);
            |first.findings| < |second.findings| < |Normalize(plan, second).findings|
  {
    hide MessageSatisfied, Sorted, Key, TrimSpace, Findings, Normal, HasKey, Texts, IsLegacyOf, Handled;
    var f := Finding(MISSING_ENTRY_SCENARIO, BLOCKING, message, "", false);
    var c := Critic([f], [], [], []);
    var first := Normalize(plan, c);
    var second := Normalize(plan, first);
    FirstRound(plan, f);
    UnclassifiedKey(f, message, BLOCKING);
    FindingsAreNormal(plan, c);
    assert !HasKey(first.findings, Key(Legacy(message, BLOCKING))) by { OnlyKey(f, Key(Legacy(message, BLOCKING))); }
    GrowsFor(plan, first, message, BLOCKING);
    FindingsAreNormal(plan, first);
    RenormalizeFacts(plan, first);
    BlockingComesBack(plan, f, first, second, message);
    GrowsFor(plan, second, message, ADVISORY);
  }

  lemma FirstRound(plan: Plan, f: Finding)
    requires f == Finding(MISSING_ENTRY_SCENARIO, BLOCKING, f.message, "", false)
    requires TrimSpace(f.message) == f.message != ""
    ensures var first := Normalize(plan, Critic([f], [], [], []));
            first.findings == [f] && f.message in first.blocking && first.advisory == []
  {
    hide Sorted, Key, Trim, Findings;
    TrimFixed(MISSING_ENTRY_SCENARIO, IsSpace);
    TrimFixed(BLOCKING, IsSpace);
    TrimFixed("", IsSpace);
    FindingsOfOne(plan, f);
    var first := Normalize(plan, Critic([f], [], [], []));
    assert f in first.findings;
    assert Texts([f], IsAdvisory) == {};
  }

  lemma OnlyKey(f: Finding, key: string)
    ensures HasKey([f], key) <==> Key(f) == key
  {
    hide Key;
    assert f in [f];
  }

  lemma BlockingComesBack(plan: Plan, f: Finding, first: Critic, second: Critic, message: string)
    requires TrimSpace(message) == message != "" && f.code == MISSING_ENTRY_SCENARIO
    requires first.findings == [f] && first.advisory == [] && second == Normalize(plan, first)
    requires HasKey(second.findings, Key(Legacy(message, BLOCKING)))
    requires forall g | g in second.findings && g !in first.findings :: IsNewLegacy(first, g)
    ensures message in second.advisory
    ensures !HasKey(second.findings, Key(Legacy(message, ADVISORY)))
  {
    hide Sorted, Key, TrimSpace, Findings, IsTidy;
    var blocking, advisory := Legacy(message, BLOCKING), Legacy(message, ADVISORY);
    LegacyIsTidy(message, BLOCKING);
    LegacyIsTidy(message, ADVISORY);
    UnclassifiedKey(f, message, BLOCKING);
    UnclassifiedKey(f, message, ADVISORY);
    forall g | g in second.findings && Key(g) in {Key(blocking), Key(advisory)} ensures g == blocking {
      IsLegacyTidy(g, ListOf(first, g.severity), g.severity);
      if Key(g) == Key(blocking) {
        LegacyKeyInjective(g, blocking);
      } else {
        LegacyKeyInjective(g, advisory);
      }
    }
    assert blocking in second.findings;
    assert message in Texts(second.findings, IsAdvisory);
    if HasKey(second.findings, Key(advisory)) {
      var g :| g in second.findings && Key(g) == Key(advisory);
      LegacyKeyInjective(blocking, advisory);
    }
  }

  /** The severity under which normalisation lists the text of a finding. */
  function ListedUnder(f: Finding): string {
    if IsFatal(f) then BLOCKING else if IsMissingContract(f) then MISSING_CONTRACT else ADVISORY
  }

  /** Normalising once is enough exactly when every finding's text, as a legacy finding of the list it goes
      to, is among the findings already or satisfied by the plan. */
  lemma NormalizeIdempotentIff(plan: Plan, c: Critic)
    ensures var n := Normalize(plan, c);
            var fs := Findings(plan, c);
            Normalize(plan, n) == n <==>
              forall f | f in fs :: var g := Legacy(f.message, ListedUnder(f)); HasKey(fs, Key(g)) || Satisfied(plan, g)
  {
    hide Key, Satisfied, HasKey, Findings, Sorted, IsFatal, IsMissingContract, IsAdvisory, Settled, Normal;
    var n := Normalize(plan, c);
    var fs, more := Findings(plan, c), Findings(plan, n);
    FindingsAreNormal(plan, c);
    FindingsAreNormal(plan, n);
    RenormalizeFacts(plan, n);
    if more == fs {
      forall f | f in fs
        ensures HasKey(fs, Key(Legacy(f.message, ListedUnder(f)))) || Satisfied(plan, Legacy(f.message, ListedUnder(f)))
      {
        ListedTexts(plan, c, f);
        assert IsLegacyOf(Legacy(f.message, ListedUnder(f)), ListOf(n, ListedUnder(f)), ListedUnder(f));
      }
    } else if forall f | f in fs ::
                var g := Legacy(f.message, ListedUnder(f));
                HasKey(fs, Key(g)) || Satisfied(plan, g) {
      forall g | g in more ensures g in fs {
        if g !in fs {
          ListedFrom(plan, c, g);
        }
      }
      NormalIsDistinct(plan, more);
      NothingAppended(fs, more);
    }
  }

  /** The text of a finding is in the list of its class, */
  lemma ListedTexts(plan: Plan, c: Critic, f: Finding)
    requires f in Findings(plan, c)
    ensures f.message != "" && TrimSpace(f.message) == f.message
    ensures f.message in ListOf(Normalize(plan, c), ListedUnder(f))
  {
    hide Findings, Sorted, IsFatal, IsRecoverable, Satisfied, Key, Trim;
    FindingsAreNormal(plan, c);
    assert IsTidy(f);
    TrimIdempotent(f.message, IsSpace);
  }

  /** and every text of a list is that of a finding of the class. */
  lemma ListedFrom(plan: Plan, c: Critic, g: Finding)
    requires IsNewLegacy(Normalize(plan, c), g)
    ensures exists f :: f in Findings(plan, c) && g == Legacy(f.message, ListedUnder(f))
  {
    hide Findings, Sorted, IsFatal, IsRecoverable, Satisfied, Key, Trim, HasKey;
    FindingsAreNormal(plan, c);
    var n := Normalize(plan, c);
    var t :| t in ListOf(n, g.severity) && TrimSpace(t) == g.message;
    var f :| f in Findings(plan, c) && TrimSpace(f.message) == t && ListedUnder(f) == g.severity;
    assert IsTidy(f);
    TrimIdempotent(f.message, IsSpace);
  }

  // ---------------------------------------------------------------------------------------------
  // What the order of findings and the plan decide

  /** The finding has a message and stops the plan: it is fatal or gated, and not satisfied. */
  predicate Stops(plan: Plan, f: Finding) {
    !Satisfied(plan, f) && (IsFatal(f) || NeedsGate(plan, f))
  }

  /** The two findings are the same to deduplication. */
  predicate SameKey(f: Finding, g: Finding) {
    Tidy(f).message != "" && Tidy(g).message != "" && Key(Tidy(f)) == Key(Tidy(g))
  }

  /** The finding at i has a message and is the first with its tidied key. */
  ghost predicate FirstOfKey(fs: seq<Finding>, i: int) {
    0 <= i < |fs| && Tidy(fs[i]).message != "" && forall j | 0 <= j < i :: !SameKey(fs[j], fs[i])
  }

  /** Deduplication keeps exactly the first finding of each key. */
  lemma {:induction false} DedupeKeepsFirsts(fs: seq<Finding>)
    ensures forall g :: g in Dedupe([], fs) <==> exists i :: FirstOfKey(fs, i) && g == Tidy(fs[i])
  {
    hide Key, Tidy, SameKey, AddTidy;
    if fs != [] {
      var n := |fs| - 1;
      DedupeKeepsFirsts(fs[..n]);
      LastIsFirst(fs);
      hide FirstOfKey;
      forall i ensures FirstOfKey(fs[..n], i) <==> FirstOfKey(fs, i) && i < n {
        FirstsOfMore(fs, i);
      }
      forall i ensures FirstOfKey(fs, i) ==> 0 <= i <= n && (i < n ==> fs[i] == fs[..n][i]) {
        FirstIsIndex(fs, i);
      }
    }
  }

  lemma FirstsOfMore(fs: seq<Finding>, i: int)
    requires fs != []
    ensures FirstOfKey(fs[..|fs| - 1], i) <==> FirstOfKey(fs, i) && i < |fs| - 1
  {
    hide SameKey, Tidy;
    assert forall j | 0 <= j < |fs| - 1 :: fs[..|fs| - 1][j] == fs[j];
  }

  /** The last finding is kept exactly when it is the first of its key. */
  lemma LastIsFirst(fs: seq<Finding>)
    requires fs != []
    ensures var n := |fs| - 1;
            forall g :: g in Dedupe([], fs) <==> g in Dedupe([], fs[..n]) || (FirstOfKey(fs, n) && g == Tidy(fs[n]))
  {
    hide Key, Tidy, SameKey, HasKey;
    var n := |fs| - 1;
    assert forall j | 0 <= j < n :: fs[..n][j] == fs[j];
    if Tidy(fs[n]).message != "" {
      KeyedByFirst(fs[..n], fs[n]);
    }
  }

  /** A key is kept exactly when some finding with a message has it. */
  lemma KeyedByFirst(fs: seq<Finding>, f: Finding)
    requires Tidy(f).message != ""
    ensures HasKey(Dedupe([], fs), Key(Tidy(f))) <==> exists j :: 0 <= j < |fs| && SameKey(fs[j], f)
  {
    hide Key, Tidy;
    NothingSettled();
    DedupeSettles([], fs);
    if HasKey(Dedupe([], fs), Key(Tidy(f))) {
      var g :| g in Dedupe([], fs) && Key(g) == Key(Tidy(f));
      var h :| h in fs && g == Tidy(h);
    }
  }

  lemma NothingSettled()
    ensures Settled([])
  {
  }

  /** Some finding is the first with its key. */
  lemma {:induction false} FirstExists(fs: seq<Finding>, f: Finding) returns (i: nat)
    requires f in fs && Tidy(f).message != ""
    ensures FirstOfKey(fs, i) && SameKey(fs[i], f)
  {
    hide Key, Tidy;
    var n := |fs| - 1;
    var init := fs[..n];
    assert forall j | 0 <= j < n :: init[j] == fs[j];
    if j :| 0 <= j < n && SameKey(fs[j], f) {
      assert init[j] in init;
      i := FirstExists(init, init[j]);
    } else {
      i := n;
      assert fs[n] == f by {
        var j :| 0 <= j < |fs| && fs[j] == f;
      }
    }
  }

  /** Of the findings with legacy texts, a structured one is the first of its key just if it is so among the
      structured ones, and the others are legacy findings. */
  lemma StructuredComeFirst(c: Critic, i: nat)
    requires i < |WithLegacy(c)|
    ensures c.findings <= WithLegacy(c)
    ensures i < |c.findings| ==>
              WithLegacy(c)[i] == c.findings[i] && (FirstOfKey(WithLegacy(c), i) <==> FirstOfKey(c.findings, i))
    ensures i >= |c.findings| && FirstOfKey(WithLegacy(c), i) ==>
              WithLegacy(c)[i] in c.findings || IsNewLegacy(c, WithLegacy(c)[i])
  {
    hide Key, Tidy, WithLegacy, IsNewLegacy;
    WithLegacyFacts(c);
    var all := WithLegacy(c);
    assert forall j | 0 <= j < |c.findings| :: all[j] == c.findings[j];
    assert all[i] in all;
  }

  /** What stops a plan are the first structured findings of their keys, and what the plan adds; the legacy
      texts of the critic never do. */
  lemma ReasonsAreFirsts(plan: Plan, c: Critic, fixed: set<string>)
    ensures forall t :: t in FatalReasons(plan, c, fixed) <==> t in fixed || StoppedBy(plan, c.findings, t)
  {
    hide Key, Satisfied, IsFatal, NeedsGate, WithLegacy, Dedupe, Trim, SameKey;
    var all := WithLegacy(c);
    DedupeKeepsFirsts(all);
    var fs := Findings(plan, c);
    var fatal := f => IsFatal(f) || NeedsGate(plan, f);
    forall t ensures t in Texts(fs, fatal) <==> StoppedBy(plan, c.findings, t) {
      if t in Texts(fs, fatal) {
        var f :| f in fs && fatal(f) && TrimSpace(f.message) == t && t != "";
        var i :| FirstOfKey(all, i) && f == Tidy(all[i]);
        FirstIsIndex(all, i);
        TidyIsStable(all[i]);
        StructuredComeFirst(c, i);
        StopperIsStructured(plan, c, i);
      }
      if StoppedBy(plan, c.findings, t) {
        var i :| FirstOfKey(c.findings, i) && Stops(plan, Tidy(c.findings[i])) && Tidy(c.findings[i]).message == t;
        FirstIsIndex(c.findings, i);
        WithLegacyFacts(c);
        StructuredComeFirst(c, i);
        TidyIsStable(c.findings[i]);
        assert Tidy(all[i]) in fs;
      }
    }
  }

  lemma FirstIsIndex(fs: seq<Finding>, i: int)
    ensures FirstOfKey(fs, i) ==> 0 <= i < |fs| && Tidy(fs[i]).message != ""
  {
  }

  /** A first finding that stops the plan is a structured one. */
  lemma StopperIsStructured(plan: Plan, c: Critic, i: nat)
    requires FirstOfKey(WithLegacy(c), i) && i < |WithLegacy(c)| && Stops(plan, Tidy(WithLegacy(c)[i]))
    ensures i < |c.findings|
  {
    hide Key, Satisfied, IsFatal, NeedsGate, WithLegacy, Tidy;
    StructuredComeFirst(c, i);
    var all := WithLegacy(c);
    var f := all[i];
    forall j | 0 <= j < |c.findings| && j < i ensures c.findings[j] != f {
      assert all[j] == c.findings[j] && !SameKey(all[j], f);
    }
    if i >= |c.findings| {
      IsLegacyTidy(f, ListOf(c, f.severity), f.severity);
    }
  }

  /** The text of some first finding of its key stops the plan. */
  ghost predicate StoppedBy(plan: Plan, fs: seq<Finding>, t: string) {
    exists i :: FirstOfKey(fs, i) && Stops(plan, Tidy(fs[i])) && Tidy(fs[i]).message == t
  }

  /** The finding stops the plan with the text. */
  predicate StopsWith(plan: Plan, f: Finding, t: string) {
    Tidy(f).message == t && t != "" && Stops(plan, Tidy(f))
  }

  /** All findings of some key stop the plan with the text. */
  ghost predicate AlwaysStops(plan: Plan, fs: seq<Finding>, t: string) {
    exists g :: g in fs && Tidy(g).message != "" && forall h | h in fs && SameKey(h, g) :: StopsWith(plan, h, t)
  }

  /** Each text that some finding could stop the plan with is a reason in any case. */
  ghost predicate OrderFree(plan: Plan, fs: seq<Finding>, fixed: set<string>) {
    forall f, t | f in fs && StopsWith(plan, f, t) :: t in fixed || AlwaysStops(plan, fs, t)
  }

  /** The findings that do not stop the plan with the text, and those that do. */
  function Split(plan: Plan, fs: seq<Finding>, t: string): (seq<Finding>, seq<Finding>) {
    if fs == [] then ([], []) else
      var rest, f := Split(plan, fs[..|fs| - 1], t), fs[|fs| - 1];
      if StopsWith(plan, f, t) then (rest.0, rest.1 + [f]) else (rest.0 + [f], rest.1)
  }

  lemma {:induction false} SplitFacts(plan: Plan, fs: seq<Finding>, t: string)
    ensures var s := Split(plan, fs, t);
            && multiset(s.0 + s.1) == multiset(fs)
            && (forall f | f in s.0 :: !StopsWith(plan, f, t)) && (forall f | f in s.1 :: StopsWith(plan, f, t))
  {
    hide StopsWith;
    if fs != [] {
      SplitFacts(plan, fs[..|fs| - 1], t);
      assert fs == fs[..|fs| - 1] + [fs[|fs| - 1]];
    }
  }

  /** With the other findings first, a text that is not always a reason is none. */
  lemma OthersFirst(plan: Plan, fs: seq<Finding>, t: string)
    requires !AlwaysStops(plan, fs, t)
    ensures var s := Split(plan, fs, t); !StoppedBy(plan, s.0 + s.1, t)
  {
    hide Key, Tidy, Stops, AlwaysStops;
    var s := Split(plan, fs, t);
    forall i | FirstOfKey(s.0 + s.1, i) ensures !StopsWith(plan, (s.0 + s.1)[i], t) {
      OthersFirstAt(plan, fs, t, i);
    }
  }

  lemma OthersFirstAt(plan: Plan, fs: seq<Finding>, t: string, i: int)
    requires !AlwaysStops(plan, fs, t)
    requires var s := Split(plan, fs, t); FirstOfKey(s.0 + s.1, i)
    ensures var s := Split(plan, fs, t); !StopsWith(plan, (s.0 + s.1)[i], t)
  {
    hide Key, Tidy, StopsWith, Split, SameKey, FirstOfKey;
    var s := Split(plan, fs, t);
    var all := s.0 + s.1;
    SplitMembers(plan, fs, t);
    FirstIsIndex(all, i);
    var g := all[i];
    assert g in all;
    var h :| h in fs && SameKey(h, g) && !StopsWith(plan, h, t);
    assert h in all && h !in s.1;
    var j :| 0 <= j < |s.0| && s.0[j] == h;
    assert all[j] == h;
    FirstIsNotAfter(all, i, j);
    assert all[i] == s.0[i];
  }

  lemma SplitMembers(plan: Plan, fs: seq<Finding>, t: string)
    ensures var s := Split(plan, fs, t);
            (forall f :: f in s.0 + s.1 <==> f in fs)
            && (forall f | f in s.0 :: !StopsWith(plan, f, t)) && (forall f | f in s.1 :: StopsWith(plan, f, t))
  {
    hide StopsWith, Split;
    SplitFacts(plan, fs, t);
    var s := Split(plan, fs, t);
    SameMembers(s.0 + s.1, fs);
  }

  lemma FirstIsNotAfter(fs: seq<Finding>, i: int, j: nat)
    requires FirstOfKey(fs, i) && j < |fs| && SameKey(fs[j], fs[i])
    ensures i <= j
  {
    hide Key, Tidy;
  }

  lemma SameMembers(fs: seq<Finding>, gs: seq<Finding>)
    requires multiset(fs) == multiset(gs)
    ensures forall f :: f in fs <==> f in gs
  {
    assert forall f :: f in fs <==> f in multiset(fs);
  }

  /** Where the order is free, the reasons are the fixed texts and those that always stop the plan. */
  lemma FreeReasons(plan: Plan, fs: seq<Finding>, gs: seq<Finding>, fixed: set<string>, t: string)
    requires OrderFree(plan, fs, fixed) && multiset(gs) == multiset(fs)
    ensures t in fixed || StoppedBy(plan, gs, t) <==> t in fixed || AlwaysStops(plan, fs, t)
  {
    hide Key, Tidy, Stops;
    SameMembers(gs, fs);
    if StoppedBy(plan, gs, t) {
      var i :| FirstOfKey(gs, i) && Stops(plan, Tidy(gs[i])) && Tidy(gs[i]).message == t;
      assert gs[i] in gs && StopsWith(plan, gs[i], t);
    }
    if AlwaysStops(plan, fs, t) {
      var g :| g in fs && Tidy(g).message != "" && forall h | h in fs && SameKey(h, g) :: StopsWith(plan, h, t);
      var i := FirstExists(gs, g);
      assert gs[i] in gs;
    }
  }

  /** The same reasons for every order of the findings. */
  ghost predicate OrderIrrelevant(plan: Plan, c: Critic, fixed: set<string>) {
    forall fs | multiset(fs) == multiset(c.findings) ::
      FatalReasons(plan, c.(findings := fs), fixed) == FatalReasons(plan, c, fixed)
  }

  /** The reasons are the same for every order of the findings exactly when each text some finding could stop
      the plan with is given by the plan itself, or is what all findings of some key stop it with. */
  lemma OrderIrrelevantIff(plan: Plan, c: Critic, fixed: set<string>)
    ensures OrderIrrelevant(plan, c, fixed) <==> OrderFree(plan, c.findings, fixed)
  {
    hide FatalReasons, StopsWith, StoppedBy, AlwaysStops;
    if OrderFree(plan, c.findings, fixed) {
      forall fs | multiset(fs) == multiset(c.findings)
        ensures FatalReasons(plan, c.(findings := fs), fixed) == FatalReasons(plan, c, fixed)
      {
        ReasonsAreFirsts(plan, c, fixed);
        ReasonsAreFirsts(plan, c.(findings := fs), fixed);
        forall t ensures t in FatalReasons(plan, c.(findings := fs), fixed) <==> t in FatalReasons(plan, c, fixed) {
          FreeReasons(plan, c.findings, fs, fixed, t);
          FreeReasons(plan, c.findings, c.findings, fixed, t);
        }
        SameReasons(plan, c.(findings := fs), c, fixed);
      }
    } else {
      var f, t :| f in c.findings && StopsWith(plan, f, t) && t !in fixed && !AlwaysStops(plan, c.findings, t);
      var s := Split(plan, c.findings, t);
      var first := PutFirst(c.findings, f);
      SplitFacts(plan, c.findings, t);
      OthersFirst(plan, c.findings, t);
      FirstStops(plan, first, t);
      ReasonsAreFirsts(plan, c.(findings := first), fixed);
      ReasonsAreFirsts(plan, c.(findings := s.0 + s.1), fixed);
      assert t in FatalReasons(plan, c.(findings := first), fixed);
      assert t !in FatalReasons(plan, c.(findings := s.0 + s.1), fixed);
    }
  }

  lemma SameReasons(plan: Plan, c: Critic, d: Critic, fixed: set<string>)
    requires forall t :: t in FatalReasons(plan, c, fixed) <==> t in FatalReasons(plan, d, fixed)
    ensures FatalReasons(plan, c, fixed) == FatalReasons(plan, d, fixed)
  {
    hide Findings, Texts, IsFatal, NeedsGate;
    var a, b := FatalReasons(plan, c, fixed), FatalReasons(plan, d, fixed);
    SortedUnique(a, Elements(a));
    SortedUnique(b, Elements(a));
  }

  lemma PutFirst(fs: seq<Finding>, f: Finding) returns (first: seq<Finding>)
    requires f in fs
    ensures multiset(first) == multiset(fs) && first != [] && first[0] == f
  {
    var k :| 0 <= k < |fs| && fs[k] == f;
    first := [f] + fs[..k] + fs[k + 1..];
    assert fs == fs[..k] + [f] + fs[k + 1..];
  }

  lemma FirstStops(plan: Plan, fs: seq<Finding>, t: string)
    requires fs != [] && StopsWith(plan, fs[0], t)
    ensures StoppedBy(plan, fs, t)
  {
    hide Key, Tidy, Stops;
    assert FirstOfKey(fs, 0);
  }

  /** Of two tidy findings with one key the first decides alone. */
  lemma FirstDecides(plan: Plan, f: Finding, g: Finding)
    requires IsTidy(f) && IsTidy(g) && Key(f) == Key(g)
    ensures FatalReasons(plan, Critic([f, g], [], [], []), {}) == if Stops(plan, f) then [f.message] else []
  {
    hide Key, Tidy, Stops, FatalReasons;
    var c := Critic([f, g], [], [], []);
    ReasonsAreFirsts(plan, c, {});
    assert FirstOfKey(c.findings, 0) && !FirstOfKey(c.findings, 1);
    forall t ensures t in FatalReasons(plan, c, {}) <==> Stops(plan, f) && t == f.message {
    }
    ReasonsSorted(plan, c, if Stops(plan, f) then [f.message] else []);
  }

  lemma ReasonsSorted(plan: Plan, c: Critic, r: seq<string>)
    requires |r| <= 1 && forall t :: t in FatalReasons(plan, c, {}) <==> t in r
    ensures FatalReasons(plan, c, {}) == r
  {
    hide Findings, Texts, IsFatal, NeedsGate;
    SortedUnique(FatalReasons(plan, c, {}), Elements(r));
    SortedUnique(r, Elements(r));
  }

  /** The key leaves out whether a finding is recoverable, so a recoverable twin in front of a blocking finding
      takes the block away. */
  lemma FirstTwinDecides(plan: Plan, f: Finding)
    requires IsTidy(f) && !Satisfied(plan, f) && !NeedsGate(plan, f)
    requires f.severity == BLOCKING && !f.recoverable
    ensures var twin := f.(recoverable := true);
            && FatalReasons(plan, Critic([f, twin], [], [], []), {}) == [f.message]
            && FatalReasons(plan, Critic([twin, f], [], [], []), {}) == []
  {
    hide Trim, Satisfied, FatalReasons;
    var twin := f.(recoverable := true);
    assert Satisfied(plan, twin) == Satisfied(plan, f) && NeedsGate(plan, twin) == NeedsGate(plan, f) by {
      SameButRecoverable(plan, f, twin);
    }
    FirstDecides(plan, f, twin);
    FirstDecides(plan, twin, f);
  }

  lemma SameButRecoverable(plan: Plan, f: Finding, twin: Finding)
    requires twin == f.(recoverable := true)
    ensures Satisfied(plan, twin) == Satisfied(plan, f) && NeedsGate(plan, twin) == NeedsGate(plan, f)
  {
  }

  const COLLIDES := Finding(MISSING_ENTRY_SCENARIO, BLOCKING, "b|c", "a", false)
  const COLLIDER := Finding(MISSING_ENTRY_SCENARIO, BLOCKING, "c", "a|b", true)

  /** The key joins fields that may hold bars themselves, so even a different finding, with another path and
      another message, takes a block away. */
  lemma KeysCollide(plan: Plan)
    ensures Key(COLLIDES) == Key(COLLIDER) && COLLIDES.message != COLLIDER.message
    ensures FatalReasons(plan, Critic([COLLIDES, COLLIDER], [], [], []), {}) == [COLLIDES.message]
    ensures FatalReasons(plan, Critic([COLLIDER, COLLIDES], [], [], []), {}) == []
  {
    hide Trim, FatalReasons;
    TrimFixed(MISSING_ENTRY_SCENARIO, IsSpace);
    TrimFixed(BLOCKING, IsSpace);
    TrimFixed("b|c", IsSpace);
    TrimFixed("c", IsSpace);
    TrimFixed("a", IsSpace);
    TrimFixed("a|b", IsSpace);
    FirstDecides(plan, COLLIDES, COLLIDER);
    FirstDecides(plan, COLLIDER, COLLIDES);
  }

  /** Filtering out what the plan satisfies never hides a reason to gate, with one exception: the plan
      counts its roles but leaves the number of nodes or the topology open. */
  lemma SatisfiedYetGated(plan: Plan, f: Finding)
    ensures (Satisfied(plan, f) && NeedsGate(plan, f))
            <==> (f.code == ROLE_CARDINALITY_GAP && RolesCounted(plan) && !AllowsRecoverableRefineGaps(plan)
                  && (plan.nodeCount <= 0 || TrimSpace(plan.topology) == "unspecified"))
  {
    hide MessageSatisfied, AllowsRecoverableRefineGaps, IsCanonicalContract, IsJoinHandoff, RequiresKind, Trim;
    if ArtifactsCovered(plan) {
      var k :| k in RequiredKinds(plan);
      var c :| c in plan.artifactContracts && IsCanonicalContract(plan, c, k);
    }
    if JoinHandedOff(plan) {
      var c :| c in plan.sharedStateContracts && IsJoinHandoff(c);
    }
  }

  /** A structured finding with a message is left exactly when the plan does not satisfy it and it is what the
      first finding of its key comes to. */
  lemma FindingIsLeftIff(plan: Plan, c: Critic, f: Finding)
    requires f in c.findings && Tidy(f).message != ""
    ensures Tidy(f) in Findings(plan, c) <==>
            !Satisfied(plan, Tidy(f)) && exists i :: FirstOfKey(c.findings, i) && Tidy(c.findings[i]) == Tidy(f)
  {
    hide Key, Satisfied, WithLegacy, Dedupe, Tidy;
    var all := WithLegacy(c);
    DedupeKeepsFirsts(all);
    WithLegacyFacts(c);
    var k := FirstExists(c.findings, f);
    StructuredComeFirst(c, k);
    if i :| FirstOfKey(all, i) && Tidy(all[i]) == Tidy(f) {
      assert SameKey(all[i], f) && SameKey(all[k], f);
      assert i == k;
    }
    if i :| FirstOfKey(c.findings, i) && Tidy(c.findings[i]) == Tidy(f) {
      StructuredComeFirst(c, i);
    }
  }

  /** Every key of a structured finding with a message is left, if perhaps with another finding, unless the
      plan satisfies the first finding of the key. */
  lemma KeyIsAnswered(plan: Plan, c: Critic, f: Finding)
    requires f in c.findings && Tidy(f).message != ""
    ensures exists i :: FirstOfKey(c.findings, i) && SameKey(c.findings[i], f) &&
              (Tidy(c.findings[i]) in Findings(plan, c) || Satisfied(plan, Tidy(c.findings[i])))
  {
    hide Satisfied, Key, Tidy;
    var i := FirstExists(c.findings, f);
    assert c.findings[i] in c.findings;
    FindingIsLeftIff(plan, c, c.findings[i]);
  }

  // ---------------------------------------------------------------------------------------------
  // The loops

  /** dedupePlanCriticFindings */
  method DedupePlanCriticFindings(fs: seq<Finding>) returns (out: seq<Finding>)
    ensures out == Dedupe([], fs)
  {
    hide Key, Tidy;
    var seen: set<string> := {};
    out := [];
    for i := 0 to |fs|
      invariant out == Dedupe([], fs[..i])
      invariant forall key :: key in seen <==> HasKey(out, key)
    {
      var f := Tidy(fs[i]);
      assert fs[..i + 1][..i] == fs[..i];
      if f.message != "" && Key(f) !in seen {
        HasKeyStep(out, f);
        seen, out := seen + {Key(f)}, out + [f];
      }
    }
    assert fs[..|fs|] == fs;
  }

  lemma HasKeyStep(out: seq<Finding>, f: Finding)
    ensures forall key :: HasKey(out + [f], key) <==> HasKey(out, key) || key == Key(f)
  {
    hide Key;
    var later := out + [f];
    forall key ensures HasKey(later, key) <==> HasKey(out, key) || key == Key(f) {
      assert f in later && forall g | g in out :: g in later;
      if HasKey(later, key) {
        var g :| g in later && Key(g) == key;
        assert g in out || g == f;
      }
    }
  }

  /** appendLegacy */
  method AppendLegacy(fs: seq<Finding>, seen0: set<string>, texts: seq<string>, severity: string)
    returns (out: seq<Finding>, seen: set<string>)
    requires forall key :: key in seen0 <==> HasKey(fs, key)
    ensures out == AddLegacy(fs, texts, severity)
    ensures forall key :: key in seen <==> HasKey(out, key)
  {
    hide Key, HasKey, TrimSpace;
    out, seen := fs, seen0;
    for i := 0 to |texts|
      invariant out == AddLegacy(fs, texts[..i], severity)
      invariant forall key :: key in seen <==> HasKey(out, key)
    {
      assert texts[..i + 1][..i] == texts[..i];
      LastLegacy(fs, texts[..i + 1], severity);
      var text := TrimSpace(texts[i]);
      var f := Legacy(text, severity);
      if text != "" && Key(f) !in seen {
        HasKeyStep(out, f);
        out, seen := out + [f], seen + {Key(f)};
      }
    }
    assert texts[..|texts|] == texts;
  }

  /** normalizedPlanCriticFindings */
  method NormalizedPlanCriticFindings(plan: Plan, c: Critic) returns (filtered: seq<Finding>)
    ensures filtered == Findings(plan, c)
  {
    hide Key, HasKey, AddLegacy, Dedupe, Satisfied;
    var fs := c.findings;
    var seen: set<string> := {};
    NoKey();
    for i := 0 to |c.findings|
      invariant forall key :: key in seen <==> HasKey(c.findings[..i], key)
    {
      assert c.findings[..i + 1] == c.findings[..i] + [c.findings[i]];
      HasKeyStep(c.findings[..i], c.findings[i]);
      seen := seen + {Key(c.findings[i])};
    }
    assert c.findings[..|c.findings|] == c.findings;
    fs, seen := AppendLegacy(fs, seen, c.blocking, BLOCKING);
    fs, seen := AppendLegacy(fs, seen, c.advisory, ADVISORY);
    fs, seen := AppendLegacy(fs, seen, c.missingContracts, MISSING_CONTRACT);
    fs := DedupePlanCriticFindings(fs);
    filtered := [];
    for i := 0 to |fs|
      invariant filtered == Unsatisfied(plan, fs[..i])
    {
      assert fs[..i + 1][..i] == fs[..i];
      if !Satisfied(plan, fs[i]) {
        filtered := filtered + [fs[i]];
      }
    }
    assert fs[..|fs|] == fs;
  }

  lemma NoKey()
    ensures forall key :: !HasKey([], key)
  {
  }

  function Elements(texts: seq<string>): set<string> {
    set t | t in texts
  }

  /** One more finding adds its text to the class it belongs to. */
  lemma TextsStep(fs: seq<Finding>, i: nat, class_: Finding -> bool)
    requires i < |fs|
    ensures var text := TrimSpace(fs[i].message);
            Texts(fs[..i + 1], class_) == Texts(fs[..i], class_) + if text != "" && class_(fs[i]) then {text} else {}
  {
    hide TrimSpace;
    assert fs[..i + 1] == fs[..i] + [fs[i]];
    assert fs[i] in fs[..i + 1] && forall f | f in fs[..i] :: f in fs[..i + 1];
    assert forall f | f in fs[..i + 1] :: f in fs[..i] || f == fs[i];
  }

  /** normalizePlanCritic */
  method NormalizePlanCritic(plan: Plan, c: Critic) returns (n: Critic)
    ensures n == Normalize(plan, c)
  {
    hide TrimSpace, Texts, IsFatal, IsRecoverable, Findings, Sorted;
    var fs := NormalizedPlanCriticFindings(plan, c);
    var blocking: seq<string>, advisory: seq<string>, missing: seq<string> := [], [], [];
    NoTexts();
    for i := 0 to |fs|
      invariant Elements(blocking) == Texts(fs[..i], IsFatal)
      invariant Elements(advisory) == Texts(fs[..i], IsAdvisory)
      invariant Elements(missing) == Texts(fs[..i], IsMissingContract)
    {
      var text := TrimSpace(fs[i].message);
      TextsStep(fs, i, IsFatal);
      TextsStep(fs, i, IsAdvisory);
      TextsStep(fs, i, IsMissingContract);
      if text != "" {
        if IsFatal(fs[i]) {
          blocking := blocking + [text];
        } else if fs[i].severity == MISSING_CONTRACT && !IsRecoverable(fs[i]) {
          missing := missing + [text];
        } else {
          advisory := advisory + [text];
        }
      }
    }
    assert fs[..|fs|] == fs;
    var sortedBlocking := SortStrings(Elements(blocking));
    var sortedMissing := SortStrings(Elements(missing));
    var sortedAdvisory := SortStrings(Elements(advisory));
    n := Critic(fs, sortedBlocking, sortedAdvisory, sortedMissing);
  }

  lemma NoTexts()
    ensures forall class_ :: Texts([], class_) == {}
    ensures Elements([]) == {}
  {
  }

  /** fatalPlanReviewReasons; fixed holds the reasons the plan gives by itself. */
  method FatalPlanReviewReasons(plan: Plan, c: Critic, fixed: set<string>) returns (reasons: seq<string>)
    ensures reasons == FatalReasons(plan, c, fixed)
  {
    hide TrimSpace, Texts, IsFatal, NeedsGate, Findings, Sorted;
    var fs := NormalizedPlanCriticFindings(plan, c);
    var found: seq<string> := [];
    ghost var fatal := f => IsFatal(f) || NeedsGate(plan, f);
    NoTexts();
    for i := 0 to |fs|
      invariant Elements(found) == Texts(fs[..i], fatal)
    {
      TextsStep(fs, i, fatal);
      if IsFatal(fs[i]) || NeedsGate(plan, fs[i]) {
        var text := TrimSpace(fs[i].message);
        if text != "" {
          found := found + [text];
        }
      }
    }
    assert fs[..|fs|] == fs;
    SameClass(fs, fatal, f => IsFatal(f) || NeedsGate(plan, f));
    reasons := SortStrings(Elements(found) + fixed);
  }
}
