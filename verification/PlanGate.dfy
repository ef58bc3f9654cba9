/** What stops a plan, told by the plan: which entries, filled in or left open, make a finding stop it. */
module PlanGate {
  import opened Text
  import opened PlanReview

  /** A critic with this finding and nothing else. */
  function Only(f: Finding): Critic {
    Critic([f], [], [], [])
  }

  /** The reasons to stop the plan on account of the finding alone. */
  ghost function Reasons(plan: Plan, f: Finding): seq<string> {
    FatalReasons(plan, Only(f), {})
  }

  predicate IsBlank(s: string) {
    TrimSpace(s) == ""
  }

  /** A finding that is only a hint: fields trimmed, with a text, marked recoverable. */
  predicate IsHint(f: Finding) {
    IsTidy(f) && f.recoverable
  }

  /** An unrecoverable blocking finding. */
  predicate IsBlock(f: Finding) {
    IsTidy(f) && !f.recoverable && f.severity == BLOCKING
  }

  predicate IsDraft(plan: Plan) {
    ToLower(TrimSpace(plan.intent)) != "refine" && ToLower(TrimSpace(plan.routeIntent)) != "refine"
  }

  /** Anything in the plan that takes nodes of more than one role. */
  predicate ManyRoles(plan: Plan) {
    TrimSpace(plan.topology) in {"multi-node", "ha"} || plan.nodeCount > 1 || !IsBlank(plan.workerFlow)
    || plan.perNodeInvocation || exists c | c in plan.capabilities :: TrimSpace(c) == "kubeadm-join"
  }

  // ---------------------------------------------------------------------------------------------
  // One finding

  lemma {:induction false} OneKept(plan: Plan, f: Finding)
    requires IsTidy(f)
    ensures Findings(plan, Only(f)) == if Satisfied(plan, f) then [] else [f]
  {
    hide Tidy, Satisfied, Key;
    var c := Only(f);
    assert WithLegacy(c) == [f];
    assert [f][..0] == [];
    assert Dedupe([], []) == [] && Dedupe([], [f]) == AddTidy([], f) == [f];
    assert Unsatisfied(plan, []) == [];
  }

  lemma SortedOne(x: string)
    ensures Sorted({x}) == [x] && Sorted({}) == []
  {
    SortedUnique([x], {x});
    SortedUnique([], {});
  }

  /** A finding that is satisfied is no reason; another one is, if it is fatal or gated. */
  lemma ReasonsOfOne(plan: Plan, f: Finding)
    requires IsTidy(f)
    ensures Reasons(plan, f)
         == if !Satisfied(plan, f) && (IsFatal(f) || NeedsGate(plan, f)) then [f.message] else []
  {
    hide Satisfied, NeedsGate, IsFatal, Findings, Sorted, TrimSpace;
    OneKept(plan, f);
    SortedOne(f.message);
    TidyMessage(f);
    var stops := f => IsFatal(f) || NeedsGate(plan, f);
    var texts := Texts(Findings(plan, Only(f)), stops);
    assert texts == if !Satisfied(plan, f) && stops(f) then {f.message} else {};
    assert texts + {} == texts;
  }

  lemma TidyMessage(f: Finding)
    requires IsTidy(f)
    ensures TrimSpace(f.message) == f.message != "" && f.severity != ""
  {
    TidyIsStable(f);
  }

  lemma ManyRolesIs(plan: Plan)
    ensures NeedsMultiRole(plan) == ManyRoles(plan)
    ensures AllowsRecoverableRefineGaps(plan) == !IsDraft(plan)
  {
    hide TrimSpace, ToLower;
  }

  // ---------------------------------------------------------------------------------------------
  // Hints: what must be filled in for them to let the plan through

  /** Hints never stop a refinement, whatever their code. */
  lemma RefineIsNotGated(plan: Plan, f: Finding)
    requires IsHint(f) && !IsDraft(plan)
    ensures Reasons(plan, f) == []
  {
    hide TrimSpace, Satisfied, ManyRoles, NeedsMultiRole;
    ManyRolesIs(plan);
    ReasonsOfOne(plan, f);
  }

  const GATED := {MISSING_ROLE_SELECTOR, MISSING_ARTIFACT_CONSUMER, ARTIFACT_CONTRACT_GAP, AMBIGUOUS_JOIN,
                  JOIN_FANOUT_GAP, ROLE_CARDINALITY_GAP, TOPOLOGY_GAP, WEAK_VERIFICATION}

  /** Neither does a hint of any other code stop any plan. */
  lemma OtherCodesAreNotGated(plan: Plan, f: Finding)
    requires IsHint(f) && f.code !in GATED
    ensures Reasons(plan, f) == []
  {
    hide TrimSpace, Satisfied;
    ReasonsOfOne(plan, f);
  }

  /** A missing role selector stops a plan with many roles until the selector is filled in. */
  lemma RoleSelectorDecides(plan: Plan, f: Finding, selector: string)
    requires IsHint(f) && f.code == MISSING_ROLE_SELECTOR && IsDraft(plan)
    ensures Reasons(plan.(roleSelector := selector), f)
         == if ManyRoles(plan) && IsBlank(selector) then [f.message] else []
  {
    hide TrimSpace, NeedsMultiRole, ManyRoles, AllowsRecoverableRefineGaps;
    var p := plan.(roleSelector := selector);
    SameRoles(plan, p);
    ReasonsOfOne(p, f);
  }

  /** A gap in the artifact contracts stops a plan that prepares artifacts until there is a contract. */
  lemma ArtifactContractsDecide(plan: Plan, f: Finding, contracts: seq<PlanReview.ArtifactContract>)
    requires IsHint(f) && f.code in {ARTIFACT_CONTRACT_GAP, MISSING_ARTIFACT_CONSUMER} && IsDraft(plan)
    ensures Reasons(plan.(artifactContracts := contracts), f)
         == if (plan.needsPrepare || plan.artifactKinds != []) && contracts == [] then [f.message] else []
  {
    hide TrimSpace, NormalKind, NeedsMultiRole, ManyRoles, AllowsRecoverableRefineGaps;
    var p := plan.(artifactContracts := contracts);
    SameRoles(plan, p);
    ReasonsOfOne(p, f);
  }

  /** A gap in the join contract stops a plan with many roles until some state is shared. */
  lemma SharedStateDecides(plan: Plan, f: Finding, contracts: seq<SharedStateContract>)
    requires IsHint(f) && f.code in {AMBIGUOUS_JOIN, JOIN_FANOUT_GAP} && IsDraft(plan)
    ensures Reasons(plan.(sharedStateContracts := contracts), f)
         == if ManyRoles(plan) && contracts == [] then [f.message] else []
  {
    hide TrimSpace, IsJoinHandoff, NeedsMultiRole, ManyRoles, AllowsRecoverableRefineGaps;
    var p := plan.(sharedStateContracts := contracts);
    SameRoles(plan, p);
    ReasonsOfOne(p, f);
  }

  /** Neither roles nor intent hang on selectors, contracts or expected nodes. */
  lemma SameRoles(plan: Plan, p: Plan)
    requires p.topology == plan.topology && p.nodeCount == plan.nodeCount && p.workerFlow == plan.workerFlow
    requires p.perNodeInvocation == plan.perNodeInvocation && p.capabilities == plan.capabilities
    requires p.intent == plan.intent && p.routeIntent == plan.routeIntent
    ensures NeedsMultiRole(p) == ManyRoles(p) == ManyRoles(plan)
    ensures AllowsRecoverableRefineGaps(p) == !IsDraft(plan)
  {
    hide TrimSpace, ToLower;
    ManyRolesIs(p);
  }

  lemma SameIntent(plan: Plan, p: Plan)
    requires p.intent == plan.intent && p.routeIntent == plan.routeIntent
    ensures IsDraft(p) == IsDraft(plan)
  {
  }

  lemma CountedIs(plan: Plan)
    ensures RolesCounted(plan) == Counted(plan)
  {
    hide TrimSpace, NeedsMultiRole, ManyRoles;
    ManyRolesIs(plan);
  }

  /** The roles are counted, by a selector and numbers that add up. */
  predicate Counted(plan: Plan) {
    ManyRoles(plan) && plan.controlPlaneCount > 0 && plan.workerCount > 0 && !IsBlank(plan.roleSelector)
    && (plan.nodeCount <= 0 || plan.controlPlaneCount + plan.workerCount == plan.nodeCount)
  }

  /** A gap in topology or cardinality stops a plan with many roles until both node count and topology are given;
      one in cardinality also once the roles are counted. */
  lemma NodeCountDecides(plan: Plan, f: Finding, nodes: int, topology: string)
    requires IsHint(f) && f.code in {ROLE_CARDINALITY_GAP, TOPOLOGY_GAP} && IsDraft(plan)
    ensures var p := plan.(nodeCount := nodes, topology := topology);
            var open := ManyRoles(p) && (nodes <= 0 || TrimSpace(topology) == "unspecified");
            var settled := f.code == ROLE_CARDINALITY_GAP && Counted(p);
            Reasons(p, f) == if open && !settled then [f.message] else []
  {
    hide TrimSpace, NeedsMultiRole, ManyRoles, AllowsRecoverableRefineGaps, RolesCounted, Counted, IsDraft;
    var p := plan.(nodeCount := nodes, topology := topology);
    assert IsDraft(p) by { SameIntent(plan, p); }
    ManyRolesIs(p);
    CountedIs(p);
    ReasonsOfOne(p, f);
  }

  /** Anything in the plan that is verified in stages. */
  predicate HasStages(plan: Plan) {
    plan.needsPrepare || plan.artifactKinds != [] || plan.artifactContracts != [] || ManyRoles(plan)
    || TrimSpace(plan.modeIntent) == "prepare+apply"
    || exists c | c in plan.capabilities :: TrimSpace(c) == "kubeadm-bootstrap"
  }

  lemma HasStagesIs(plan: Plan)
    ensures NeedsStagedVerification(plan) == HasStages(plan)
  {
    hide TrimSpace;
  }

  lemma SameStages(plan: Plan, nodes: int)
    ensures HasStages(plan.(expectedNodeCount := nodes)) == HasStages(plan)
  {
    hide TrimSpace;
  }

  /** Weak verification stops a plan that stages anything until the number of nodes to expect is given. */
  lemma ExpectedNodesDecide(plan: Plan, f: Finding, nodes: int)
    requires IsHint(f) && f.code == WEAK_VERIFICATION && IsDraft(plan)
    ensures Reasons(plan.(expectedNodeCount := nodes), f)
         == if HasStages(plan) && nodes <= 0 then [f.message] else []
  {
    hide TrimSpace, IsJoinHandoff, NeedsMultiRole, ManyRoles, AllowsRecoverableRefineGaps, NeedsStagedVerification,
         HasStages, JoinHandedOff, RolesCounted;
    var p := plan.(expectedNodeCount := nodes);
    SameRoles(plan, p);
    HasStagesIs(p);
    SameStages(plan, nodes);
    ReasonsOfOne(p, f);
  }

  // ---------------------------------------------------------------------------------------------
  // Blocks: what the plan must provide for them to count as settled

  const SETTLED := {ARTIFACT_CONTRACT_GAP, MISSING_ARTIFACT_CONSUMER, AMBIGUOUS_JOIN, JOIN_FANOUT_GAP,
                    ROLE_CARDINALITY_GAP, WEAK_VERIFICATION, UNCLASSIFIED}

  /** A block of any other code stops every plan. */
  lemma BlocksStop(plan: Plan, f: Finding)
    requires IsBlock(f) && f.code !in SETTLED
    ensures Reasons(plan, f) == [f.message]
  {
    hide TrimSpace, NeedsGate;
    TidyMessage(f);
    ReasonsOfOne(plan, f);
  }

  /** An unrecoverable finding of another severity stops no plan unless its code is gated. */
  lemma OnlyBlocksStop(plan: Plan, f: Finding)
    requires IsTidy(f) && !f.recoverable && f.severity != BLOCKING && f.code !in GATED
    ensures Reasons(plan, f) == []
  {
    hide TrimSpace, Satisfied;
    TidyMessage(f);
    ReasonsOfOne(plan, f);
  }

  /** The shared state is a join file, published for the workers by and for places outside the workflows. */
  predicate PublishesJoin(c: SharedStateContract) {
    Contains(ToLower(TrimSpace(c.name)), "join") && TrimSpace(c.availabilityModel) == "published-for-worker-consumption"
    && !IsBlank(c.producerPath) && !HasPrefix(TrimSpace(c.producerPath), "workflows/")
    && (exists p | p in c.consumerPaths :: !IsBlank(p))
    && forall p | p in c.consumerPaths :: !HasPrefix(TrimSpace(p), "workflows/")
  }

  predicate HandsOver(plan: Plan) {
    ManyRoles(plan) && !IsBlank(plan.roleSelector) && !IsBlank(plan.joinFile)
    && exists c | c in plan.sharedStateContracts :: PublishesJoin(c)
  }

  lemma HandsOverIs(plan: Plan)
    ensures JoinHandedOff(plan) == HandsOver(plan)
  {
    hide TrimSpace, Contains, HasPrefix, NeedsMultiRole, ManyRoles, IsJoinHandoff, PublishesJoin;
    ManyRolesIs(plan);
    forall c ensures IsJoinHandoff(c) == PublishesJoin(c) {
      PublishesJoinIs(c);
    }
  }

  lemma PublishesJoinIs(c: SharedStateContract)
    ensures IsJoinHandoff(c) == PublishesJoin(c)
  {
    hide TrimSpace, Contains, HasPrefix;
  }

  /** A block on the join contract is settled exactly by a plan with many roles, a role selector, a join file, and
      a contract that publishes one. */
  lemma JoinBlockSettledIff(plan: Plan, f: Finding)
    requires IsBlock(f) && f.code in {AMBIGUOUS_JOIN, JOIN_FANOUT_GAP}
    ensures Reasons(plan, f) == if HandsOver(plan) then [] else [f.message]
  {
    hide TrimSpace, NeedsGate, JoinHandedOff, HandsOver, RolesCounted, Counted;
    TidyMessage(f);
    HandsOverIs(plan);
    CountedIs(plan);
    ReasonsOfOne(plan, f);
  }

  /** A block on role cardinality is settled exactly by roles that are counted. */
  lemma CardinalityBlockSettledIff(plan: Plan, f: Finding)
    requires IsBlock(f) && f.code == ROLE_CARDINALITY_GAP
    ensures Reasons(plan, f) == if Counted(plan) then [] else [f.message]
  {
    hide TrimSpace, NeedsGate, RolesCounted, Counted;
    TidyMessage(f);
    CountedIs(plan);
    ReasonsOfOne(plan, f);
  }

  /** Roles and join are settled, and the final check knows what to expect and where. */
  predicate Staged(plan: Plan) {
    HandsOver(plan) && Counted(plan) && plan.expectedNodeCount > 0 && plan.expectedControlPlaneReady > 0
    && TrimSpace(plan.finalVerificationRole) == "control-plane"
  }

  lemma StagedIs(plan: Plan)
    ensures VerificationStaged(plan) == Staged(plan)
  {
    hide TrimSpace, JoinHandedOff, HandsOver, RolesCounted, Counted;
    HandsOverIs(plan);
    CountedIs(plan);
  }

  /** A block on verification is settled exactly by a plan that is staged in this sense. */
  lemma VerificationBlockSettledIff(plan: Plan, f: Finding)
    requires IsBlock(f) && f.code == WEAK_VERIFICATION
    ensures Reasons(plan, f) == if Staged(plan) then [] else [f.message]
  {
    hide TrimSpace, NeedsGate, VerificationStaged, Staged;
    TidyMessage(f);
    StagedIs(plan);
    ReasonsOfOne(plan, f);
  }

  /** The contract takes artifacts of the kind from the prepare workflow to the entry scenario, or to the usual one. */
  predicate Delivers(plan: Plan, c: PlanReview.ArtifactContract, kind: string) {
    ToLower(TrimSpace(c.kind)) == kind && TrimSpace(c.producerPath) == "workflows/prepare.yaml"
    && (TrimSpace(c.consumerPath) == "workflows/scenarios/apply.yaml"
        || (!IsBlank(plan.entryScenario) && TrimSpace(c.consumerPath) == TrimSpace(plan.entryScenario)))
  }

  predicate Wants(plan: Plan, kind: string) {
    (exists a | a in plan.artifactKinds :: ToLower(TrimSpace(a)) == kind)
    || exists c | c in plan.artifactContracts :: ToLower(TrimSpace(c.kind)) == kind
  }

  predicate Delivered(plan: Plan, kind: string) {
    exists c | c in plan.artifactContracts :: Delivers(plan, c, kind)
  }

  predicate AllDelivered(plan: Plan) {
    && (Wants(plan, "package") || Wants(plan, "image"))
    && (Wants(plan, "package") ==> Delivered(plan, "package"))
    && (Wants(plan, "image") ==> Delivered(plan, "image"))
  }

  lemma DeliversIs(plan: Plan, c: PlanReview.ArtifactContract, kind: string)
    ensures IsCanonicalContract(plan, c, kind) == Delivers(plan, c, kind)
  {
    hide TrimSpace, ToLower;
  }

  lemma WantsIs(plan: Plan, kind: string)
    ensures RequiresKind(plan, kind) == Wants(plan, kind)
  {
    hide TrimSpace, ToLower;
  }

  lemma AllDeliveredIs(plan: Plan)
    ensures ArtifactsCovered(plan) == AllDelivered(plan)
  {
    hide Delivers, IsCanonicalContract, RequiresKind, Wants;
    forall c, kind ensures IsCanonicalContract(plan, c, kind) == Delivers(plan, c, kind) {
      DeliversIs(plan, c, kind);
    }
    WantsIs(plan, "package");
    WantsIs(plan, "image");
    assert "package" in RequiredKinds(plan) <==> Wants(plan, "package");
    assert "image" in RequiredKinds(plan) <==> Wants(plan, "image");
  }

  /** A block on artifact contracts is settled exactly when packages or images are wanted and each kind that is
      wanted is delivered by a contract. */
  lemma ArtifactBlockSettledIff(plan: Plan, f: Finding)
    requires IsBlock(f) && f.code in {ARTIFACT_CONTRACT_GAP, MISSING_ARTIFACT_CONSUMER}
    ensures Reasons(plan, f) == if AllDelivered(plan) then [] else [f.message]
  {
    hide TrimSpace, NeedsGate, ArtifactsCovered, AllDelivered;
    TidyMessage(f);
    AllDeliveredIs(plan);
    ReasonsOfOne(plan, f);
  }

  predicate Says(message: string, words: seq<string>) {
    exists w | w in words :: Contains(ToLower(TrimSpace(message)), w)
  }

  lemma SaysIs(message: string, words: seq<string>)
    ensures Mentions(ToLower(TrimSpace(message)), words) == Says(message, words)
  {
    hide TrimSpace, ToLower, Contains;
  }

  const ARTIFACT_WORDS := ["artifact contract", "artifact contract identifiers", "consumer bindings",
                           "artifact consumer"]
  const JOIN_WORDS := ["ambiguous_join_contract", "join handoff", "join publication", "join-file", "publish/consume",
                       "worker joins"]
  const ROLE_WORDS := ["role_cardinality_gap", "role cardinality", "1 control-plane", "1 worker", "role-count"]
  const VERIFICATION_WORDS := ["weak_verification_staging", "checkcluster", "final cluster validation",
                               "final verification", "execution order"]

  /** The text has words that speak of something the plan settles. */
  predicate SpeaksOfSettled(plan: Plan, message: string) {
    || (AllDelivered(plan) && Says(message, ARTIFACT_WORDS)) || (HandsOver(plan) && Says(message, JOIN_WORDS))
    || (Counted(plan) && Says(message, ROLE_WORDS)) || (Staged(plan) && Says(message, VERIFICATION_WORDS))
  }

  lemma SpeaksIs(plan: Plan, message: string)
    ensures MessageSatisfied(plan, message) == SpeaksOfSettled(plan, message)
  {
    hide TrimSpace, ToLower, Mentions, Says, ArtifactsCovered, AllDelivered, JoinHandedOff, HandsOver, RolesCounted,
         Counted, VerificationStaged, Staged;
    AllDeliveredIs(plan);
    HandsOverIs(plan);
    CountedIs(plan);
    StagedIs(plan);
    SaysIs(message, ARTIFACT_WORDS);
    SaysIs(message, JOIN_WORDS);
    SaysIs(message, ROLE_WORDS);
    SaysIs(message, VERIFICATION_WORDS);
  }

  /** A finding without a code goes by its text: it is settled exactly by what settles the findings its words
      speak of. */
  lemma UnclassifiedSettledIff(plan: Plan, f: Finding)
    requires IsBlock(f) && f.code == UNCLASSIFIED
    ensures Reasons(plan, f) == if SpeaksOfSettled(plan, f.message) then [] else [f.message]
  {
    hide TrimSpace, NeedsGate, MessageSatisfied, SpeaksOfSettled;
    TidyMessage(f);
    SpeaksIs(plan, f.message);
    ReasonsOfOne(plan, f);
  }

  // ---------------------------------------------------------------------------------------------
  // The three lists

  /** In which list the text of a finding ends up: blocks under blocking, missing contracts that nothing allows to
      recover under missing, all others under advisory; and in none if the plan settles it, as it then settles a
      block with the same code and text. */
  lemma ListOf(plan: Plan, f: Finding)
    requires IsTidy(f)
    ensures var c := Normalize(plan, Only(f));
            var settled := Reasons(plan, f.(severity := BLOCKING, recoverable := false)) == [];
            var blocks := !settled && !f.recoverable && f.severity == "blocking";
            var missing := !settled && !f.recoverable && f.severity == "missing_contract" && f.code !in MENDABLE;
            c.findings == (if settled then [] else [f])
            && c.blocking == (if blocks then [f.message] else [])
            && c.missingContracts == (if missing then [f.message] else [])
            && c.advisory == (if settled || blocks || missing then [] else [f.message])
  {
    hide TrimSpace, Findings, Sorted, NeedsGate, Satisfied, SpecFor, IsMissingContract, IsAdvisory, Texts;
    var block := f.(severity := BLOCKING, recoverable := false);
    BlockIsTidy(f);
    SettledAlike(plan, f);
    ReasonsOfOne(plan, block);
    OneKept(plan, f);
    TidyMessage(f);
    SortedOne(f.message);
    ClassOf(f);
    TextsOfOne(f, IsFatal);
    TextsOfOne(f, IsAdvisory);
    TextsOfOne(f, IsMissingContract);
  }

  lemma ClassOf(f: Finding)
    requires f.severity != ""
    ensures IsFatal(f) <==> !f.recoverable && f.severity == BLOCKING
    ensures IsMissingContract(f) <==> !f.recoverable && f.severity == MISSING_CONTRACT && f.code !in MENDABLE
    ensures IsAdvisory(f) <==> !IsFatal(f) && !IsMissingContract(f)
  {
  }

  lemma TextsOfOne(f: Finding, class_: Finding -> bool)
    requires TrimSpace(f.message) == f.message != ""
    ensures Texts([f], class_) == if class_(f) then {f.message} else {}
    ensures Texts([], class_) == {}
  {
    hide TrimSpace;
  }

  /** The codes that are registered as recoverable. */
  const MENDABLE := {ARTIFACT_CONTRACT_GAP, ROLE_CARDINALITY_GAP, AMBIGUOUS_JOIN, WEAK_VERIFICATION, TOPOLOGY_GAP,
                     JOIN_FANOUT_GAP, UNCLASSIFIED}

  lemma BlockIsTidy(f: Finding)
    requires IsTidy(f)
    ensures IsTidy(f.(severity := BLOCKING, recoverable := false))
  {
    hide Trim;
    TrimFixed(BLOCKING, IsSpace);
  }

  /** Whether a finding is settled hangs on its code and text alone. */
  lemma SettledAlike(plan: Plan, f: Finding)
    ensures Satisfied(plan, f.(severity := BLOCKING, recoverable := false)) == Satisfied(plan, f)
  {
    hide MessageSatisfied, ArtifactsCovered, JoinHandedOff, RolesCounted, VerificationStaged;
  }

  // ---------------------------------------------------------------------------------------------
  // Findings as they come

  /** A finding counts with its fields trimmed, as a hint of advisory severity if it gives none; and one without a
      text does not count. */
  lemma FindingsAreTidied(plan: Plan, raw: Finding)
    ensures var severity := if IsBlank(raw.severity) then "advisory" else TrimSpace(raw.severity);
            var f := Finding(TrimSpace(raw.code), severity, TrimSpace(raw.message), TrimSpace(raw.path),
                             raw.recoverable);
            if IsBlank(raw.message) then Reasons(plan, raw) == []
            else IsTidy(f) && Reasons(plan, raw) == Reasons(plan, f)
  {
    hide TrimSpace, Satisfied, NeedsGate, IsFatal, Sorted, Key;
    TidyIsStable(raw);
    assert [raw][..0] == [];
    assert WithLegacy(Only(raw)) == [raw];
    assert Dedupe([], []) == [];
    assert Dedupe([], [raw]) == AddTidy([], raw);
    var f := Tidy(raw);
    if f.message == "" {
      assert Findings(plan, Only(raw)) == [];
      SortedOne("");
      assert Texts([], g => IsFatal(g) || NeedsGate(plan, g)) + {} == {};
    } else {
      assert WithLegacy(Only(f)) == [f] && [f][..0] == [];
      assert Dedupe([], [f]) == AddTidy([], f) == [f];
      assert Findings(plan, Only(raw)) == Findings(plan, Only(f));
    }
  }

  /** A text on its own counts as a finding without a code, of the severity of its list, that is recoverable; a
      blank one does not count. */
  lemma TextsAreFindings(plan: Plan, text: string, severity: string)
    requires severity in {"blocking", "advisory", "missing_contract"}
    ensures var c := if severity == "blocking" then Critic([], [text], [], [])
                     else if severity == "advisory" then Critic([], [], [text], [])
                     else Critic([], [], [], [text]);
            var f := Finding("ask_unclassified_critic_finding", severity, TrimSpace(text), "", true);
            Normalize(plan, c) == (if IsBlank(text) then Critic([], [], [], []) else Normalize(plan, Only(f)))
  {
    hide TrimSpace, Dedupe, Unsatisfied, Sorted, Key, IsFatal, IsAdvisory, IsMissingContract, AddLegacy;
    TextAlone(text, severity);
    NoTexts();
    var f := Finding(UNCLASSIFIED, severity, TrimSpace(text), "", true);
    assert WithLegacy(Only(f)) == [f];
    if IsBlank(text) {
      SortedOne("");
      NothingLeft(plan);
    }
  }

  lemma NothingLeft(plan: Plan)
    ensures Unsatisfied(plan, Dedupe([], [])) == []
  {
  }

  lemma NoTexts()
    ensures forall fs, severity :: AddLegacy(fs, [], severity) == fs
  {
  }

  lemma TextAlone(text: string, severity: string)
    ensures var f := Finding(UNCLASSIFIED, severity, TrimSpace(text), "", true);
            AddLegacy([], [text], severity) == (if IsBlank(text) then [] else [f])
  {
    hide TrimSpace, Key;
    assert [text][..0] == [];
    assert AddLegacy([], [], severity) == [];
  }
}
