/** How the score of a step moves when one trait of the step or of the request changes. */
module ScoreFacts {
  import opened Text
  import opened StepGuidance

  ghost function Score(step: Step, lexical: Lexical, caps: set<string>, mode: string, topology: string): int {
    CandidateFor(step, lexical, caps, mode, topology).score
  }

  const PREPARE := "prepare-artifacts"
  const PACKAGES := "package-staging"
  const IMAGES := "image-staging"
  const PREPARE_AND_APPLY := "prepare+apply"

  lemma ScoreIs(step: Step, lexical: Lexical, caps: set<string>, mode: string, topology: string)
    ensures Score(step, lexical, caps, mode, topology)
         == lexical(step).0 - Penalty(step, caps, mode) + CapabilityPoints(step, caps)
            + StagePoints(step, caps, mode) + TopologyPoints(step, topology)
  {
    hide Penalty, CapabilityPoints, StagePoints, TopologyPoints, Tidied, SupportReasons, StageReasons, TopologyReasons,
         BaseReasons, ConfidenceFor;
  }

  /** A step supports the capabilities it lists, whatever blanks are around them, and never a blank one. */
  lemma SupportsIff(step: Step, c: string)
    ensures Supports(step, c) <==>
              TrimSpace(c) != "" && exists v | v in step.capabilities :: TrimSpace(v) == TrimSpace(c)
  {
    hide Trim;
    TrimIdempotent(c, IsSpace);
    assert TrimSpace(TrimSpace(c)) == TrimSpace(c);
  }

  /** Asking for one more capability that has nothing to do with staging artifacts adds its points to the steps
      that support it, and changes nothing for the others: 40 for joining, 30 for verifying and for repositories,
      28 for bootstrapping, 24 for any other. */
  lemma CapabilityAdds(
    step: Step, lexical: Lexical, caps: set<string>, c: string, mode: string, topology: string)
    requires c !in caps && c !in {PREPARE, PACKAGES, IMAGES}
    ensures Score(step, lexical, caps + {c}, mode, topology)
         == Score(step, lexical, caps, mode, topology)
            + if !Supports(step, c) then 0 else if c == "kubeadm-join" then 40
              else if c in {"cluster-verification", "repository-setup"} then 30
              else if c == "kubeadm-bootstrap" then 28 else 24
  {
    hide Supports, CapabilityPoints, Score, ContainsGuidance;
    ScoreIs(step, lexical, caps + {c}, mode, topology);
    ScoreIs(step, lexical, caps, mode, topology);
    TakeAny(step, caps + {c}, c);
    assert caps + {c} - {c} == caps;
  }

  /** Once artifacts are staged anyway, packages and images add 35. */
  lemma StagingAdds(step: Step, lexical: Lexical, caps: set<string>, c: string, mode: string, topology: string)
    requires c !in caps && c in {PACKAGES, IMAGES} && Staging(caps)
    ensures Score(step, lexical, caps + {c}, mode, topology)
         == Score(step, lexical, caps, mode, topology) + if Supports(step, c) then 35 else 0
  {
    hide Supports, CapabilityPoints, Score, ContainsGuidance;
    ScoreIs(step, lexical, caps + {c}, mode, topology);
    ScoreIs(step, lexical, caps, mode, topology);
    TakeAny(step, caps + {c}, c);
    assert caps + {c} - {c} == caps;
  }

  /** Asking for the first staging capability costs a Command 60 points, and in a prepare+apply request any step
      that has no prepare role 45; the steps that support it gain its points. */
  lemma FirstStagingCapability(
    step: Step, lexical: Lexical, caps: set<string>, c: string, mode: string, topology: string)
    requires c in {PACKAGES, IMAGES} && !Staging(caps)
    ensures Score(step, lexical, caps + {c}, mode, topology)
         == Score(step, lexical, caps, mode, topology) + (if Supports(step, c) then 35 else 0)
            - (if step.kind == "Command" then 60 else 0)
            - (if mode == PREPARE_AND_APPLY && !ContainsGuidance(step.allowedRoles, "prepare") then 45 else 0)
  {
    hide Supports, CapabilityPoints, Score, ContainsGuidance;
    ScoreIs(step, lexical, caps + {c}, mode, topology);
    ScoreIs(step, lexical, caps, mode, topology);
    TakeAny(step, caps + {c}, c);
    assert c !in caps && caps + {c} - {c} == caps;
  }

  /** Asking to prepare artifacts as well adds 24 to the steps that support it, and in a prepare+apply request 20
      to those that support any staging, and costs a Command 25. */
  lemma PreparingAdds(step: Step, lexical: Lexical, caps: set<string>, mode: string, topology: string)
    requires PREPARE !in caps && Staging(caps)
    ensures Score(step, lexical, caps + {PREPARE}, mode, topology)
         == Score(step, lexical, caps, mode, topology) + (if Supports(step, PREPARE) then 24 else 0)
            + if mode != PREPARE_AND_APPLY then 0
              else (if Supports(step, PREPARE) || Supports(step, PACKAGES) || Supports(step, IMAGES) then 20 else 0)
                   - (if step.kind == "Command" then 25 else 0)
  {
    hide Supports, CapabilityPoints, Score, ContainsGuidance;
    ScoreIs(step, lexical, caps + {PREPARE}, mode, topology);
    ScoreIs(step, lexical, caps, mode, topology);
    TakeAny(step, caps + {PREPARE}, PREPARE);
    assert caps + {PREPARE} - {PREPARE} == caps;
  }

  /** A topology of many nodes adds 35 to the steps that join nodes, and 18 to those that verify the cluster but do
      not join; no other topology adds anything. */
  lemma TopologyAdds(step: Step, lexical: Lexical, caps: set<string>, mode: string, topology: string)
    ensures Score(step, lexical, caps, mode, topology)
         == Score(step, lexical, caps, mode, "")
            + if topology !in {"multi-node", "ha"} then 0
              else if Supports(step, "kubeadm-join") then 35
              else if Supports(step, "cluster-verification") then 18 else 0
  {
    hide Supports, CapabilityPoints, Score, Penalty, StagePoints;
    ScoreIs(step, lexical, caps, mode, topology);
    ScoreIs(step, lexical, caps, mode, "");
  }

  /** A Command scores 15 less than a typed step with the same words and traits; 60 less again when artifacts are
      staged, and 25 when they are prepared in a prepare+apply request. */
  lemma CommandLoses(
    step: Step, kind: string, lexical: Lexical, caps: set<string>, mode: string, topology: string)
    requires step.kind == "Command" != kind && lexical(step.(kind := kind)).0 == lexical(step).0
    ensures Score(step, lexical, caps, mode, topology)
         == Score(step.(kind := kind), lexical, caps, mode, topology)
            - 15 - (if PACKAGES in caps || IMAGES in caps || PREPARE in caps then 60 else 0)
            - (if PREPARE in caps && mode == PREPARE_AND_APPLY then 25 else 0)
  {
    hide Supports, CapabilityPoints, Score, ContainsGuidance;
    var typed := step.(kind := kind);
    ScoreIs(step, lexical, caps, mode, topology);
    ScoreIs(typed, lexical, caps, mode, topology);
    KindDoesNotSupport(step, kind);
    SamePoints(step, typed, caps);
  }

  lemma KindDoesNotSupport(step: Step, kind: string)
    ensures forall c :: Supports(step.(kind := kind), c) == Supports(step, c)
  {
    hide ContainsGuidance;
  }

  lemma {:induction false} SamePoints(a: Step, b: Step, caps: set<string>)
    requires forall c :: Supports(a, c) == Supports(b, c)
    ensures CapabilityPoints(a, caps) == CapabilityPoints(b, caps)
    decreases caps
  {
    hide Supports, Points;
    if caps != {} {
      SamePoints(a, b, caps - {Least(caps)});
    }
  }

  /** In a prepare+apply request that stages artifacts, a step without the prepare role gains 45 with it. */
  lemma PrepareRoleAdds(
    step: Step, roles: seq<string>, lexical: Lexical, caps: set<string>, mode: string, topology: string)
    requires !ContainsGuidance(step.allowedRoles, "prepare") && ContainsGuidance(roles, "prepare")
    requires lexical(step.(allowedRoles := roles)).0 == lexical(step).0
    ensures Score(step.(allowedRoles := roles), lexical, caps, mode, topology)
         == Score(step, lexical, caps, mode, topology)
            + if mode == PREPARE_AND_APPLY && (PACKAGES in caps || IMAGES in caps || PREPARE in caps) then 45 else 0
  {
    hide Supports, CapabilityPoints, Score, ContainsGuidance;
    var other := step.(allowedRoles := roles);
    ScoreIs(step, lexical, caps, mode, topology);
    ScoreIs(other, lexical, caps, mode, topology);
    RolesDoNotSupport(step, roles);
    SamePoints(step, other, caps);
  }

  lemma RolesDoNotSupport(step: Step, roles: seq<string>)
    ensures forall c :: Supports(step.(allowedRoles := roles), c) == Supports(step, c)
  {
    hide ContainsGuidance;
  }

  /** With nothing asked for, a typed step scores what the prompt gives it, and a Command 15 less. */
  lemma NothingAsked(step: Step, lexical: Lexical, mode: string)
    ensures Score(step, lexical, {}, mode, "") == lexical(step).0 - if step.kind == "Command" then 15 else 0
  {
    hide Supports, Score, ContainsGuidance, CapabilityPoints;
    ScoreIs(step, lexical, {}, mode, "");
    NoPoints(step);
  }

  /** The confidence of a candidate is that of its score: high from 70 on, medium from 35 on. */
  lemma ConfidenceOfScore(step: Step, lexical: Lexical, caps: set<string>, mode: string, topology: string)
    ensures var c := CandidateFor(step, lexical, caps, mode, topology);
            (c.confidence == High <==> c.score >= 70) && (c.confidence == Medium <==> 35 <= c.score < 70) &&
            (c.confidence == Low <==> c.score < 35)
  {
    hide Penalty, CapabilityPoints, StagePoints, TopologyPoints, Tidied, SupportReasons, StageReasons, TopologyReasons,
         BaseReasons;
  }
}
