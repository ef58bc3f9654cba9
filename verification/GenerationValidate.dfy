/** The scope of a plan and the checks a generated file set must pass:
    internal/askcli/generation_validate.go. */
module GenerationValidate {
  import opened Text
  import opened Files
  import Sorting

  datatype PlanFile = PlanFile(path: string, action: string)

  datatype ArtifactContract = ArtifactContract(kind: string, producerPath: string, consumerPath: string)

  datatype Route = Draft | Refine | OtherRoute

  /** The parts of a plan that decide its scope and contract. */
  datatype Plan = Plan(
    anchorPaths: seq<string>,
    companionPaths: seq<string>,
    targetPaths: seq<string>,
    files: seq<PlanFile>,
    entryScenario: string,
    targetScope: string,
    modeIntent: string,
    needsPrepare: bool,
    contracts: seq<ArtifactContract>,
    route: Route)

  /** The nonblank trimmed strings of a list. */
  function Cleaned(paths: seq<string>): set<string> {
    set p | p in paths && TrimSpace(p) != "" :: TrimSpace(p)
  }

  function PlannedPaths(files: seq<PlanFile>): (r: seq<string>)
    ensures |r| == |files| && forall i | 0 <= i < |files| :: r[i] == files[i].path
  {
    seq(|files|, i requires 0 <= i < |files| => files[i].path)
  }

  /** Every path the plan mentions is in scope. */
  function AllowedPaths(plan: Plan): set<string> {
    Cleaned(plan.anchorPaths) + Cleaned(plan.companionPaths) + Cleaned(plan.targetPaths)
    + Cleaned(PlannedPaths(plan.files)) + Cleaned([plan.entryScenario])
  }

  /** One of the loops of allowedPlanPaths. */
  method AddPaths(allowed: set<string>, paths: seq<string>) returns (r: set<string>)
    ensures r == allowed + Cleaned(paths)
  {
    hide TrimSpace;
    r := allowed;
    for i := 0 to |paths|
      invariant r == allowed + Cleaned(paths[..i])
    {
      assert forall p :: p in paths[..i + 1] <==> p in paths[..i] || p == paths[i];
      var path := TrimSpace(paths[i]);
      if path != "" { r := r + {path}; }
    }
    assert paths[..|paths|] == paths;
  }

  /** allowedPlanPaths */
  method AllowedPlanPaths(plan: Plan) returns (allowed: set<string>)
    ensures allowed == AllowedPaths(plan)
  {
    hide TrimSpace;
    allowed := AddPaths({}, plan.anchorPaths);
    allowed := AddPaths(allowed, plan.companionPaths);
    allowed := AddPaths(allowed, plan.targetPaths);
    allowed := AddPaths(allowed, PlannedPaths(plan.files));
    allowed := AddPaths(allowed, [plan.entryScenario]);
  }

  /** A path in scope is nonblank and its own trimming. */
  lemma AllowedPathIsClean(plan: Plan, p: string)
    requires p in AllowedPaths(plan)
    ensures p != "" && TrimSpace(p) == p
  {
    hide Trim;
    var raw :| TrimSpace(raw) == p && p != "";
    TrimIdempotent(raw, IsSpace);
    assert TrimSpace(TrimSpace(raw)) == TrimSpace(raw);
  }

  predicate RequiresEntryScenario(plan: Plan) {
    var scope, mode := TrimSpace(plan.targetScope), TrimSpace(plan.modeIntent);
    scope == "scenario" || scope == "workspace" || mode == "prepare+apply" || mode == "apply-only"
  }

  /** The paths of the files that are not deletions. */
  function Generated(files: seq<GeneratedFile>): set<string> {
    set f | f in files && !f.delete :: TrimSpace(f.path)
  }

  /** What blocks a file set, and what it is merely advised to add. */
  datatype Issue =
    | OutsideScope(path: string)
    | MissingEntry(path: string)
    | MissingPlanned(path: string)
    | MissingProducer(path: string, kind: string)
    | MissingConsumer(path: string, kind: string)

  datatype ContractCritic = ContractCritic(
    blocking: set<Issue>, advisory: seq<Issue>, missing: set<string>,
    coverageGaps: set<string>, requiredFixes: set<string>)

  const RESTRICT_FIX := "Restrict generation to the clarified plan target paths and planned files"

  predicate WritesFile(action: string) {
    ToLower(TrimSpace(action)) in ["create", "replace", "update"]
  }

  /** requiredDraftPaths */
  function RequiredDraftPaths(plan: Plan): set<string> {
    (set f | f in plan.files && TrimSpace(f.path) != "" && WritesFile(f.action) :: TrimSpace(f.path))
    + (if plan.needsPrepare then {"workflows/prepare.yaml"} else {})
    + (if RequiresEntryScenario(plan) && TrimSpace(plan.entryScenario) != ""
       then {TrimSpace(plan.entryScenario)} else {})
  }

  function OutsideIssues(generated: set<string>, allowed: set<string>): set<Issue> {
    if allowed == {} then {} else set p | p in generated - allowed :: OutsideScope(p)
  }

  /** The generated paths that are not in scope; an empty scope allows all. */
  function CoverageGaps(generated: set<string>, allowed: set<string>): set<string> {
    if allowed == {} then {} else generated - allowed
  }

  function EntryIssues(generated: set<string>, plan: Plan): set<Issue> {
    var entry := TrimSpace(plan.entryScenario);
    if entry != "" && RequiresEntryScenario(plan) && entry !in generated then {MissingEntry(entry)} else {}
  }

  /** The planned paths that were not generated. */
  function PlannedIssues(paths: seq<string>, generated: set<string>): seq<Issue> {
    if paths == [] then []
    else
      var last := paths[|paths| - 1];
      PlannedIssues(paths[..|paths| - 1], generated) + (if last in generated then [] else [MissingPlanned(last)])
  }

  ghost function DraftIssues(generated: set<string>, plan: Plan): seq<Issue> {
    if plan.route != Draft then [] else PlannedIssues(Sorted(RequiredDraftPaths(plan)), generated)
  }

  /** For each contract in turn, its producer and its consumer, where they are asked for. */
  function ContractIssues(generated: set<string>, allowed: set<string>, contracts: seq<ArtifactContract>): seq<Issue> {
    if contracts == [] then []
    else
      var c := contracts[|contracts| - 1];
      ContractIssues(generated, allowed, contracts[..|contracts| - 1])
      + (if Unmet(c.producerPath, generated, allowed) then [MissingProducer(TrimSpace(c.producerPath), c.kind)] else [])
      + (if Unmet(c.consumerPath, generated, allowed) then [MissingConsumer(TrimSpace(c.consumerPath), c.kind)] else [])
  }

  predicate Unmet(path: string, generated: set<string>, allowed: set<string>) {
    var p := TrimSpace(path);
    p != "" && p !in generated && p in allowed
  }

  ghost function ContractSpec(files: seq<GeneratedFile>, plan: Plan): ContractCritic {
    var generated, allowed := Generated(files), AllowedPaths(plan);
    var advisory := DraftIssues(generated, plan) + ContractIssues(generated, allowed, plan.contracts);
    var entryIssues := EntryIssues(generated, plan);
    var gaps := CoverageGaps(generated, allowed);
    ContractCritic(OutsideIssues(generated, allowed) + entryIssues, advisory,
                   (set i | i in advisory :: i.path) + (set i | i in entryIssues :: i.path),
                   gaps, if gaps == {} then {} else {RESTRICT_FIX})
  }

  /** A path is asked for on account of a contract of some kind exactly when a contract of that kind has it as
      its producer or consumer, and it is in scope and was not generated. */
  lemma {:induction false} AskedForIff(
    generated: set<string>, allowed: set<string>, contracts: seq<ArtifactContract>, p: string, kind: string)
    ensures MissingProducer(p, kind) in ContractIssues(generated, allowed, contracts) <==>
              p != "" && p !in generated && p in allowed &&
              exists c :: c in contracts && c.kind == kind && TrimSpace(c.producerPath) == p
    ensures MissingConsumer(p, kind) in ContractIssues(generated, allowed, contracts) <==>
              p != "" && p !in generated && p in allowed &&
              exists c :: c in contracts && c.kind == kind && TrimSpace(c.consumerPath) == p
  {
    hide TrimSpace;
    if contracts != [] {
      var init, last := contracts[..|contracts| - 1], contracts[|contracts| - 1];
      AskedForIff(generated, allowed, init, p, kind);
      assert forall c :: c in contracts <==> c in init || c == last;
    }
  }

  /** The loop over the artifact contracts. */
  method UnmetContracts(generated: set<string>, allowed: set<string>, contracts: seq<ArtifactContract>)
    returns (issues: seq<Issue>)
    ensures issues == ContractIssues(generated, allowed, contracts)
  {
    hide TrimSpace;
    issues := [];
    for i := 0 to |contracts|
      invariant issues == ContractIssues(generated, allowed, contracts[..i])
    {
      var c := contracts[i];
      assert contracts[..i + 1][..i] == contracts[..i];
      var producer, consumer := TrimSpace(c.producerPath), TrimSpace(c.consumerPath);
      if producer != "" && producer !in generated && producer in allowed {
        issues := issues + [MissingProducer(producer, c.kind)];
      }
      if consumer != "" && consumer !in generated && consumer in allowed {
        issues := issues + [MissingConsumer(consumer, c.kind)];
      }
    }
    assert contracts[..|contracts|] == contracts;
  }

  /** The loop over the planned paths of a draft. */
  method MissingPlannedPaths(generated: set<string>, plan: Plan) returns (issues: seq<Issue>)
    ensures issues == DraftIssues(generated, plan)
  {
    hide RequiredDraftPaths, Sorted;
    issues := [];
    if plan.route == Draft {
      var required := Sorting.SortStrings(RequiredDraftPaths(plan));
      for i := 0 to |required|
        invariant issues == PlannedIssues(required[..i], generated)
      {
        assert required[..i + 1][..i] == required[..i];
        if required[i] !in generated { issues := issues + [MissingPlanned(required[i])]; }
      }
      assert required[..|required|] == required;
    }
  }

  /** validatePlanContract; the lists that end up sorted without repetitions are sets here. */
  method ValidatePlanContract(files: seq<GeneratedFile>, plan: Plan) returns (critic: ContractCritic)
    ensures critic == ContractSpec(files, plan)
  {
    hide TrimSpace, RequiresEntryScenario, RequiredDraftPaths, AllowedPaths, DraftIssues, ContractIssues;
    var generated: set<string> := {};
    for i := 0 to |files|
      invariant generated == Generated(files[..i])
    {
      assert forall f :: f in files[..i + 1] <==> f in files[..i] || f == files[i];
      if !files[i].delete { generated := generated + {TrimSpace(files[i].path)}; }
    }
    assert files[..|files|] == files;
    var allowed := AllowedPlanPaths(plan);
    var blocking: set<Issue> := {};
    var gaps: set<string>, fixes: set<string> := {}, {};
    var todo := generated;
    while todo != {}
      invariant todo <= generated
      invariant blocking == OutsideIssues(generated - todo, allowed)
      invariant gaps == CoverageGaps(generated - todo, allowed)
      invariant fixes == if gaps == {} then {} else {RESTRICT_FIX}
      decreases todo
    {
      var path :| path in todo;
      todo := todo - {path};
      assert generated - todo == (generated - (todo + {path})) + {path};
      if allowed != {} && path !in allowed {
        blocking, gaps, fixes := blocking + {OutsideScope(path)}, gaps + {path}, fixes + {RESTRICT_FIX};
      }
    }
    assert generated - {} == generated;
    var entry := TrimSpace(plan.entryScenario);
    var entryIssues: set<Issue> := {};
    if entry != "" && RequiresEntryScenario(plan) && entry !in generated { entryIssues := {MissingEntry(entry)}; }
    var planned := MissingPlannedPaths(generated, plan);
    var contractIssues := UnmetContracts(generated, allowed, plan.contracts);
    var advisory := planned + contractIssues;
    critic := ContractCritic(
      blocking + entryIssues, advisory,
      (set i: Issue | i in advisory :: i.path) + (set i: Issue | i in entryIssues :: i.path), gaps, fixes);
  }

  /** Nothing blocks exactly when every generated path is in scope (an empty scope allows all) and the
      entry scenario, where one is required, was generated. */
  lemma ContractBlocksIff(files: seq<GeneratedFile>, plan: Plan)
    ensures var generated, allowed := Generated(files), AllowedPaths(plan);
            var entry := TrimSpace(plan.entryScenario);
            ContractSpec(files, plan).blocking == {} <==>
              (allowed == {} || generated <= allowed) &&
              (entry != "" && RequiresEntryScenario(plan) ==> entry in generated)
  {
    hide TrimSpace, RequiresEntryScenario, AllowedPaths;
    var generated, allowed := Generated(files), AllowedPaths(plan);
    if allowed != {} && !(generated <= allowed) {
      var p :| p in generated && p !in allowed;
      assert OutsideScope(p) in ContractSpec(files, plan).blocking;
    }
    if EntryIssues(generated, plan) != {} {
      assert MissingEntry(TrimSpace(plan.entryScenario)) in ContractSpec(files, plan).blocking;
    }
  }

  // ---------------------------------------------------------------------------------------------
  // The checks in order

  /** The validators of other packages, whatever they answer. */
  datatype Checks = Checks(
    fileOk: (Tree, GeneratedFile) -> bool,
    entrypointsOk: (Tree, seq<GeneratedFile>) -> bool,
    semanticsOk: seq<GeneratedFile> -> bool)

  datatype Reason =
    | NoFiles
    | StagingFailed(failure: Failure)
    | FileInvalid(index: nat)
    | EntrypointInvalid
    | ContractBroken(blocking: set<Issue>)
    | SemanticsBroken

  /** The answer, and on success the tree the validators were shown. */
  datatype Verdict = Passed(shown: Tree) | Rejected(reason: Reason)

  /** validateGeneratedFile: a deletion needs only an allowed path. */
  predicate FilePasses(resolve: Resolver, checks: Checks, tree: Tree, f: GeneratedFile) {
    AllowedGeneratedPath(f.path) && (f.delete || (resolve(f.path).Some? && checks.fileOk(tree, f)))
  }

  function FirstInvalid(
    resolve: Resolver, checks: Checks, tree: Tree, files: seq<GeneratedFile>, from: nat): (r: Option<nat>)
    requires from <= |files|
    decreases |files| - from
  {
    if from == |files| then None
    else if !FilePasses(resolve, checks, tree, files[from]) then Some(from)
    else FirstInvalid(resolve, checks, tree, files, from + 1)
  }

  lemma {:induction false} FirstInvalidIsFirst(
    resolve: Resolver, checks: Checks, tree: Tree, files: seq<GeneratedFile>, from: nat)
    requires from <= |files|
    ensures var r := FirstInvalid(resolve, checks, tree, files, from);
            (r.None? ==> forall i | from <= i < |files| :: FilePasses(resolve, checks, tree, files[i])) &&
            (r.Some? ==> from <= r.value < |files| && !FilePasses(resolve, checks, tree, files[r.value])
                         && forall i | from <= i < r.value :: FilePasses(resolve, checks, tree, files[i]))
    decreases |files| - from
  {
    hide FilePasses;
    if from < |files| && FilePasses(resolve, checks, tree, files[from]) {
      FirstInvalidIsFirst(resolve, checks, tree, files, from + 1);
    }
  }

  ghost function Validate(
    resolve: Resolver, checks: Checks, ok: Permissions, disk: Disk, files: seq<GeneratedFile>, plan: Plan): Verdict
  {
    if files == [] then Rejected(NoFiles)
    else
      var staged := StageAll(resolve, ok, disk, files);
      if staged.failure.Some? then Rejected(StagingFailed(staged.failure.value))
      else
        var invalid := FirstInvalid(resolve, checks, staged.tree, files, 0);
        if invalid.Some? then Rejected(FileInvalid(invalid.value))
        else if !checks.entrypointsOk(staged.tree, files) then Rejected(EntrypointInvalid)
        else if ContractSpec(files, plan).blocking != {} then
          Rejected(ContractBroken(ContractSpec(files, plan).blocking))
        else if !checks.semanticsOk(files) then Rejected(SemanticsBroken)
        else Passed(staged.tree)
  }

  /** validateGeneration for a response without documents, as the authoring session calls it. */
  method ValidateGeneration(
    resolve: Resolver, checks: Checks, ok: Permissions, disk: Disk, files: seq<GeneratedFile>, plan: Plan)
    returns (v: Verdict)
    ensures v == Validate(resolve, checks, ok, disk, files, plan)
  {
    hide FilePasses, StageAll, ContractSpec;
    if |files| == 0 { return Rejected(NoFiles); }
    var staged := StageWorkspace(resolve, ok, disk, files);
    if staged.failure.Some? { return Rejected(StagingFailed(staged.failure.value)); }
    FirstInvalidIsFirst(resolve, checks, staged.tree, files, 0);
    for i := 0 to |files|
      invariant forall j | 0 <= j < i :: FilePasses(resolve, checks, staged.tree, files[j])
    {
      if !FilePasses(resolve, checks, staged.tree, files[i]) { return Rejected(FileInvalid(i)); }
    }
    if !checks.entrypointsOk(staged.tree, files) { return Rejected(EntrypointInvalid); }
    var contract := ValidatePlanContract(files, plan);
    if contract.blocking != {} { return Rejected(ContractBroken(contract.blocking)); }
    if !checks.semanticsOk(files) { return Rejected(SemanticsBroken); }
    return Passed(staged.tree);
  }

  /** A file set passes exactly when it is not empty, stages without failure, and satisfies every check;
      the tree then shown is the staged one. */
  lemma PassesIff(resolve: Resolver, checks: Checks, ok: Permissions, disk: Disk, files: seq<GeneratedFile>, plan: Plan)
    ensures var staged := StageAll(resolve, ok, disk, files);
            var v := Validate(resolve, checks, ok, disk, files, plan);
            (v.Passed? <==>
              files != [] && staged.failure.None? &&
              (forall f | f in files :: FilePasses(resolve, checks, staged.tree, f)) &&
              checks.entrypointsOk(staged.tree, files) &&
              ContractSpec(files, plan).blocking == {} && checks.semanticsOk(files)) &&
            (v.Passed? ==> v.shown == staged.tree)
  {
    hide FilePasses, StageAll, ContractSpec;
    if files != [] {
      FirstInvalidIsFirst(resolve, checks, StageAll(resolve, ok, disk, files).tree, files, 0);
    }
  }

  /** The checks come in order: a later complaint means that all earlier checks passed. */
  lemma FirstComplaintWins(
    resolve: Resolver, checks: Checks, ok: Permissions, disk: Disk, files: seq<GeneratedFile>, plan: Plan)
    requires var v := Validate(resolve, checks, ok, disk, files, plan);
             v.Rejected? && (v.reason.ContractBroken? || v.reason.SemanticsBroken?)
    ensures var tree := StageAll(resolve, ok, disk, files).tree;
            StageAll(resolve, ok, disk, files).failure.None? &&
            (forall f | f in files :: FilePasses(resolve, checks, tree, f)) && checks.entrypointsOk(tree, files)
  {
    hide FilePasses, StageAll, ContractSpec;
    if files != [] {
      FirstInvalidIsFirst(resolve, checks, StageAll(resolve, ok, disk, files).tree, files, 0);
    }
  }

  lemma NoneOutside(files: seq<GeneratedFile>, plan: Plan, p: string)
    requires Generated(files) <= AllowedPaths(plan)
    ensures OutsideScope(p) !in ContractSpec(files, plan).blocking
  {
    hide AllowedPaths, Generated, TrimSpace, RequiresEntryScenario, DraftIssues, ContractIssues;
  }

  /** A file set inside the plan's scope is never rejected for leaving it. */
  lemma InScopeNeverOutside(
    resolve: Resolver, checks: Checks, ok: Permissions, disk: Disk, files: seq<GeneratedFile>, plan: Plan, p: string)
    requires forall f | f in files :: f.path in AllowedPaths(plan)
    ensures var v := Validate(resolve, checks, ok, disk, files, plan);
            v.Rejected? && v.reason.ContractBroken? ==> OutsideScope(p) !in v.reason.blocking
  {
    hide AllowedPaths, TrimSpace, FilePasses, StageAll, ContractSpec, FirstInvalid;
    forall f | f in files ensures TrimSpace(f.path) in AllowedPaths(plan) {
      AllowedPathIsClean(plan, f.path);
    }
    NoneOutside(files, plan, p);
  }
}
