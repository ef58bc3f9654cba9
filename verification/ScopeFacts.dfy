/** Which paths a plan lets a session write, which texts and lists of files may be written, and what a plan asks
    for: told by the plan's own entries. */
module ScopeFacts {
  import opened Text
  import opened Files
  import opened GenerationValidate

  /** A path is in scope exactly when it is not blank and is, trimmed, one of the paths the plan gives anywhere. */
  lemma ScopeIff(plan: Plan, p: string)
    ensures p in AllowedPaths(plan) <==>
              p != "" && ((exists raw | raw in plan.anchorPaths :: TrimSpace(raw) == p)
                          || (exists raw | raw in plan.companionPaths :: TrimSpace(raw) == p)
                          || (exists raw | raw in plan.targetPaths :: TrimSpace(raw) == p)
                          || (exists f | f in plan.files :: TrimSpace(f.path) == p)
                          || TrimSpace(plan.entryScenario) == p)
  {
    hide TrimSpace;
    CleanedIff(plan.anchorPaths, p);
    CleanedIff(plan.companionPaths, p);
    CleanedIff(plan.targetPaths, p);
    CleanedIff(PlannedPaths(plan.files), p);
    CleanedIff([plan.entryScenario], p);
    assert plan.entryScenario in [plan.entryScenario];
    PlannedIff(plan.files, p);
  }

  lemma CleanedIff(paths: seq<string>, p: string)
    ensures p in Cleaned(paths) <==> p != "" && exists raw | raw in paths :: TrimSpace(raw) == p
  {
    hide TrimSpace;
  }

  lemma PlannedIff(files: seq<PlanFile>, p: string)
    ensures (exists raw | raw in PlannedPaths(files) :: TrimSpace(raw) == p)
       <==> exists f | f in files :: TrimSpace(f.path) == p
  {
    hide TrimSpace;
    var paths := PlannedPaths(files);
    if f :| f in files && TrimSpace(f.path) == p {
      var i :| 0 <= i < |files| && files[i] == f;
      assert paths[i] in paths;
    }
    if raw :| raw in paths && TrimSpace(raw) == p {
      var i :| 0 <= i < |paths| && paths[i] == raw;
      assert files[i] in files;
    }
  }

  // ---------------------------------------------------------------------------------------------
  // Paths that may be written

  const PREPARE := "workflows/prepare.yaml"
  const VARS := "workflows/vars.yaml"
  const SCENARIOS := "workflows/scenarios/"
  const COMPONENTS := "workflows/components/"

  /** Empty, or ending in a slash. */
  predicate IsFront(front: string) {
    front == "" || front[|front| - 1] == '/'
  }

  predicate IsFile(clean: string, name: string) {
    clean == name || HasSuffix(clean, "/" + name)
  }

  predicate IsBelow(clean: string, dir: string) {
    HasPrefix(clean, dir) || Contains(clean, "/" + dir)
  }

  lemma AllowedIs(path: string)
    ensures var clean := TrimSpace(path);
            AllowedGeneratedPath(path) <==>
              clean != "" && !Contains(clean, "..") &&
              (IsFile(clean, PREPARE) || IsFile(clean, VARS) || IsBelow(clean, SCENARIOS) || IsBelow(clean, COMPONENTS))
  {
    hide TrimSpace, Contains;
    assert "/" + PREPARE == "/workflows/prepare.yaml" && "/" + VARS == "/workflows/vars.yaml";
    assert "/" + SCENARIOS == "/workflows/scenarios/" && "/" + COMPONENTS == "/workflows/components/";
  }

  lemma FileIff(clean: string, name: string)
    ensures IsFile(clean, name) <==> exists front :: IsFront(front) && clean == front + name
  {
    if clean == name {
      assert IsFront("") && clean == "" + name;
    } else if HasSuffix(clean, "/" + name) {
      var front := clean[..|clean| - |name|];
      var all := "/" + name;
      assert clean == clean[..|clean| - |all|] + all;
      assert IsFront(front) && clean == front + name;
    }
    if front :| IsFront(front) && clean == front + name {
      if front != "" {
        assert clean == front[..|front| - 1] + ("/" + name);
      }
    }
  }

  lemma BelowIff(clean: string, dir: string)
    ensures IsBelow(clean, dir) <==> exists front, rest :: IsFront(front) && clean == front + dir + rest
  {
    hide Contains, IsFront;
    if IsBelow(clean, dir) { var front, rest := PartsAround(clean, dir); }
    if front, rest :| IsFront(front) && clean == front + dir + rest {
      BelowFront(front, dir, rest);
    }
  }

  lemma PartsAround(clean: string, dir: string) returns (front: string, rest: string)
    requires IsBelow(clean, dir)
    ensures IsFront(front) && clean == front + dir + rest
  {
    var sub := "/" + dir;
    if HasPrefix(clean, dir) {
      front, rest := "", clean[|dir|..];
    } else {
      IndexFirst(clean, sub);
      var i := Index(clean, sub);
      front, rest := clean[..i] + "/", clean[i + |sub|..];
      assert clean[i..i + |sub|] == sub;
      assert clean == clean[..i] + sub + rest;
    }
  }

  lemma BelowFront(front: string, dir: string, rest: string)
    requires IsFront(front)
    ensures IsBelow(front + dir + rest, dir)
  {
    var sub := "/" + dir;
    if front == "" {
      assert front + dir + rest == dir + rest;
    } else {
      ContainedAt(front[..|front| - 1], sub, rest);
      assert front + dir + rest == front[..|front| - 1] + sub + rest;
    }
  }

  lemma ContainedAt(before: string, sub: string, after: string)
    ensures Contains(before + sub + after, sub)
  {
    IndexFirst(before + sub + after, sub);
    MiddleSlice(before, sub, after);
    assert OccursAt(before + sub + after, sub, |before|);
  }

  /** A file may be written exactly when its path holds no two dots in a row and is, at the root of the workspace or
      further down, the prepare or the vars workflow or something below the scenarios or the components. */
  lemma MayBeWrittenIff(path: string)
    ensures var clean := TrimSpace(path);
            AllowedGeneratedPath(path) <==>
              clean != "" && !Contains(clean, "..") &&
              ((exists front :: IsFront(front) && clean == front + "workflows/prepare.yaml")
               || (exists front :: IsFront(front) && clean == front + "workflows/vars.yaml")
               || (exists front, rest :: IsFront(front) && clean == front + "workflows/scenarios/" + rest)
               || (exists front, rest :: IsFront(front) && clean == front + "workflows/components/" + rest))
  {
    hide TrimSpace, Contains, IsFront, IsFile, IsBelow, AllowedGeneratedPath;
    var clean := TrimSpace(path);
    AllowedIs(path);
    FileIff(clean, PREPARE);
    FileIff(clean, VARS);
    BelowIff(clean, SCENARIOS);
    BelowIff(clean, COMPONENTS);
  }

  // ---------------------------------------------------------------------------------------------
  // Texts and lists of files

  /** The text of a YAML file, whatever the case of its ending, is brought to one line break at its end, and to
      nothing if it is only line breaks; any other text stays as it is. */
  lemma NormalForm(path: string, body: string, breaks: string)
    requires (forall i | 0 <= i < |breaks| :: breaks[i] == '\n') && (body == "" || body[|body| - 1] != '\n')
    ensures var lower := ToLower(TrimSpace(path));
            var trimmed := if body == "" then "" else body + "\n";
            var yaml := HasSuffix(lower, ".yaml") || HasSuffix(lower, ".yml");
            NormalizeContent(path, body + breaks) == if yaml then trimmed else body + breaks
  {
    hide TrimSpace;
    TrimBreaks(body, breaks);
  }

  lemma {:induction false} TrimBreaks(body: string, breaks: string)
    requires (forall i | 0 <= i < |breaks| :: breaks[i] == '\n') && (body == "" || body[|body| - 1] != '\n')
    ensures TrimNewlines(body + breaks) == body
  {
    if breaks == "" {
      assert body + breaks == body;
    } else {
      var s := body + breaks;
      assert s[..|s| - 1] == body + breaks[..|breaks| - 1];
      TrimBreaks(body, breaks[..|breaks| - 1]);
    }
  }

  /** Files that are no deletions are written, all of them, exactly when each may be written, has a place in the
      workspace, and may be put there. */
  lemma {:induction false} WriteSucceedsIff(resolve: Resolver, ok: Permissions, tree: Tree, files: seq<GeneratedFile>)
    requires forall f | f in files :: !f.delete
    ensures WriteAll(resolve, ok, tree, files).failure.None? <==>
              forall f | f in files ::
                AllowedGeneratedPath(f.path) && resolve(f.path).Some? && ok(resolve(f.path).value)
    decreases |files|
  {
    hide AllowedGeneratedPath;
    if files != [] {
      WriteSucceedsIff(resolve, ok, WriteFile(resolve, ok, tree, files[0]).tree, files[1..]);
      assert forall f :: f in files <==> f == files[0] || f in files[1..];
    }
  }

  /** A deletion fails only for a path that may not be written, that has no place, or whose file may not go. */
  lemma DeletionFailsIff(resolve: Resolver, ok: Permissions, tree: Tree, f: GeneratedFile)
    requires f.delete
    ensures WriteAll(resolve, ok, tree, [f]).failure.Some? <==>
              !AllowedGeneratedPath(f.path) || resolve(f.path).None?
              || (resolve(f.path).value in tree && !ok(resolve(f.path).value))
  {
    hide AllowedGeneratedPath;
    var first := WriteFile(resolve, ok, tree, f);
    assert [f][1..] == [];
    assert WriteAll(resolve, ok, first.tree, []).failure.None?;
  }

  /** Staging fails exactly when the workflow tree cannot be copied or the files cannot be written over it. */
  lemma StagingFailsIff(resolve: Resolver, ok: Permissions, disk: Disk, files: seq<GeneratedFile>)
    requires forall f | f in files :: !f.delete
    ensures StageAll(resolve, ok, disk, files).failure.None? <==>
              (forall t | t in disk.unreadable :: !HasPrefix(t, "workflows/")) &&
              forall f | f in files ::
                AllowedGeneratedPath(f.path) && resolve(f.path).Some? && ok(resolve(f.path).value)
  {
    hide AllowedGeneratedPath, HasPrefix;
    WriteSucceedsIff(resolve, ok, WorkflowPart(disk.files), files);
  }

  /** A set of files that are no deletions passes exactly when it is not empty, can be staged, every validator is
      content with every file, the entry points and the whole, and the plan's contract is not broken. */
  lemma LiveFilesPassIff(
    resolve: Resolver, checks: Checks, ok: Permissions, disk: Disk, files: seq<GeneratedFile>, plan: Plan)
    requires forall f | f in files :: !f.delete
    ensures var tree := StageAll(resolve, ok, disk, files).tree;
            Validate(resolve, checks, ok, disk, files, plan).Passed? <==>
              files != [] && StageAll(resolve, ok, disk, files).failure.None? &&
              (forall f | f in files :: checks.fileOk(tree, f)) && checks.entrypointsOk(tree, files) &&
              ContractSpec(files, plan).blocking == {} && checks.semanticsOk(files)
  {
    hide AllowedGeneratedPath, StageAll, ContractSpec, Validate;
    PassesIff(resolve, checks, ok, disk, files, plan);
    StagingFailsIff(resolve, ok, disk, files);
  }

  /** A deletion passes the check of its file on account of its path alone. */
  lemma DeletionNeedsOnlyItsPath(resolve: Resolver, checks: Checks, tree: Tree, f: GeneratedFile)
    requires f.delete
    ensures FilePasses(resolve, checks, tree, f) <==> AllowedGeneratedPath(f.path)
  {
    hide AllowedGeneratedPath;
  }

  // ---------------------------------------------------------------------------------------------
  // What a plan asks for

  /** A required entry scenario that was not generated blocks; it is required for scenarios and workspaces, and by
      the modes that apply. */
  lemma MissingEntryBlocksIff(files: seq<GeneratedFile>, plan: Plan)
    ensures var entry := TrimSpace(plan.entryScenario);
            MissingEntry(entry) in ContractSpec(files, plan).blocking <==>
              entry != "" && (forall f | f in files && !f.delete :: TrimSpace(f.path) != entry) &&
              (TrimSpace(plan.targetScope) in {"scenario", "workspace"}
               || TrimSpace(plan.modeIntent) in {"prepare+apply", "apply-only"})
  {
    hide TrimSpace, AllowedPaths, DraftIssues, ContractIssues;
  }

  /** A path is reported as planned and missing exactly for a draft that plans to create, replace or update it, that
      needs the prepare workflow, or that needs its entry scenario, when it was not generated. */
  lemma MissingPlannedIff(generated: set<string>, plan: Plan, p: string)
    ensures MissingPlanned(p) in DraftIssues(generated, plan) <==>
              plan.route == Draft && p !in generated &&
              ((p != "" && exists f | f in plan.files ::
                  TrimSpace(f.path) == p && ToLower(TrimSpace(f.action)) in {"create", "replace", "update"})
               || (plan.needsPrepare && p == "workflows/prepare.yaml")
               || (p != "" && p == TrimSpace(plan.entryScenario)
                   && (TrimSpace(plan.targetScope) in {"scenario", "workspace"}
                       || TrimSpace(plan.modeIntent) in {"prepare+apply", "apply-only"})))
  {
    hide TrimSpace, ToLower, Sorted;
    PlannedIssuesIff(Sorted(RequiredDraftPaths(plan)), generated, p);
    RequiredIff(plan, p);
  }

  lemma {:induction false} PlannedIssuesIff(paths: seq<string>, generated: set<string>, p: string)
    ensures MissingPlanned(p) in PlannedIssues(paths, generated) <==> p in paths && p !in generated
  {
    if paths != [] {
      PlannedIssuesIff(paths[..|paths| - 1], generated, p);
      assert p in paths <==> p in paths[..|paths| - 1] || p == paths[|paths| - 1];
    }
  }

  lemma RequiredIff(plan: Plan, p: string)
    ensures p in RequiredDraftPaths(plan) <==>
              (p != "" && exists f | f in plan.files ::
                 TrimSpace(f.path) == p && ToLower(TrimSpace(f.action)) in {"create", "replace", "update"})
              || (plan.needsPrepare && p == "workflows/prepare.yaml")
              || (p != "" && p == TrimSpace(plan.entryScenario)
                  && (TrimSpace(plan.targetScope) in {"scenario", "workspace"}
                      || TrimSpace(plan.modeIntent) in {"prepare+apply", "apply-only"}))
  {
    hide TrimSpace, ToLower;
  }
}
