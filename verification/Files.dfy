/** Generated files, their staging in a scratch workspace and their writing to the real one:
    internal/askcli/files.go. */
module Files {
  import opened Text

  datatype GeneratedFile = GeneratedFile(path: string, content: string, delete: bool)

  /** A place in a workspace, named relative to its root. */
  type Target = string

  type Tree = map<Target, string>

  /** The workspace on disk: file contents, and the places that exist but cannot be read. */
  datatype Disk = Disk(files: Tree, unreadable: set<Target>)

  /** Which place a path names; None when it escapes the root (fsutil.ResolveUnder). */
  type Resolver = string -> Option<Target>

  /** Whether the operating system lets a place be written or removed. */
  type Permissions = Target -> bool

  function Lookup(tree: Tree, t: Target): Option<string> {
    if t in tree then Some(tree[t]) else None
  }

  predicate InWorkflows(t: Target) {
    HasPrefix(t, "workflows/")
  }

  /** workspacepaths.IsAllowedAuthoringPath */
  predicate AllowedGeneratedPath(path: string) {
    var clean := TrimSpace(path);
    && clean != "" && !Contains(clean, "..")
    && (clean == "workflows/prepare.yaml" || HasSuffix(clean, "/workflows/prepare.yaml")
        || clean == "workflows/vars.yaml" || HasSuffix(clean, "/workflows/vars.yaml")
        || HasPrefix(clean, "workflows/scenarios/") || Contains(clean, "/workflows/scenarios/")
        || HasPrefix(clean, "workflows/components/") || Contains(clean, "/workflows/components/"))
  }

  predicate IsYaml(path: string) {
    var lower := ToLower(TrimSpace(path));
    HasSuffix(lower, ".yaml") || HasSuffix(lower, ".yml")
  }

  /** Text with exactly one line break at its end; nothing but line breaks becomes the empty text. */
  function OneTrailingNewline(content: string): string {
    var trimmed := TrimNewlines(content);
    if trimmed == "" then "" else trimmed + "\n"
  }

  /** normalizeGeneratedContent */
  function NormalizeContent(path: string, content: string): string {
    if IsYaml(path) then OneTrailingNewline(content) else content
  }

  function NormalizeFile(f: GeneratedFile): GeneratedFile {
    f.(content := if f.delete then "" else NormalizeContent(f.path, f.content))
  }

  /** normalizeGeneratedFiles */
  function NormalizeFiles(files: seq<GeneratedFile>): (r: seq<GeneratedFile>)
    ensures |r| == |files| && forall i | 0 <= i < |files| :: r[i] == NormalizeFile(files[i])
  {
    seq(|files|, i requires 0 <= i < |files| => NormalizeFile(files[i]))
  }

  /** Contents that differ at most in trailing line breaks. */
  predicate SameButNewlines(a: string, b: string) {
    TrimNewlines(a) == TrimNewlines(b)
  }

  lemma TrimNewlinesOnce(s: string)
    ensures TrimNewlines(TrimNewlines(s)) == TrimNewlines(s)
    ensures TrimNewlines(TrimNewlines(s) + "\n") == TrimNewlines(s)
  {
    var t := TrimNewlines(s);
    TrimRightKeepsStart(s, IsNewline);
    assert (t + "\n")[..|t|] == t;
  }

  /** Normalising is idempotent, and rendered text is a fixed point for every path. */
  lemma NormalizeStable(path: string, content: string)
    ensures NormalizeContent(path, NormalizeContent(path, content)) == NormalizeContent(path, content)
    ensures NormalizeContent(path, OneTrailingNewline(content)) == OneTrailingNewline(content)
    ensures SameButNewlines(NormalizeContent(path, content), content)
  {
    hide IsYaml;
    TrimNewlinesOnce(content);
  }

  // ---------------------------------------------------------------------------------------------
  // Writing a list of files, one after the other

  datatype Failure = PathRejected(path: string) | EscapesRoot | NotPermitted | CannotCopy

  datatype Written = Written(tree: Tree, failure: Option<Failure>)

  function WriteFile(resolve: Resolver, ok: Permissions, tree: Tree, f: GeneratedFile): Written {
    if !AllowedGeneratedPath(f.path) then Written(tree, Some(PathRejected(f.path)))
    else match resolve(f.path)
      case None => Written(tree, Some(EscapesRoot))
      case Some(t) =>
        if f.delete then
          if t !in tree || ok(t) then Written(tree - {t}, None) else Written(tree, Some(NotPermitted))
        else if ok(t) then Written(tree[t := f.content], None)
        else Written(tree, Some(NotPermitted))
  }

  function WriteAll(resolve: Resolver, ok: Permissions, tree: Tree, files: seq<GeneratedFile>): Written
    decreases |files|
  {
    if files == [] then Written(tree, None)
    else
      var first := WriteFile(resolve, ok, tree, files[0]);
      if first.failure.Some? then first else WriteAll(resolve, ok, first.tree, files[1..])
  }

  /** The loop of writeFiles: stop at the first failure and leave what was written so far. */
  method WriteFiles(resolve: Resolver, ok: Permissions, disk: Tree, files: seq<GeneratedFile>) returns (r: Written)
    ensures r == WriteAll(resolve, ok, disk, files)
  {
    var tree := disk;
    for i := 0 to |files|
      invariant WriteAll(resolve, ok, tree, files[i..]) == WriteAll(resolve, ok, disk, files)
    {
      hide AllowedGeneratedPath;
      assert files[i..][1..] == files[i + 1..];
      var one := WriteFile(resolve, ok, tree, files[i]);
      if one.failure.Some? { return one; }
      tree := one.tree;
    }
    return Written(tree, None);
  }

  /** The part of the disk that staging copies. */
  function WorkflowPart(files: Tree): Tree {
    map t | t in files && InWorkflows(t) :: files[t]
  }

  function StageAll(resolve: Resolver, ok: Permissions, disk: Disk, files: seq<GeneratedFile>): Written {
    if exists t | t in disk.unreadable :: InWorkflows(t) then Written(map[], Some(CannotCopy))
    else WriteAll(resolve, ok, WorkflowPart(disk.files), files)
  }

  /** stageWorkspace: copy the workflow tree to a fresh directory, then write the files over it. */
  method StageWorkspace(resolve: Resolver, ok: Permissions, disk: Disk, files: seq<GeneratedFile>) returns (r: Written)
    ensures r == StageAll(resolve, ok, disk, files)
  {
    if exists t | t in disk.unreadable :: InWorkflows(t) { return Written(map[], Some(CannotCopy)); }
    r := WriteFiles(resolve, ok, WorkflowPart(disk.files), files);
  }

  /** The last file of the list that names t decides what is at t. */
  function LastWriter(resolve: Resolver, files: seq<GeneratedFile>, t: Target): (r: Option<GeneratedFile>)
    ensures r.Some? ==> r.value in files && resolve(r.value.path) == Some(t)
    ensures r.None? ==> forall f | f in files :: resolve(f.path) != Some(t)
  {
    if files == [] then None
    else
      var later := LastWriter(resolve, files[1..], t);
      if later.Some? then later
      else if resolve(files[0].path) == Some(t) then Some(files[0])
      else None
  }

  function Outcome(base: Option<string>, writer: Option<GeneratedFile>): Option<string> {
    match writer
    case None => base
    case Some(f) => if f.delete then None else Some(f.content)
  }

  /** A write that succeeds leaves at every place what its last writer put there, and what was there
      before at the places no file names; every path was allowed and stays under the root. */
  lemma {:induction false} WrittenTree(
    resolve: Resolver, ok: Permissions, tree: Tree, files: seq<GeneratedFile>, t: Target)
    ensures var r := WriteAll(resolve, ok, tree, files);
            r.failure.None? ==>
              Lookup(r.tree, t) == Outcome(Lookup(tree, t), LastWriter(resolve, files, t)) &&
              forall f | f in files :: AllowedGeneratedPath(f.path) && resolve(f.path).Some?
    decreases |files|
  {
    hide AllowedGeneratedPath;
    if files != [] {
      WrittenTree(resolve, ok, WriteFile(resolve, ok, tree, files[0]).tree, files[1..], t);
    }
  }

  /** A write that fails has written exactly the files before the one that failed. */
  lemma {:induction false} FailedWriteIsPrefix(
    resolve: Resolver, ok: Permissions, tree: Tree, files: seq<GeneratedFile>)
    returns (k: nat)
    requires WriteAll(resolve, ok, tree, files).failure.Some?
    ensures k < |files|
    ensures WriteAll(resolve, ok, tree, files[..k]) == Written(WriteAll(resolve, ok, tree, files).tree, None)
    ensures WriteFile(resolve, ok, WriteAll(resolve, ok, tree, files).tree, files[k]).failure
         == WriteAll(resolve, ok, tree, files).failure
    decreases |files|
  {
    hide AllowedGeneratedPath;
    var first := WriteFile(resolve, ok, tree, files[0]);
    if first.failure.Some? {
      k := 0;
    } else {
      k := FailedWriteIsPrefix(resolve, ok, first.tree, files[1..]);
      k := k + 1;
      assert files[..k][1..] == files[1..][..k - 1];
    }
  }

  // ---------------------------------------------------------------------------------------------
  // What was checked against what is committed

  /** Every shown file is a staged candidate or the normalised file that is already on disk. */
  ghost predicate ShownFrom(resolve: Resolver, disk: Disk, shown: seq<GeneratedFile>, staged: seq<GeneratedFile>) {
    && (forall f | f in staged :: f in shown)
    && (forall f | f in shown :: !f.delete && (f in staged || IsNormalisedBase(resolve, disk, f)))
  }

  ghost predicate IsNormalisedBase(resolve: Resolver, disk: Disk, f: GeneratedFile) {
    match resolve(f.path)
    case None => false
    case Some(t) => t in disk.files && t !in disk.unreadable && f.content == NormalizeContent(f.path, disk.files[t])
  }

  /** Whatever staged file is written at t is also the last of the shown files written there. */
  ghost predicate SameWriterAt(
    resolve: Resolver, shown: seq<GeneratedFile>, staged: seq<GeneratedFile>, t: Target)
  {
    var writer := LastWriter(resolve, staged, t);
    writer.Some? ==> LastWriter(resolve, shown, t) == writer
  }

  /** Committing the staged files onto the disk gives, at a workflow place, what staging showed the
      validator: exactly so where a staged file is written, and up to trailing line breaks elsewhere. */
  lemma CommitMatchesStage(resolve: Resolver, stageOk: Permissions, commitOk: Permissions, disk: Disk,
                           shown: seq<GeneratedFile>, staged: seq<GeneratedFile>, t: Target)
    requires ShownFrom(resolve, disk, shown, staged) && SameWriterAt(resolve, shown, staged, t)
    requires StageAll(resolve, stageOk, disk, shown).failure.None?
    requires WriteAll(resolve, commitOk, disk.files, staged).failure.None?
    requires InWorkflows(t)
    ensures var seen := Lookup(StageAll(resolve, stageOk, disk, shown).tree, t);
            var left := Lookup(WriteAll(resolve, commitOk, disk.files, staged).tree, t);
            if exists f :: f in staged && resolve(f.path) == Some(t) then seen == left && left.Some?
            else seen.Some? == left.Some? && (seen.Some? ==> SameButNewlines(seen.value, left.value))
  {
    hide AllowedGeneratedPath, IsYaml, NormalizeContent, SameButNewlines;
    WrittenTree(resolve, stageOk, WorkflowPart(disk.files), shown, t);
    WrittenTree(resolve, commitOk, disk.files, staged, t);
    var base := Lookup(disk.files, t);
    assert Lookup(WorkflowPart(disk.files), t) == base;
    var shownAt, stagedAt := LastWriter(resolve, shown, t), LastWriter(resolve, staged, t);
    if stagedAt.Some? {
      assert shownAt == stagedAt && stagedAt.value in shown;
    } else if shownAt.Some? {
      NormalizeStable(shownAt.value.path, base.value);
    } else if base.Some? {
      SameAsItself(base.value);
    }
  }

  /** After the last writer of a place no file of the list names it. */
  lemma {:induction false} LastWriterIsLast(resolve: Resolver, files: seq<GeneratedFile>, t: Target) returns (i: nat)
    requires LastWriter(resolve, files, t).Some?
    ensures i < |files| && files[i] == LastWriter(resolve, files, t).value
    ensures forall j | i < j < |files| :: resolve(files[j].path) != Some(t)
  {
    var later := LastWriter(resolve, files[1..], t);
    if later.Some? {
      i := LastWriterIsLast(resolve, files[1..], t);
      i := i + 1;
      assert forall j | i < j < |files| :: files[j] == files[1..][j - 1];
    } else {
      i := 0;
      assert forall j | 0 < j < |files| :: files[j] in files[1..];
    }
  }

  /** A write that succeeds was allowed everything it did. */
  lemma {:induction false} WrittenWasAllowed(
    resolve: Resolver, ok: Permissions, tree: Tree, files: seq<GeneratedFile>)
    requires WriteAll(resolve, ok, tree, files).failure.None?
    ensures forall f | f in files ::
              AllowedGeneratedPath(f.path) && resolve(f.path).Some? && (!f.delete ==> ok(resolve(f.path).value))
    decreases |files|
  {
    hide AllowedGeneratedPath;
    if files != [] {
      WrittenWasAllowed(resolve, ok, WriteFile(resolve, ok, tree, files[0]).tree, files[1..]);
    }
  }

  lemma SameAsItself(s: string)
    ensures SameButNewlines(s, s)
  {
  }
}
