/** Repairing files from validator diagnostics: TryAutoRepairWithProgram of internal/askrepair/repair.go. */
module AutoRepair {
  import opened Text
  import opened Files
  import opened WorkflowDoc
  import StepIds
  import PathResolve

  datatype Diagnostic = Diagnostic(
    file: string, path: string, message: string, repairOp: string,
    stepId: string, stepKind: string, actual: string, allowed: seq<string>)

  datatype Edit = Edit(op: string, path: string, value: string)

  /** The parts other packages supply: YAML, structured paths and edits, and the step catalogue. */
  datatype Helpers = Helpers(
    parse: (string, string) -> Option<Document>,
    render: Workflow -> Option<string>,
    parsePath: string -> Option<seq<PathResolve.Segment>>,
    printPath: seq<PathResolve.Segment> -> string,
    apply: (string, seq<Edit>) -> Option<string>,
    fieldMigration: (Diagnostic, seq<GeneratedFile>) -> Option<seq<Edit>>,
    literalMigration: (Diagnostic, seq<GeneratedFile>) -> Option<seq<Edit>>,
    fillValue: (Diagnostic, seq<GeneratedFile>) -> Option<string>,
    literalValue: (Diagnostic, seq<GeneratedFile>) -> Option<string>,
    reviewEdits: Diagnostic -> Option<seq<Edit>>)

  // ---------------------------------------------------------------------------------------------
  // Which file a diagnostic is about

  /** workspacepaths.IsWorkflowAuthoringPath */
  predicate IsWorkflowPath(clean: string) {
    clean != "" && (HasPrefix(clean, "workflows/") || Contains(clean, "/workflows/"))
  }

  function LastColon(s: string): (i: int)
    ensures -1 <= i < |s|
  {
    if s == "" then -1 else if s[|s| - 1] == ':' then |s| - 1 else LastColon(s[..|s| - 1])
  }

  predicate AllDigits(s: string) {
    forall c | c in s :: '0' <= c <= '9'
  }

  /** trimLineSuffix: "file:12" names "file". */
  function TrimLineSuffix(path: string): string {
    var i := LastColon(path);
    if i <= 0 || i == |path| - 1 then path
    else if !AllDigits(path[i + 1..]) then path
    else TrimSpace(path[..i])
  }

  function DiagnosticFile(d: Diagnostic): string {
    if IsWorkflowPath(TrimSpace(d.file)) then TrimLineSuffix(TrimSpace(d.file))
    else if IsWorkflowPath(TrimSpace(d.path)) then TrimLineSuffix(TrimSpace(d.path))
    else ""
  }

  /** repairPathAllowed: no list of paths allows all. */
  predicate RepairPathAllowed(path: string, repairPaths: seq<string>) {
    repairPaths == [] || exists p | p in repairPaths :: TrimSpace(p) == TrimSpace(path)
  }

  function DropPrefix(s: string, prefix: string): string {
    if HasPrefix(s, prefix) then s[|prefix|..] else s
  }

  /** repairRawPath over normalizeRepairPath */
  function RepairRawPath(d: Diagnostic): string {
    var path := DropPrefix(DropPrefix(DropPrefix(TrimSpace(d.path), "(root)."), TrimSpace(d.stepKind) + "."), ".");
    if path == "" || HasPrefix(path, "steps[") || HasPrefix(path, "phases[") || HasPrefix(path, "vars.") then path
    else if TrimSpace(d.stepId) != "" then "steps." + TrimSpace(d.stepId) + "." + path
    else path
  }

  // ---------------------------------------------------------------------------------------------
  // Collecting the repairs

  /** The edits collected per file, and the workflows that replace a file outright. */
  datatype Batch = Batch(edits: map<string, seq<Edit>>, replaced: map<string, Workflow>)

  function AddEdits(b: Batch, path: string, edits: seq<Edit>): Batch {
    b.(edits := b.edits[path := (if path in b.edits then b.edits[path] else []) + edits])
  }

  function FilePath(f: GeneratedFile): string {
    TrimSpace(f.path)
  }

  /** renameDuplicateStepIDs for a path: the first file that has it and is not a deletion decides. */
  function Renaming(h: Helpers, path: string, files: seq<GeneratedFile>): Option<Workflow> {
    if files == [] then None
    else if FilePath(files[0]) != path || files[0].delete then Renaming(h, path, files[1..])
    else
      match h.parse(files[0].path, files[0].content)
      case None => None
      case Some(doc) =>
        if doc.workflow.None? then None
        else
          var r := StepIds.RenameWorkflow(doc.workflow.value);
          if r.renamed then Some(r.workflow) else None
  }

  function FixLiteral(h: Helpers, files: seq<GeneratedFile>, d: Diagnostic, raw: string): seq<Edit> {
    var first := if d.allowed != [] then TrimSpace(d.allowed[0]) else "";
    var preferred := h.literalValue(d, files);
    var value := if preferred.Some? && TrimSpace(preferred.value) != "" then preferred.value else first;
    if value != "" then [Edit("set", raw, value)]
    else match h.fillValue(d, files)
      case Some(v) => [Edit("set", raw, v)]
      case None => []
  }

  /** The edits a diagnostic asks for; None when it asks for none at all. */
  function EditsFor(h: Helpers, files: seq<GeneratedFile>, d: Diagnostic): Option<seq<Edit>> {
    var op, raw := TrimSpace(d.repairOp), RepairRawPath(d);
    if op == "remove-field" && raw != "" then
      match h.fieldMigration(d, files)
      case Some(edits) => Some(edits)
      case None => Some([Edit("delete", raw, "")])
    else if op == "fill-field" && raw != "" then
      match h.fillValue(d, files)
      case Some(v) => Some([Edit("set", raw, v)])
      case None => None
    else if op == "fix-literal" && raw != "" then
      match h.literalMigration(d, files)
      case Some(edits) => Some(edits)
      case None => var edits := FixLiteral(h, files, d, raw); if edits == [] then None else Some(edits)
    else if op == "review-diagnostic" then h.reviewEdits(d)
    else None
  }

  /** One turn of the loop over the diagnostics. A replaced file takes no further repairs. */
  function Consider(h: Helpers, files: seq<GeneratedFile>, repairPaths: seq<string>, b: Batch, d: Diagnostic): Batch {
    var path := DiagnosticFile(d);
    if path == "" || !RepairPathAllowed(path, repairPaths) || path in b.replaced then b
    else if TrimSpace(d.repairOp) == "rename-step" then
      match Renaming(h, path, files)
      case Some(w) => b.(replaced := b.replaced[path := w])
      case None => b
    else
      match EditsFor(h, files, d)
      case Some(edits) => AddEdits(b, path, edits)
      case None => b
  }

  function Collect(h: Helpers, files: seq<GeneratedFile>, repairPaths: seq<string>, diags: seq<Diagnostic>): Batch {
    if diags == [] then Batch(map[], map[])
    else
      Consider(h, files, repairPaths, Collect(h, files, repairPaths, diags[..|diags| - 1]), diags[|diags| - 1])
  }

  // ---------------------------------------------------------------------------------------------
  // Applying them

  /** The position a path is repaired at: the last file that has it. */
  function IndexOf(files: seq<GeneratedFile>): map<string, nat> {
    if files == [] then map[]
    else IndexOf(files[..|files| - 1])[FilePath(files[|files| - 1]) := |files| - 1]
  }

  function Resolved(h: Helpers, doc: Document, edits: seq<Edit>): (r: seq<Edit>)
    ensures |r| == |edits|
  {
    seq(|edits|, i requires 0 <= i < |edits| =>
      edits[i].(path := PathResolve.ResolveEditPath(edits[i].path, doc, h.parsePath, h.printPath)))
  }

  /** A file after its edits; a file that does not parse is edited with paths as they are. */
  function EditFile(h: Helpers, path: string, content: string, edits: seq<Edit>): Option<GeneratedFile> {
    var doc := match h.parse(path, content) case Some(d) => d case None => Document(None, false);
    match h.apply(content, Resolved(h, doc, edits))
    case Some(text) => Some(GeneratedFile(path, OneTrailingNewline(text), false))
    case None => None
  }

  function RenderFile(h: Helpers, path: string, w: Workflow): Option<GeneratedFile> {
    match h.render(w)
    case Some(text) => Some(GeneratedFile(path, OneTrailingNewline(text), false))
    case None => None
  }

  /** What the batch makes of a path's file: its replacement, or else its edits, or else nothing. */
  function Repair(h: Helpers, b: Batch, path: string, f: GeneratedFile): Option<GeneratedFile> {
    if path in b.replaced then RenderFile(h, path, b.replaced[path])
    else if path in b.edits && b.edits[path] != [] then EditFile(h, path, f.content, b.edits[path])
    else Some(f)
  }

  predicate Touched(b: Batch, path: string) {
    path in b.replaced || (path in b.edits && b.edits[path] != [])
  }

  /** Every touched file can be repaired. */
  predicate AllSucceed(h: Helpers, b: Batch, files: seq<GeneratedFile>) {
    forall i | 0 <= i < |files| && RepairedAt(b, files, i) :: Repair(h, b, FilePath(files[i]), files[i]).Some?
  }

  /** The repair of position i's path happens at position i. */
  predicate RepairedAt(b: Batch, files: seq<GeneratedFile>, i: nat)
    requires i < |files|
  {
    var p := FilePath(files[i]);
    Touched(b, p) && IsLast(files, i)
  }

  /** No later file has the same path. */
  predicate IsLast(files: seq<GeneratedFile>, i: nat)
    requires i < |files|
  {
    forall j | i < j < |files| :: FilePath(files[j]) != FilePath(files[i])
  }

  /** The file at position i afterwards. */
  function FileAfter(h: Helpers, b: Batch, files: seq<GeneratedFile>, i: nat): GeneratedFile
    requires i < |files|
  {
    if !RepairedAt(b, files, i) then files[i]
    else match Repair(h, b, FilePath(files[i]), files[i])
      case Some(f) => f
      case None => files[i]
  }

  function FilesAfter(h: Helpers, b: Batch, files: seq<GeneratedFile>): (r: seq<GeneratedFile>)
    ensures |r| == |files|
  {
    seq(|files|, i requires 0 <= i < |files| => FileAfter(h, b, files, i))
  }

  datatype Outcome = NotApplied | Failed | Applied(files: seq<GeneratedFile>)

  function RepairSpec(
    h: Helpers, files: seq<GeneratedFile>, diags: seq<Diagnostic>, repairPaths: seq<string>): Outcome
  {
    if files == [] || diags == [] then NotApplied
    else
      var b := Collect(h, files, repairPaths, diags);
      if b.edits == map[] && b.replaced == map[] then NotApplied
      else if !AllSucceed(h, b, files) then Failed
      else Applied(FilesAfter(h, b, files))
  }

  /** Every path has an entry; it is a position of that path, and none is after it. */
  ghost predicate IsGreatestIndex(index: map<string, nat>, files: seq<GeneratedFile>) {
    && (forall p | p in index :: index[p] < |files| && FilePath(files[index[p]]) == p)
    && (forall i | 0 <= i < |files| :: FilePath(files[i]) in index && i <= index[FilePath(files[i])])
  }

  lemma {:induction false} IndexIsGreatest(files: seq<GeneratedFile>)
    ensures IsGreatestIndex(IndexOf(files), files)
  {
    hide FilePath;
    if files != [] {
      var n := |files| - 1;
      IndexIsGreatest(files[..n]);
      assert forall i | 0 <= i < n :: files[..n][i] == files[i];
    }
  }

  /** The map the source builds from paths to positions holds the last position of each path. */
  lemma IndexIsLast(files: seq<GeneratedFile>)
    ensures forall p | p in IndexOf(files) :: IndexOf(files)[p] < |files| && FilePath(files[IndexOf(files)[p]]) == p
    ensures forall i | 0 <= i < |files| :: FilePath(files[i]) in IndexOf(files)
                                           && (IsLast(files, i) <==> IndexOf(files)[FilePath(files[i])] == i)
  {
    hide FilePath, IndexOf;
    IndexIsGreatest(files);
    var index := IndexOf(files);
    forall i | 0 <= i < |files| ensures IsLast(files, i) <==> index[FilePath(files[i])] == i {
      var k := index[FilePath(files[i])];
      assert FilePath(files[k]) == FilePath(files[i]);
    }
  }

  /** One diagnostic adds at most the replacement that renaming yields for its own path. */
  lemma ConsiderReplaces(h: Helpers, files: seq<GeneratedFile>, repairPaths: seq<string>, b: Batch, d: Diagnostic)
    ensures var after := Consider(h, files, repairPaths, b, d).replaced;
            forall p | p in after ::
              (p in b.replaced && after[p] == b.replaced[p]) || Renaming(h, p, files) == Some(after[p])
  {
    hide EditsFor, RepairPathAllowed, DiagnosticFile, Renaming, TrimSpace;
  }

  /** Every replacement is what renaming the path's file yields. */
  lemma {:induction false} ReplacedByRenaming(
    h: Helpers, files: seq<GeneratedFile>, repairPaths: seq<string>, diags: seq<Diagnostic>)
    ensures var r := Collect(h, files, repairPaths, diags).replaced;
            forall p | p in r :: Renaming(h, p, files) == Some(r[p])
  {
    if diags != [] {
      hide Consider, Renaming;
      var n := |diags| - 1;
      ReplacedByRenaming(h, files, repairPaths, diags[..n]);
      ConsiderReplaces(h, files, repairPaths, Collect(h, files, repairPaths, diags[..n]), diags[n]);
    }
  }

  /** A path gets a replacement only if some file has it: the branch that appends a new file is dead. */
  lemma ReplacedPathsExist(h: Helpers, files: seq<GeneratedFile>, repairPaths: seq<string>, diags: seq<Diagnostic>)
    ensures forall p | p in Collect(h, files, repairPaths, diags).replaced :: p in IndexOf(files)
  {
    hide Collect, Renaming, IndexOf, FilePath;
    ReplacedByRenaming(h, files, repairPaths, diags);
    IndexIsLast(files);
    forall p | p in Collect(h, files, repairPaths, diags).replaced ensures p in IndexOf(files) {
      RenamedPathExists(h, p, files);
    }
  }

  lemma {:induction false} RenamedPathExists(h: Helpers, path: string, files: seq<GeneratedFile>)
    requires Renaming(h, path, files).Some?
    ensures exists i :: 0 <= i < |files| && FilePath(files[i]) == path && !files[i].delete
  {
    hide FilePath, StepIds.RenameWorkflow;
    if FilePath(files[0]) != path || files[0].delete {
      RenamedPathExists(h, path, files[1..]);
      var i :| 0 <= i < |files[1..]| && FilePath(files[1..][i]) == path && !files[1..][i].delete;
      assert FilePath(files[i + 1]) == path;
    }
  }

  // ---------------------------------------------------------------------------------------------
  // The loops

  /** The file list while some touched paths are done and the others still wait. */
  ghost predicate Progress(
    h: Helpers, b: Batch, files: seq<GeneratedFile>, repaired: seq<GeneratedFile>, done: set<string>)
  {
    |repaired| == |files| &&
    forall i | 0 <= i < |files| ::
      if RepairedAt(b, files, i) && FilePath(files[i]) in done
      then Repair(h, b, FilePath(files[i]), files[i]) == Some(repaired[i])
      else repaired[i] == files[i]
  }

  /** Repairing one more path, at its last position. */
  lemma OneMore(
    h: Helpers, b: Batch, files: seq<GeneratedFile>, repaired: seq<GeneratedFile>, done: set<string>, p: string,
    f: GeneratedFile)
    requires Progress(h, b, files, repaired, done) && p !in done && Touched(b, p) && p in IndexOf(files)
    requires IndexOf(files)[p] < |files| ==> Repair(h, b, p, files[IndexOf(files)[p]]) == Some(f)
    ensures IndexOf(files)[p] < |files| && Progress(h, b, files, repaired[IndexOf(files)[p] := f], done + {p})
  {
    hide Repair, FilePath, IndexOf, Touched;
    IndexIsLast(files);
  }

  /** A path with nothing to do, or that no file has, may count as done. */
  lemma NothingToDo(
    h: Helpers, b: Batch, files: seq<GeneratedFile>, repaired: seq<GeneratedFile>, done: set<string>, p: string)
    requires Progress(h, b, files, repaired, done)
    requires p in done || !Touched(b, p) || p !in IndexOf(files)
    ensures Progress(h, b, files, repaired, done + {p})
  {
    hide Repair, FilePath, IndexOf, Touched;
    IndexIsLast(files);
  }

  /** A repair that fails makes the whole call fail. */
  lemma OneFails(h: Helpers, b: Batch, files: seq<GeneratedFile>, p: string)
    requires Touched(b, p) && p in IndexOf(files)
    requires IndexOf(files)[p] < |files| ==> Repair(h, b, p, files[IndexOf(files)[p]]).None?
    ensures !AllSucceed(h, b, files)
  {
    hide Repair, FilePath, IndexOf, Touched;
    IndexIsLast(files);
    assert RepairedAt(b, files, IndexOf(files)[p]);
  }

  lemma AllDone(h: Helpers, b: Batch, files: seq<GeneratedFile>, repaired: seq<GeneratedFile>, done: set<string>)
    requires Progress(h, b, files, repaired, done) && b.replaced.Keys + b.edits.Keys <= done
    ensures AllSucceed(h, b, files) && repaired == FilesAfter(h, b, files)
  {
    hide Repair, FilePath, IsLast;
  }

  lemma StartProgress(h: Helpers, b: Batch, files: seq<GeneratedFile>)
    ensures Progress(h, b, files, files, {})
  {
  }

  lemma UntouchedYet(
    h: Helpers, b: Batch, files: seq<GeneratedFile>, repaired: seq<GeneratedFile>, done: set<string>, p: string)
    requires Progress(h, b, files, repaired, done) && p !in done && p in IndexOf(files)
    ensures IndexOf(files)[p] < |files| == |repaired| && repaired[IndexOf(files)[p]] == files[IndexOf(files)[p]]
  {
    hide Repair, FilePath, IndexOf, Touched;
    IndexIsLast(files);
  }

  lemma RepairOfReplaced(h: Helpers, b: Batch, p: string, f: GeneratedFile)
    requires p in b.replaced
    ensures Touched(b, p) && Repair(h, b, p, f) == RenderFile(h, p, b.replaced[p])
  {
  }

  lemma RepairOfEdited(h: Helpers, b: Batch, p: string, f: GeneratedFile)
    requires p !in b.replaced && p in b.edits && b.edits[p] != []
    ensures Touched(b, p) && Repair(h, b, p, f) == EditFile(h, p, f.content, b.edits[p])
  {
  }

  method BuildIndex(files: seq<GeneratedFile>) returns (index: map<string, nat>)
    ensures index == IndexOf(files)
  {
    hide FilePath;
    index := map[];
    for i := 0 to |files|
      invariant index == IndexOf(files[..i])
    {
      assert files[..i + 1][..i] == files[..i];
      index := index[FilePath(files[i]) := i];
    }
    assert files[..|files|] == files;
  }

  /** TryAutoRepairWithProgram. The two maps are walked in an arbitrary order; the outcome is a function
      of the arguments, so the order does not matter. On failure the caller keeps its files. */
  method TryAutoRepair(h: Helpers, files: seq<GeneratedFile>, diags: seq<Diagnostic>, repairPaths: seq<string>)
    returns (r: Outcome)
    ensures r == RepairSpec(h, files, diags, repairPaths)
  {
    hide Consider, AllSucceed, FilesAfter, Repair, FilePath, Progress, IndexOf;
    if |files| == 0 || |diags| == 0 { return NotApplied; }
    var b := Batch(map[], map[]);
    for i := 0 to |diags|
      invariant b == Collect(h, files, repairPaths, diags[..i])
    {
      assert diags[..i + 1][..i] == diags[..i];
      b := Consider(h, files, repairPaths, b, diags[i]);
    }
    assert diags[..|diags|] == diags;
    if b.edits == map[] && b.replaced == map[] { return NotApplied; }
    var repaired := files;
    var index := BuildIndex(files);
    ReplacedPathsExist(h, files, repairPaths, diags);
    IndexIsLast(files);
    StartProgress(h, b, files);
    var todo, done: set<string> := b.replaced.Keys, {};
    while todo != {}
      invariant todo <= b.replaced.Keys && todo !! done && todo + done == b.replaced.Keys
      invariant Progress(h, b, files, repaired, done)
      decreases todo
    {
      var path :| path in todo;
      RepairOfReplaced(h, b, path, files[index[path]]);
      var file := RenderFile(h, path, b.replaced[path]);
      if file.None? {
        OneFails(h, b, files, path);
        return Failed;
      }
      UntouchedYet(h, b, files, repaired, done, path);
      OneMore(h, b, files, repaired, done, path, file.value);
      repaired := repaired[index[path] := file.value];
      todo, done := todo - {path}, done + {path};
    }
    todo := b.edits.Keys;
    while todo != {}
      invariant todo <= b.edits.Keys && b.replaced.Keys + b.edits.Keys == todo + done
      invariant todo * done <= b.replaced.Keys <= done
      invariant Progress(h, b, files, repaired, done)
      decreases todo
    {
      var path :| path in todo;
      if path in b.replaced || b.edits[path] == [] || path !in index {
        NothingToDo(h, b, files, repaired, done, path);
      } else {
        RepairOfEdited(h, b, path, files[index[path]]);
        UntouchedYet(h, b, files, repaired, done, path);
        var file := EditFile(h, path, repaired[index[path]].content, b.edits[path]);
        if file.None? {
          OneFails(h, b, files, path);
          return Failed;
        }
        OneMore(h, b, files, repaired, done, path, file.value);
        repaired := repaired[index[path] := file.value];
      }
      todo, done := todo - {path}, done + {path};
    }
    AllDone(h, b, files, repaired, done);
    return Applied(repaired);
  }

  // ---------------------------------------------------------------------------------------------
  // What a repair may change

  /** Some diagnostic that may be repaired is about the path. */
  ghost predicate Named(path: string, diags: seq<Diagnostic>, repairPaths: seq<string>) {
    exists d :: d in diags && DiagnosticFile(d) == path && RepairPathAllowed(path, repairPaths)
  }

  lemma ConsiderTouches(
    h: Helpers, files: seq<GeneratedFile>, repairPaths: seq<string>, b: Batch, d: Diagnostic, p: string)
    requires var after := Consider(h, files, repairPaths, b, d); p in after.edits || p in after.replaced
    ensures p in b.edits || p in b.replaced || (p == DiagnosticFile(d) && RepairPathAllowed(p, repairPaths))
  {
    hide EditsFor, RepairPathAllowed, DiagnosticFile, Renaming, TrimSpace;
  }

  /** Only paths named by an allowed diagnostic enter the batch. */
  lemma {:induction false} TouchedPathIsNamed(
    h: Helpers, files: seq<GeneratedFile>, repairPaths: seq<string>, diags: seq<Diagnostic>, p: string)
    requires var b := Collect(h, files, repairPaths, diags); p in b.edits || p in b.replaced
    ensures Named(p, diags, repairPaths)
  {
    hide Consider, RepairPathAllowed, DiagnosticFile;
    if diags != [] {
      var n := |diags| - 1;
      var before := Collect(h, files, repairPaths, diags[..n]);
      if p in before.edits || p in before.replaced {
        TouchedPathIsNamed(h, files, repairPaths, diags[..n], p);
        var d :| d in diags[..n] && DiagnosticFile(d) == p && RepairPathAllowed(p, repairPaths);
        assert d in diags;
      } else {
        ConsiderTouches(h, files, repairPaths, before, diags[n], p);
        assert diags[n] in diags;
      }
    }
  }

  /** A replaced file takes no further repairs: from the diagnostic that replaced it on, whatever diagnostics
      follow, its replacement and the edits collected before stay as they are. */
  lemma {:induction false} ReplacedTakesNoEdits(h: Helpers, files: seq<GeneratedFile>, repairPaths: seq<string>,
                                                diags: seq<Diagnostic>, more: seq<Diagnostic>, p: string)
    requires p in Collect(h, files, repairPaths, diags).replaced
    ensures var b, after := Collect(h, files, repairPaths, diags), Collect(h, files, repairPaths, diags + more);
            p in after.replaced && after.replaced[p] == b.replaced[p] &&
            (p in after.edits <==> p in b.edits) && (p in b.edits ==> after.edits[p] == b.edits[p])
  {
    hide Consider;
    if more == [] {
      assert diags + more == diags;
    } else {
      var n := |more| - 1;
      ReplacedTakesNoEdits(h, files, repairPaths, diags, more[..n], p);
      assert (diags + more)[..|diags + more| - 1] == diags + more[..n];
      ConsiderLeavesReplaced(h, files, repairPaths, Collect(h, files, repairPaths, diags + more[..n]), more[n], p);
    }
  }

  lemma ConsiderLeavesReplaced(
    h: Helpers, files: seq<GeneratedFile>, repairPaths: seq<string>, b: Batch, d: Diagnostic, p: string)
    requires p in b.replaced
    ensures var after := Consider(h, files, repairPaths, b, d);
            p in after.replaced && after.replaced[p] == b.replaced[p] &&
            (p in after.edits <==> p in b.edits) && (p in b.edits ==> after.edits[p] == b.edits[p])
  {
    hide EditsFor, RepairPathAllowed, DiagnosticFile, Renaming, TrimSpace;
  }

  /** How position i may differ after an applied repair. */
  ghost predicate FrameHolds(h: Helpers, files: seq<GeneratedFile>, diags: seq<Diagnostic>, repairPaths: seq<string>,
                             i: nat, after: GeneratedFile)
    requires i < |files|
  {
    var p := FilePath(files[i]);
    var b := Collect(h, files, repairPaths, diags);
    && FilePath(after) == p
    && (after != files[i] ==>
          && Named(p, diags, repairPaths)
          && WellRendered(after, p)
          && (if p in b.replaced
              then Renaming(h, p, files) == Some(b.replaced[p]) && RenderFile(h, p, b.replaced[p]) == Some(after)
              else p in b.edits && EditFile(h, p, files[i].content, b.edits[p]) == Some(after)))
  }

  lemma FilePathStable(f: GeneratedFile, content: string)
    ensures FilePath(GeneratedFile(FilePath(f), content, false)) == FilePath(f)
  {
    TrimIdempotent(f.path, IsSpace);
  }

  lemma OneNewlineStable(text: string)
    ensures OneTrailingNewline(OneTrailingNewline(text)) == OneTrailingNewline(text)
  {
    TrimNewlinesOnce(text);
  }

  /** A rendered or edited file is a live file of its path whose text ends in one line break. */
  ghost predicate WellRendered(f: GeneratedFile, path: string) {
    f.path == path && !f.delete && f.content == OneTrailingNewline(f.content)
  }

  lemma RenderedWell(h: Helpers, path: string, w: Workflow)
    ensures var r := RenderFile(h, path, w); r.Some? ==> WellRendered(r.value, path)
  {
    hide OneTrailingNewline;
    if h.render(w).Some? { OneNewlineStable(h.render(w).value); }
  }

  lemma EditedWell(h: Helpers, path: string, content: string, edits: seq<Edit>)
    ensures var r := EditFile(h, path, content, edits); r.Some? ==> WellRendered(r.value, path)
  {
    hide OneTrailingNewline, Resolved;
    var doc := match h.parse(path, content) case Some(d) => d case None => Document(None, false);
    var applied := h.apply(content, Resolved(h, doc, edits));
    if applied.Some? { OneNewlineStable(applied.value); }
  }

  /** An applied repair keeps the number and position of the files; a file differs only if an allowed
      diagnostic names its path, and then it is either the rendering of its renamed workflow or the
      result of its edits, never a mixture. */
  lemma RepairFrame(h: Helpers, files: seq<GeneratedFile>, diags: seq<Diagnostic>, repairPaths: seq<string>)
    ensures var r := RepairSpec(h, files, diags, repairPaths);
            r.Applied? ==> (|r.files| == |files| &&
                            forall i | 0 <= i < |files| :: FrameHolds(h, files, diags, repairPaths, i, r.files[i]))
  {
    hide Collect, AllSucceed, FilePath, Repair, Named, Renaming;
    var r := RepairSpec(h, files, diags, repairPaths);
    if r.Applied? {
      forall i | 0 <= i < |files| ensures FrameHolds(h, files, diags, repairPaths, i, r.files[i]) {
        FrameAt(h, files, diags, repairPaths, i);
      }
    }
  }

  lemma FrameAt(h: Helpers, files: seq<GeneratedFile>, diags: seq<Diagnostic>, repairPaths: seq<string>, i: nat)
    requires i < |files| && AllSucceed(h, Collect(h, files, repairPaths, diags), files)
    ensures FrameHolds(h, files, diags, repairPaths, i, FileAfter(h, Collect(h, files, repairPaths, diags), files, i))
  {
    hide Collect, FilePath, Named, Renaming, RenderFile, EditFile, IsLast, WellRendered, DiagnosticFile;
    var b := Collect(h, files, repairPaths, diags);
    var p, after := FilePath(files[i]), FileAfter(h, b, files, i);
    if RepairedAt(b, files, i) {
      TouchedPathIsNamed(h, files, repairPaths, diags, p);
      ReplacedByRenaming(h, files, repairPaths, diags);
      if p in b.replaced {
        RenderedWell(h, p, b.replaced[p]);
      } else {
        EditedWell(h, p, files[i].content, b.edits[p]);
      }
      FilePathStable(files[i], after.content);
      WellRenderedShape(after, p);
    }
  }

  lemma WellRenderedShape(f: GeneratedFile, path: string)
    requires WellRendered(f, path)
    ensures f == GeneratedFile(path, f.content, false)
  {
  }

  /** Diagnostics that name no path they may repair neither repair anything nor make the call fail. */
  lemma UnnamedDiagnosticsDoNothing(
    h: Helpers, files: seq<GeneratedFile>, diags: seq<Diagnostic>, repairPaths: seq<string>)
    requires forall d | d in diags ::
               DiagnosticFile(d) == "" || !RepairPathAllowed(DiagnosticFile(d), repairPaths)
    ensures RepairSpec(h, files, diags, repairPaths) == NotApplied
  {
    hide Collect, RepairPathAllowed, DiagnosticFile, AllSucceed, FilesAfter;
    var b := Collect(h, files, repairPaths, diags);
    forall p | p in b.edits || p in b.replaced ensures p == "" {
      TouchedPathIsNamed(h, files, repairPaths, diags, p);
    }
    BlankIsNeverTouched(h, files, repairPaths, diags);
    assert b.edits == map[] && b.replaced == map[];
  }

  lemma {:induction false} BlankIsNeverTouched(
    h: Helpers, files: seq<GeneratedFile>, repairPaths: seq<string>, diags: seq<Diagnostic>)
    ensures var b := Collect(h, files, repairPaths, diags); "" !in b.edits && "" !in b.replaced
  {
    hide EditsFor, RepairPathAllowed, DiagnosticFile, Renaming, TrimSpace;
    if diags != [] {
      BlankIsNeverTouched(h, files, repairPaths, diags[..|diags| - 1]);
    }
  }
}
