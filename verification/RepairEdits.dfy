/** What the automatic repair writes into a file, told by the diagnostics about it. */
module RepairEdits {
  import opened Text
  import opened Files
  import opened WorkflowDoc
  import opened AutoRepair
  import StepIds
  import PathResolve
  import ScopeFacts

  function Op(d: Diagnostic): string {
    TrimSpace(d.repairOp)
  }

  /** The file is on the list of those that may be repaired, or there is no list. */
  predicate MayRepair(p: string, repairPaths: seq<string>) {
    repairPaths != [] ==> exists q | q in repairPaths :: TrimSpace(q) == TrimSpace(p)
  }

  lemma MayRepairIs(p: string, repairPaths: seq<string>)
    ensures RepairPathAllowed(p, repairPaths) == MayRepair(p, repairPaths)
  {
    hide TrimSpace;
  }

  /** The diagnostic is about the file p, which may be repaired. */
  predicate AboutFile(d: Diagnostic, p: string, repairPaths: seq<string>) {
    p != "" && DiagnosticFile(d) == p && MayRepair(p, repairPaths)
  }

  /** No diagnostic asks to rename the steps of p, or there is nothing to rename. */
  predicate NotRenamed(
    h: Helpers, files: seq<GeneratedFile>, diags: seq<Diagnostic>, repairPaths: seq<string>, p: string)
  {
    Renaming(h, p, files).None? || forall d | d in diags && AboutFile(d, p, repairPaths) :: Op(d) != "rename-step"
  }

  /** The literal a fix-literal puts in when no migration handles the field: the preferred one, else the first
      allowed one, else the fill value. */
  ghost predicate IsLiteral(h: Helpers, files: seq<GeneratedFile>, d: Diagnostic, value: Option<string>) {
    var preferred, first := h.literalValue(d, files), if d.allowed == [] then "" else TrimSpace(d.allowed[0]);
    && (preferred.Some? && TrimSpace(preferred.value) != "" ==> value == preferred)
    && ((preferred.None? || TrimSpace(preferred.value) == "") && first != "" ==> value == Some(first))
    && ((preferred.None? || TrimSpace(preferred.value) == "") && first == "" ==> value == h.fillValue(d, files))
  }

  /** The edits a diagnostic puts into its file, operation by operation. */
  ghost predicate IsBlock(h: Helpers, files: seq<GeneratedFile>, d: Diagnostic, block: seq<Edit>) {
    var raw := RepairRawPath(d);
    && (Op(d) == "remove-field" && raw != "" ==>
          block == match h.fieldMigration(d, files) case Some(edits) => edits case None => [Edit("delete", raw, "")])
    && (Op(d) == "fill-field" && raw != "" ==>
          block == match h.fillValue(d, files) case Some(v) => [Edit("set", raw, v)] case None => [])
    && (Op(d) == "fix-literal" && raw != "" && h.literalMigration(d, files).Some? ==>
          block == h.literalMigration(d, files).value)
    && (Op(d) == "fix-literal" && raw != "" && h.literalMigration(d, files).None? ==>
          exists value :: IsLiteral(h, files, d, value) &&
                          block == match value case Some(v) => [Edit("set", raw, v)] case None => [])
    && (Op(d) == "review-diagnostic" ==>
          block == match h.reviewEdits(d) case Some(edits) => edits case None => [])
    && (Op(d) in ["remove-field", "fill-field", "fix-literal"] && raw == "" ==> block == [])
    && (Op(d) !in ["remove-field", "fill-field", "fix-literal", "review-diagnostic"] ==> block == [])
  }

  function Flat(blocks: seq<seq<Edit>>): seq<Edit> {
    if blocks == [] then [] else Flat(blocks[..|blocks| - 1]) + blocks[|blocks| - 1]
  }

  /** One block for each diagnostic about the file, in order, and nothing for the others. */
  ghost predicate AreBlocks(h: Helpers, files: seq<GeneratedFile>, diags: seq<Diagnostic>, repairPaths: seq<string>,
                            p: string, blocks: seq<seq<Edit>>)
  {
    |blocks| == |diags| &&
    forall k | 0 <= k < |diags| ::
      if AboutFile(diags[k], p, repairPaths) then IsBlock(h, files, diags[k], blocks[k]) else blocks[k] == []
  }

  // ---------------------------------------------------------------------------------------------
  // Collecting

  function Given(edits: Option<seq<Edit>>): seq<Edit> {
    if edits.Some? then edits.value else []
  }

  lemma EditsAreBlock(h: Helpers, files: seq<GeneratedFile>, d: Diagnostic)
    ensures IsBlock(h, files, d, Given(EditsFor(h, files, d)))
  {
    hide RepairRawPath, TrimSpace, FixLiteral, IsLiteral;
    var raw := RepairRawPath(d);
    if Op(d) == "fix-literal" && raw != "" && h.literalMigration(d, files).None? {
      var value := LiteralIs(h, files, d, raw);
    }
  }

  lemma LiteralIs(h: Helpers, files: seq<GeneratedFile>, d: Diagnostic, raw: string) returns (value: Option<string>)
    ensures IsLiteral(h, files, d, value)
    ensures FixLiteral(h, files, d, raw) == match value case Some(v) => [Edit("set", raw, v)] case None => []
  {
    hide TrimSpace;
    assert TrimSpace("") == "" by { BlankIsTrimmed(); }
    var preferred, first := h.literalValue(d, files), if d.allowed == [] then "" else TrimSpace(d.allowed[0]);
    value := if preferred.Some? && TrimSpace(preferred.value) != "" then preferred
             else if first != "" then Some(first) else h.fillValue(d, files);
  }

  lemma BlankIsTrimmed()
    ensures TrimSpace("") == ""
  {
  }

  function EditsAt(b: Batch, p: string): seq<Edit> {
    if p in b.edits then b.edits[p] else []
  }

  /** One diagnostic adds the edits it asks for to its own file. */
  lemma ConsiderAdds(
    h: Helpers, files: seq<GeneratedFile>, repairPaths: seq<string>, b: Batch, d: Diagnostic, p: string)
    requires p !in b.replaced
    requires AboutFile(d, p, repairPaths) && Op(d) == "rename-step" ==> Renaming(h, p, files).None?
    ensures var after := Consider(h, files, repairPaths, b, d);
            var asked := if AboutFile(d, p, repairPaths) then Given(EditsFor(h, files, d)) else [];
            p !in after.replaced && EditsAt(after, p) == EditsAt(b, p) + asked
  {
    hide EditsFor, Renaming, DiagnosticFile, RepairPathAllowed, MayRepair, TrimSpace;
    MayRepairIs(p, repairPaths);
    RenameAsksNothing(h, files, d);
    assert EditsAt(b, p) + [] == EditsAt(b, p);
  }

  /** What has been collected for a file that is not renamed is the blocks of the diagnostics about it. */
  lemma {:induction false} CollectedBlocks(
    h: Helpers, files: seq<GeneratedFile>, repairPaths: seq<string>, diags: seq<Diagnostic>, p: string)
    returns (blocks: seq<seq<Edit>>)
    requires NotRenamed(h, files, diags, repairPaths, p)
    ensures AreBlocks(h, files, diags, repairPaths, p, blocks)
    ensures var b := Collect(h, files, repairPaths, diags); p !in b.replaced && EditsAt(b, p) == Flat(blocks)
  {
    hide EditsFor, Renaming, AboutFile, IsBlock, TrimSpace, Consider;
    if diags == [] {
      blocks := [];
    } else {
      var n := |diags| - 1;
      var d := diags[n];
      assert forall e | e in diags[..n] :: e in diags;
      var before := CollectedBlocks(h, files, repairPaths, diags[..n], p);
      var block := if AboutFile(d, p, repairPaths) then Given(EditsFor(h, files, d)) else [];
      blocks := before + [block];
      EditsAreBlock(h, files, d);
      ConsiderAdds(h, files, repairPaths, Collect(h, files, repairPaths, diags[..n]), d, p);
      assert blocks[..n] == before;
    }
  }

  lemma RenameAsksNothing(h: Helpers, files: seq<GeneratedFile>, d: Diagnostic)
    ensures Op(d) == "rename-step" ==> EditsFor(h, files, d).None?
  {
    hide RepairRawPath, TrimSpace;
  }

  // ---------------------------------------------------------------------------------------------
  // Applying

  /** What is sent to the structured editor: the edits as they are, each path led to where it points. */
  ghost predicate AreSent(h: Helpers, doc: Document, edits: seq<Edit>, sent: seq<Edit>) {
    |sent| == |edits| &&
    forall k | 0 <= k < |edits| ::
      sent[k].op == edits[k].op && sent[k].value == edits[k].value &&
      PathResolve.SentFor(edits[k].path, doc, h.parsePath, h.printPath, sent[k].path)
  }

  /** The file as the repair reads it; one that does not parse has no steps to look up. */
  function DocumentOf(h: Helpers, path: string, content: string): Document {
    match h.parse(path, content) case Some(doc) => doc case None => Document(None, false)
  }

  /** Writing the edits into a file's text gives this file, or fails. */
  ghost predicate EditsGive(h: Helpers, path: string, content: string, edits: seq<Edit>, after: Option<GeneratedFile>) {
    exists sent :: AreSent(h, DocumentOf(h, path, content), edits, sent) &&
                   match h.apply(content, sent)
                   case None => after == None
                   case Some(text) => after == Some(GeneratedFile(path, OneTrailingNewline(text), false))
  }

  lemma EditFileGives(h: Helpers, path: string, content: string, edits: seq<Edit>)
    ensures EditsGive(h, path, content, edits, EditFile(h, path, content, edits))
  {
    hide PathResolve.ResolveEditPath, PathResolve.SentFor, OneTrailingNewline;
    var doc := DocumentOf(h, path, content);
    forall k | 0 <= k < |edits| {
      PathResolve.ResolvedPathLeads(edits[k].path, doc, h.parsePath, h.printPath);
    }
    assert AreSent(h, doc, edits, Resolved(h, doc, edits));
  }

  /** In a repair that applies, a file whose steps are not renamed is left alone if the diagnostics about it ask for
      no edit, and otherwise is its text after their edits, in the order of the diagnostics. */
  lemma EditsInOrder(
    h: Helpers, files: seq<GeneratedFile>, diags: seq<Diagnostic>, repairPaths: seq<string>, i: nat)
    returns (blocks: seq<seq<Edit>>)
    requires i < |files| && IsLast(files, i) && NotRenamed(h, files, diags, repairPaths, FilePath(files[i]))
    requires RepairSpec(h, files, diags, repairPaths).Applied?
    ensures AreBlocks(h, files, diags, repairPaths, FilePath(files[i]), blocks)
    ensures var after := RepairSpec(h, files, diags, repairPaths).files;
            |after| == |files| &&
            if Flat(blocks) == [] then after[i] == files[i]
            else EditsGive(h, FilePath(files[i]), files[i].content, Flat(blocks), Some(after[i]))
  {
    hide Collect, IsLast, FilePath, EditFile, RenderFile, Renaming, AreBlocks, EditsGive, DiagnosticFile, TrimSpace;
    var p, b := FilePath(files[i]), Collect(h, files, repairPaths, diags);
    blocks := CollectedBlocks(h, files, repairPaths, diags, p);
    EditFileGives(h, p, files[i].content, Flat(blocks));
    if Flat(blocks) != [] {
      assert Touched(b, p) && RepairedAt(b, files, i);
      assert Repair(h, b, p, files[i]).Some?;
    }
  }

  lemma CollectOne(h: Helpers, files: seq<GeneratedFile>, repairPaths: seq<string>, d: Diagnostic)
    ensures Collect(h, files, repairPaths, [d]) == Consider(h, files, repairPaths, Batch(map[], map[]), d)
  {
    hide Consider;
    assert [d][..0] == [];
    assert Collect(h, files, repairPaths, []) == Batch(map[], map[]);
  }

  /** All that a repair of one file from one diagnostic can come to, unless it renames: it applies the edits the
      diagnostic asks for, and fails exactly when they cannot be written. */
  lemma OneDiagnostic(h: Helpers, f: GeneratedFile, d: Diagnostic, repairPaths: seq<string>)
    returns (block: seq<Edit>, after: Option<GeneratedFile>)
    requires AboutFile(d, FilePath(f), repairPaths) && Op(d) != "rename-step"
    ensures IsBlock(h, [f], d, block) && EditsGive(h, FilePath(f), f.content, block, after)
    ensures var r := RepairSpec(h, [f], [d], repairPaths);
            if block == [] then r in {NotApplied, Applied([f])}
            else r == match after case Some(g) => Applied([g]) case None => Failed
  {
    hide EditsFor, FilePath, DiagnosticFile, RepairPathAllowed, MayRepair, IsBlock, EditsGive, EditFile, RenderFile,
         TrimSpace;
    var p, edits := FilePath(f), EditsFor(h, [f], d);
    MayRepairIs(p, repairPaths);
    EditsAreBlock(h, [f], d);
    block := Given(edits);
    after := EditFile(h, p, f.content, block);
    EditFileGives(h, p, f.content, block);
    CollectOne(h, [f], repairPaths, d);
    var b := Collect(h, [f], repairPaths, [d]);
    if edits.Some? {
      assert [] + block == block;
      assert b == AddEdits(Batch(map[], map[]), p, block);
      assert b.edits == map[p := block];
      assert FilePath([f][0]) == p;
      assert RepairedAt(b, [f], 0) <==> block != [];
      assert FilesAfter(h, b, [f]) == [FileAfter(h, b, [f], 0)];
      assert AllSucceed(h, b, [f]) <==> (block != [] ==> after.Some?);
    }
  }

  /** Renaming: the steps of the parsed file with duplicate ids are renamed and it is rendered anew. */
  lemma OneRename(h: Helpers, f: GeneratedFile, d: Diagnostic, repairPaths: seq<string>, w: Workflow)
    requires AboutFile(d, FilePath(f), repairPaths) && Op(d) == "rename-step" && !f.delete
    requires h.parse(f.path, f.content).Some? && h.parse(f.path, f.content).value.workflow == Some(w)
    ensures var r := RepairSpec(h, [f], [d], repairPaths);
            if !StepIds.HasDuplicate(StepIds.Items(w)) then r == NotApplied
            else match h.render(StepIds.RenameWorkflow(w).workflow)
                 case None => r == Failed
                 case Some(text) => r == Applied([GeneratedFile(FilePath(f), OneTrailingNewline(text), false)])
  {
    hide FilePath, DiagnosticFile, RepairPathAllowed, MayRepair, StepIds.HasDuplicate, StepIds.RenameWorkflow,
         StepIds.Items, TrimSpace, OneTrailingNewline;
    var p := FilePath(f);
    MayRepairIs(p, repairPaths);
    StepIds.RenamedIdsAreDistinct(w);
    CollectOne(h, [f], repairPaths, d);
    assert FilePath([f][0]) == p;
    var b := Collect(h, [f], repairPaths, [d]);
    if StepIds.HasDuplicate(StepIds.Items(w)) {
      assert b.replaced == map[p := StepIds.RenameWorkflow(w).workflow];
      assert RepairedAt(b, [f], 0);
      assert FilesAfter(h, b, [f]) == [FileAfter(h, b, [f], 0)];
    }
  }

  // ---------------------------------------------------------------------------------------------
  // Which file, and which path in it

  lemma {:induction false} LastColonIs(s: string, i: int)
    requires -1 <= i < |s| && (i >= 0 ==> s[i] == ':') && forall j | i < j < |s| :: s[j] != ':'
    ensures LastColon(s) == i
  {
    if i < |s| - 1 {
      LastColonIs(s[..|s| - 1], i);
    }
  }

  /** "file:12" names "file". */
  lemma LineSuffixGoes(path: string, line: string)
    requires path != "" && TrimSpace(path) == path && ':' !in path && (line == "" || AllDigits(line))
    ensures TrimLineSuffix(if line == "" then path else path + ":" + line) == path
  {
    hide TrimSpace;
    if line == "" {
      LastColonIs(path, -1);
    } else {
      var full := path + ":" + line;
      forall j | |path| < j < |full| ensures full[j] != ':' {
        assert full[j] == line[j - |path| - 1] && line[j - |path| - 1] in line;
      }
      LastColonIs(full, |path|);
      assert full[|path| + 1..] == line && full[..|path|] == path;
    }
  }

  /** A path with a line number at its end. */
  ghost predicate HasLine(path: string, front: string, line: string) {
    front != "" && line != "" && AllDigits(line) && path == front + ":" + line
  }

  /** Only a colon with a number behind it and something in front of it is cut off. */
  lemma LineSuffixIff(path: string)
    ensures (exists front, line :: HasLine(path, front, line) && TrimLineSuffix(path) == TrimSpace(front))
            || (TrimLineSuffix(path) == path && forall front, line :: !HasLine(path, front, line))
  {
    hide TrimSpace;
    var i := LastColon(path);
    LastColonFacts(path);
    forall front, line | HasLine(path, front, line)
      ensures i == |front| && line == path[i + 1..] && front == path[..i]
    {
      assert path[|front| + 1..] == line && path[..|front|] == front;
      forall j | |front| < j < |path| ensures path[j] != ':' {
        assert path[j] == line[j - |front| - 1] && line[j - |front| - 1] in line;
      }
      LastColonIs(path, |front|);
    }
    if 0 < i < |path| - 1 && AllDigits(path[i + 1..]) {
      assert path == path[..i] + ":" + path[i + 1..];
      assert HasLine(path, path[..i], path[i + 1..]);
    }
  }

  lemma {:induction false} LastColonFacts(s: string)
    ensures LastColon(s) >= 0 ==> s[LastColon(s)] == ':'
  {
    if s != "" && s[|s| - 1] != ':' {
      LastColonFacts(s[..|s| - 1]);
    }
  }

  /** A workflow file is one below a directory "workflows", wherever that is. */
  lemma WorkflowPathIff(clean: string)
    ensures IsWorkflowPath(clean) <==>
              exists front, rest :: ScopeFacts.IsFront(front) && clean == front + "workflows/" + rest
  {
    hide Contains, HasPrefix, ScopeFacts.IsFront;
    ScopeFacts.BelowIff(clean, "workflows/");
    WorkflowPathIs(clean);
  }

  lemma WorkflowPathIs(clean: string)
    ensures IsWorkflowPath(clean) == ScopeFacts.IsBelow(clean, "workflows/")
  {
    hide Contains;
    assert "/" + "workflows/" == "/workflows/";
    NothingInEmpty();
  }

  lemma NothingInEmpty()
    ensures !Contains("", "/workflows/") && !HasPrefix("", "workflows/")
  {
  }

  /** A diagnostic is about the workflow file its file field names, with or without a line number, or else about
      the one its path field names in that way. */
  lemma DiagnosticNames(d: Diagnostic, path: string, line: string)
    requires path != "" && TrimSpace(path) == path && ':' !in path && (line == "" || AllDigits(line))
    requires var named := if line == "" then path else path + ":" + line;
             IsWorkflowPath(named) &&
             (TrimSpace(d.file) == named || (!IsWorkflowPath(TrimSpace(d.file)) && TrimSpace(d.path) == named))
    ensures DiagnosticFile(d) == path
  {
    hide TrimSpace, IsWorkflowPath;
    LineSuffixGoes(path, line);
  }

  /** The path of a diagnostic in its file: "(root).", the step kind and a dot in front go, in that order; a path
      from the root of the file stays, and any other is taken below the step the diagnostic names. */
  lemma RawPathIs(d: Diagnostic, root: string, kind: string, dot: string, rest: string)
    requires root in {"", "(root)."} && kind in {"", TrimSpace(d.stepKind) + "."} && dot in {"", "."}
    requires TrimSpace(d.path) == root + (kind + (dot + rest))
    requires root == "" ==> !HasPrefix(kind + (dot + rest), "(root).")
    requires kind == "" ==> !HasPrefix(dot + rest, TrimSpace(d.stepKind) + ".")
    requires dot == "" ==> !HasPrefix(rest, ".")
    ensures RepairRawPath(d)
         == if rest != "" && !HasPrefix(rest, "steps[") && !HasPrefix(rest, "phases[") && !HasPrefix(rest, "vars.")
               && TrimSpace(d.stepId) != ""
            then "steps." + TrimSpace(d.stepId) + "." + rest else rest
  {
    hide TrimSpace;
    DropFront(root, "(root).", kind + (dot + rest));
    DropFront(kind, TrimSpace(d.stepKind) + ".", dot + rest);
    DropFront(dot, ".", rest);
  }

  lemma DropFront(front: string, prefix: string, rest: string)
    requires front in {"", prefix} && (front == "" ==> !HasPrefix(rest, prefix) || prefix == "")
    ensures DropPrefix(front + rest, prefix) == rest
  {
    if front == "" && prefix != "" {
      assert front + rest == rest;
    } else {
      assert (front + rest)[|front|..] == rest;
    }
  }
}
