/** Exactly when the automatic repair drops the prepare file, told by the diagnostics and the files. */
module PrepareDrop {
  import opened Text
  import opened Files
  import opened Session
  import opened GenerationValidate
  import AutoRepair
  import LintFacts

  /** The two complaints about a prepare file that nothing has to be prepared for. */
  predicate IsComplaint(message: string) {
    var msg := TrimSpace(message);
    || (Contains(msg, "E_SCHEMA_INVALID") && Contains(msg, "Array must have at least 1 items"))
    || (Contains(msg, "E_KIND_ROLE_MISMATCH") && Contains(msg, "role prepare"))
  }

  /** The message mentions the file, which ends like a prepare file. */
  predicate Mentions(message: string, f: GeneratedFile) {
    HasSuffix(TrimSpace(f.path), "prepare.yaml") && Contains(TrimSpace(message), f.path)
  }

  /** p is the path of the first such file. */
  ghost predicate Blames(files: seq<GeneratedFile>, message: string, p: string) {
    exists i :: 0 <= i < |files| && files[i].path == p && Mentions(message, files[i])
                && forall j | 0 <= j < i :: !Mentions(message, files[j])
  }

  /** The diagnostic is a complaint about a prepare file of the list with a path. */
  ghost predicate Accuses(files: seq<GeneratedFile>, d: AutoRepair.Diagnostic, p: string) {
    IsComplaint(d.message) && p != "" && Blames(files, d.message, p)
  }

  /** The last complaint is about p, every diagnostic mentions p, and another file stays. */
  ghost predicate IsDropped(files: seq<GeneratedFile>, diags: seq<AutoRepair.Diagnostic>, p: string) {
    && (exists k :: 0 <= k < |diags| && Accuses(files, diags[k], p)
                    && forall m, q | k < m < |diags| :: !Accuses(files, diags[m], q))
    && (forall d | d in diags :: Contains(TrimSpace(d.message), p))
    && (exists f | f in files :: TrimSpace(f.path) != p && !f.delete)
  }

  lemma {:induction false} BlamedIs(files: seq<GeneratedFile>, message: string, p: string)
    ensures MentionedPrepare(files, message) == Some(p) <==> Blames(files, message, p)
  {
    hide Contains, HasSuffix, TrimSpace;
    if files != [] {
      var rest := files[1..];
      BlamedIs(rest, message, p);
      assert forall i | 0 <= i < |rest| :: rest[i] == files[i + 1];
      if Mentions(message, files[0]) {
        if Blames(files, message, p) { assert files[0].path == p; }
      } else {
        if i :| 0 <= i < |rest| && rest[i].path == p && Mentions(message, rest[i])
                && forall j | 0 <= j < i :: !Mentions(message, rest[j]) {
          assert files[i + 1] == rest[i];
          assert forall j | 0 <= j < i + 1 :: !Mentions(message, files[j]);
        }
        if i :| 0 <= i < |files| && files[i].path == p && Mentions(message, files[i])
                && forall j | 0 <= j < i :: !Mentions(message, files[j]) {
          assert i > 0 && rest[i - 1] == files[i];
          assert forall j | 0 <= j < i - 1 :: !Mentions(message, rest[j]);
        }
      }
    }
  }

  /** The path the diagnostics lead to is that of the last complaint. */
  ghost predicate LastAccused(files: seq<GeneratedFile>, diags: seq<AutoRepair.Diagnostic>, p: string) {
    exists k :: 0 <= k < |diags| && Accuses(files, diags[k], p)
                && forall m, q | k < m < |diags| :: !Accuses(files, diags[m], q)
  }

  lemma AccusedIs(files: seq<GeneratedFile>, d: AutoRepair.Diagnostic, p: string)
    ensures Accuses(files, d, p) <==>
              IsPrepareIssue(d.message) && p != "" && MentionedPrepare(files, d.message) == Some(p)
  {
    hide Contains, TrimSpace, MentionedPrepare, Blames;
    BlamedIs(files, d.message, p);
  }

  lemma {:induction false} LastAccusedIs(files: seq<GeneratedFile>, diags: seq<AutoRepair.Diagnostic>, p: string)
    ensures PreparePath(files, diags) == Some(p) <==> LastAccused(files, diags, p)
  {
    hide IsPrepareIssue, MentionedPrepare, Accuses;
    if diags != [] {
      var n := |diags| - 1;
      var init := diags[..n];
      LastAccusedIs(files, init, p);
      forall q ensures Accuses(files, diags[n], q) <==>
        IsPrepareIssue(diags[n].message) && q != "" && MentionedPrepare(files, diags[n].message) == Some(q)
      {
        AccusedIs(files, diags[n], q);
      }
      assert forall k | 0 <= k < n :: init[k] == diags[k];
      LastStep(files, diags, p);
    }
  }

  /** One more diagnostic: it decides if it accuses anyone. */
  lemma LastStep(files: seq<GeneratedFile>, diags: seq<AutoRepair.Diagnostic>, p: string)
    requires diags != []
    ensures var n := |diags| - 1;
            LastAccused(files, diags, p) <==>
              if exists q :: Accuses(files, diags[n], q) then Accuses(files, diags[n], p)
              else LastAccused(files, diags[..n], p)
  {
    hide Accuses;
    var n := |diags| - 1;
    var init := diags[..n];
    assert forall k | 0 <= k < n :: init[k] == diags[k];
    if LastAccused(files, diags, p) {
      var k :| 0 <= k < |diags| && Accuses(files, diags[k], p)
               && forall m, q | k < m < |diags| :: !Accuses(files, diags[m], q);
      if k < n { assert Accuses(files, init[k], p); }
    }
    if LastAccused(files, init, p) && forall q :: !Accuses(files, diags[n], q) {
      var k :| 0 <= k < |init| && Accuses(files, init[k], p)
               && forall m, q | k < m < |init| :: !Accuses(files, init[m], q);
      forall m, q | k < m < |diags| ensures !Accuses(files, diags[m], q) {
        if m < n { assert diags[m] == init[m]; }
      }
      assert Accuses(files, diags[k], p);
    }
  }

  /** A prepare file that is dropped goes from the staging, and from the files that are validated again. */
  lemma DropsIt(c: Candidates, files: seq<GeneratedFile>, diags: seq<AutoRepair.Diagnostic>, p: string)
    requires IsDropped(files, diags, p)
    ensures var r := RemoveInvalidPrepare(c, files, diags);
            r.candidates == c - {p} && forall f :: f in r.files <==> f in files && TrimSpace(f.path) != p
  {
    hide PreparePath, WithoutPath, NotMentioning, Contains, TrimSpace, Accuses;
    assert LastAccused(files, diags, p);
    LastAccusedIs(files, diags, p);
    LintFacts.WithoutPathMembers(files, p);
  }

  /** Otherwise nothing goes. */
  lemma DropsNothing(c: Candidates, files: seq<GeneratedFile>, diags: seq<AutoRepair.Diagnostic>)
    requires forall p :: !IsDropped(files, diags, p)
    ensures RemoveInvalidPrepare(c, files, diags) == CleanedLint(files, diags, c)
  {
    hide PreparePath, WithoutPath, NotMentioning, Contains, TrimSpace, Accuses;
    if DropsPrepare(files, diags) {
      DroppedIsNamed(files, diags);
    }
  }

  lemma DroppedIsNamed(files: seq<GeneratedFile>, diags: seq<AutoRepair.Diagnostic>)
    requires DropsPrepare(files, diags)
    ensures exists p :: IsDropped(files, diags, p)
  {
    hide PreparePath, NotMentioning, Contains, TrimSpace, Accuses;
    var p := PreparePath(files, diags).value;
    LastAccusedIs(files, diags, p);
    assert IsDropped(files, diags, p);
  }

  lemma ScopeIsRepaired(cfg: Config, c: Candidates)
    requires LintFacts.Scoped(cfg, c)
    ensures RepairPaths(cfg, c) == Sorted(AllowedPaths(cfg.plan))
  {
    hide AllowedPaths;
    if ApprovedList(cfg) == [] {
      assert forall p :: p in AllowedPaths(cfg.plan) <==> p in ApprovedList(cfg);
      assert c.Keys == {};
      SortedUnique([], {});
      assert PathsOf(CandidateFiles(c)) == {};
    }
  }

  /** When nothing is dropped, the repair works on all that was validated, limited to the plan's scope; if it does not
      apply, nothing changes. */
  lemma RepairReachesScope(
    cfg: Config, s: State, w: World, files: seq<GeneratedFile>, diags: seq<AutoRepair.Diagnostic>)
    requires LintFacts.Scoped(cfg, s.candidates) && forall p :: !IsDropped(files, diags, p)
    ensures var attempt := TryRepair(cfg, s, w, files, diags);
            match AutoRepair.RepairSpec(w.helpers, files, diags, Sorted(AllowedPaths(cfg.plan)))
            case Applied(repaired) => attempt.files == Some(repaired)
            case _ => attempt == RepairAttempt(s, None)
  {
    hide AllowedPaths, AutoRepair.RepairSpec, RemoveInvalidPrepare, IsDropped, RepairPaths, Restage;
    DropsNothing(s.candidates, files, diags);
    ScopeIsRepaired(cfg, s.candidates);
  }
}
