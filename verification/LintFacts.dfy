/** What a validate of the session lints, and what the automatic repair makes of it. */
module LintFacts {
  import opened Text
  import opened Files
  import opened GenerationValidate
  import opened Session
  import AutoRepair

  /** A live file in scope whose content is already normalised. */
  ghost predicate GoodFile(cfg: Config, f: GeneratedFile) {
    !f.delete && f.path in AllowedPaths(cfg.plan) && NormalizeFile(f) == f
  }

  ghost predicate GoodFiles(cfg: Config, files: seq<GeneratedFile>) {
    forall f | f in files :: GoodFile(cfg, f)
  }

  /** Every candidate is keyed by its own path and good. */
  ghost predicate Scoped(cfg: Config, c: Candidates) {
    forall p | p in c :: c[p].path == p && GoodFile(cfg, c[p])
  }

  ghost predicate DistinctPaths(files: seq<GeneratedFile>) {
    forall i, j | 0 <= i < j < |files| :: files[i].path != files[j].path
  }

  lemma OnePerPath(files: seq<GeneratedFile>, f: GeneratedFile, g: GeneratedFile)
    requires DistinctPaths(files) && f in files && g in files && f.path == g.path
    ensures f == g
  {
  }

  // ---------------------------------------------------------------------------------------------
  // The candidate list and the files on disk

  lemma CandidateMembers(cfg: Config, c: Candidates)
    requires Scoped(cfg, c)
    ensures forall f :: f in CandidateFiles(c) <==> f.path in c && c[f.path] == f
    ensures DistinctPaths(CandidateFiles(c)) && |CandidateFiles(c)| == |c|
  {
    hide GoodFile;
    var keys := Sorted(c.Keys);
    assert forall k :: k in keys <==> k in c;
    forall f ensures f in CandidateFiles(c) <==> f.path in c && c[f.path] == f {
      if f.path in c && c[f.path] == f {
        var i :| 0 <= i < |keys| && keys[i] == f.path;
        assert CandidateFiles(c)[i] == f;
      }
    }
    forall i, j | 0 <= i < j < |keys| ensures keys[i] != keys[j] {
      LessTotal(keys[i], keys[j]);
    }
  }

  /** The file that lint shows for an approved path that is on disk. */
  function OnDisk(cfg: Config, disk: Disk, path: string): Option<GeneratedFile> {
    match ReadDisk(cfg, disk, path)
    case Content(text) => Some(GeneratedFile(path, NormalizeContent(path, text), false))
    case _ => None
  }

  ghost predicate NoRepeats(paths: seq<string>) {
    forall i, j | 0 <= i < j < |paths| :: paths[i] != paths[j]
  }

  lemma {:induction false} BaseMembers(cfg: Config, disk: Disk, paths: seq<string>)
    ensures forall f :: f in BaseFiles(cfg, disk, paths) <==> f.path in paths && OnDisk(cfg, disk, f.path) == Some(f)
    ensures NoRepeats(paths) ==> DistinctPaths(BaseFiles(cfg, disk, paths))
  {
    hide ReadDisk, NormalizeContent;
    if paths != [] {
      BaseMembers(cfg, disk, paths[1..]);
      var rest := BaseFiles(cfg, disk, paths[1..]);
      forall f ensures f in BaseFiles(cfg, disk, paths) <==> f.path in paths && OnDisk(cfg, disk, f.path) == Some(f) {
        assert f.path in paths <==> f.path == paths[0] || f.path in paths[1..];
      }
    }
  }

  lemma {:induction false} NotInMembers(files: seq<GeneratedFile>, seen: set<string>)
    ensures forall f :: f in NotIn(files, seen) <==> f in files && f.path !in seen
    ensures DistinctPaths(files) ==> DistinctPaths(NotIn(files, seen))
  {
    if files != [] {
      NotInMembers(files[1..], seen);
      forall f ensures f in NotIn(files, seen) <==> f in files && f.path !in seen {
        assert f in files <==> f == files[0] || f in files[1..];
      }
    }
  }

  lemma OnDiskIsGood(cfg: Config, disk: Disk, path: string)
    requires path in AllowedPaths(cfg.plan) && OnDisk(cfg, disk, path).Some?
    ensures GoodFile(cfg, OnDisk(cfg, disk, path).value)
  {
    hide NormalizeContent, AllowedPaths;
    var text := ReadDisk(cfg, disk, path).content;
    NormalizeStable(path, text);
  }

  lemma NormalizedAlready(cfg: Config, files: seq<GeneratedFile>)
    requires GoodFiles(cfg, files)
    ensures NormalizeFiles(files) == files
  {
    hide NormalizeFile, AllowedPaths;
    assert forall i | 0 <= i < |files| :: GoodFile(cfg, files[i]);
  }

  /** lintFiles is: every candidate, and every other approved path that is on disk; each once, all good. */
  lemma LintMembers(cfg: Config, c: Candidates, disk: Disk)
    requires Scoped(cfg, c)
    ensures LintFiles(cfg, c, disk)
         == CandidateFiles(c) + NotIn(BaseFiles(cfg, disk, ApprovedList(cfg)), PathsOf(CandidateFiles(c)))
    ensures var lint := LintFiles(cfg, c, disk);
            GoodFiles(cfg, lint) && DistinctPaths(lint) &&
            forall f :: f in lint <==>
              if f.path in c then c[f.path] == f
              else f.path in AllowedPaths(cfg.plan) && OnDisk(cfg, disk, f.path) == Some(f)
  {
    hide GoodFile, AllowedPaths, OnDisk, BaseFiles, NotIn, CandidateFiles, Sorted, NoRepeats;
    var staged := CandidateFiles(c);
    var base := BaseFiles(cfg, disk, ApprovedList(cfg));
    var others := NotIn(base, PathsOf(staged));
    CandidateMembers(cfg, c);
    SortedDistinct(AllowedPaths(cfg.plan));
    BaseMembers(cfg, disk, ApprovedList(cfg));
    NotInMembers(base, PathsOf(staged));
    forall p ensures p in PathsOf(staged) <==> p in c {
      if p in c { assert c[p] in staged; }
    }
    var lint := staged + others;
    forall f | f in lint ensures GoodFile(cfg, f) {
      if f in others { OnDiskIsGood(cfg, disk, f.path); }
    }
    NormalizedAlready(cfg, lint);
    ConcatDistinct(staged, others);
  }

  lemma ConcatDistinct(a: seq<GeneratedFile>, b: seq<GeneratedFile>)
    requires DistinctPaths(a) && DistinctPaths(b)
    requires forall f | f in b :: f.path !in PathsOf(a)
    ensures DistinctPaths(a + b)
  {
    forall i, j | 0 <= i < j < |a + b| ensures (a + b)[i].path != (a + b)[j].path {
      if i < |a| <= j {
        assert a[i] in a && b[j - |a|] in b;
      }
    }
  }

  lemma SortedDistinct(s: set<string>)
    ensures forall p :: p in Sorted(s) <==> p in s
    ensures NoRepeats(Sorted(s))
  {
    var r := Sorted(s);
    forall i, j | 0 <= i < j < |r| ensures r[i] != r[j] {
      LessTotal(r[i], r[j]);
    }
  }

  /** What is linted is the staging and the disk, as the commit argument needs it. */
  lemma LintIsShown(cfg: Config, c: Candidates, disk: Disk)
    requires Scoped(cfg, c)
    ensures ShownFrom(cfg.resolve, disk, LintFiles(cfg, c, disk), CandidateFiles(c))
  {
    hide AllowedPaths, LintFiles, CandidateFiles, NormalizeContent;
    LintMembers(cfg, c, disk);
    CandidateMembers(cfg, c);
    forall f | f in LintFiles(cfg, c, disk)
      ensures !f.delete && (f in CandidateFiles(c) || IsNormalisedBase(cfg.resolve, disk, f))
    {
      assert GoodFile(cfg, f);
    }
  }

  // ---------------------------------------------------------------------------------------------
  // Dropping the prepare file

  lemma {:induction false} WithoutPathMembers(files: seq<GeneratedFile>, path: string)
    ensures forall f :: f in WithoutPath(files, path) <==> f in files && TrimSpace(f.path) != path
    ensures DistinctPaths(files) ==> DistinctPaths(WithoutPath(files, path))
  {
    hide TrimSpace;
    if files != [] {
      WithoutPathMembers(files[1..], path);
      forall f ensures f in WithoutPath(files, path) <==> f in files && TrimSpace(f.path) != path {
        assert f in files <==> f == files[0] || f in files[1..];
      }
    }
  }

  lemma {:induction false} WithoutPathShorter(files: seq<GeneratedFile>, path: string)
    ensures |WithoutPath(files, path)| <= |files|
    ensures |WithoutPath(files, path)| == |files| <==> forall f | f in files :: TrimSpace(f.path) != path
  {
    hide TrimSpace;
    if files != [] {
      WithoutPathShorter(files[1..], path);
      assert forall f :: f in files <==> f == files[0] || f in files[1..];
    }
  }

  /** When the prepare file is dropped no diagnostic is left: all of them mention it. */
  lemma {:induction false} NoDiagnosticLeft(diags: seq<AutoRepair.Diagnostic>, path: string)
    requires forall d | d in diags :: Contains(TrimSpace(d.message), path)
    ensures NotMentioning(diags, path) == []
  {
    if diags != [] {
      ContainsUntrimmed(diags[0].message, IsSpace, path);
      hide Contains, TrimSpace;
      assert forall d | d in diags[1..] :: d in diags;
      NoDiagnosticLeft(diags[1..], path);
    }
  }

  /** The prepare path is the path of a linted file. */
  lemma {:induction false} MentionedIsListed(files: seq<GeneratedFile>, message: string)
    ensures MentionedPrepare(files, message).Some? ==>
              exists f :: f in files && f.path == MentionedPrepare(files, message).value
  {
    hide Contains, TrimSpace, HasSuffix;
    if files != [] {
      MentionedIsListed(files[1..], message);
      if MentionedPrepare(files[1..], message).Some? {
        var f :| f in files[1..] && f.path == MentionedPrepare(files[1..], message).value;
        assert f in files;
      }
      assert files[0] in files;
    }
  }

  lemma {:induction false} PreparePathIsListed(files: seq<GeneratedFile>, diags: seq<AutoRepair.Diagnostic>)
    ensures PreparePath(files, diags).Some? ==> exists f :: f in files && f.path == PreparePath(files, diags).value
  {
    hide IsPrepareIssue, MentionedPrepare;
    if diags != [] {
      MentionedIsListed(files, diags[|diags| - 1].message);
      PreparePathIsListed(files, diags[..|diags| - 1]);
    }
  }

  /** Whenever the prepare file is removed the diagnostics are gone, the structured repair that follows
      does nothing and cannot fail, and the files to validate again are the linted ones but that path. */
  lemma DroppingExcludesRepair(
    cfg: Config, s: State, w: World, files: seq<GeneratedFile>, diags: seq<AutoRepair.Diagnostic>)
    requires GoodFiles(cfg, files) && DropsPrepare(files, diags)
    ensures var path := PreparePath(files, diags).value;
            var cleaned := RemoveInvalidPrepare(s.candidates, files, diags);
            var attempt := TryRepair(cfg, s, w, files, diags);
            cleaned.diags == [] &&
            var paths := RepairPaths(cfg, cleaned.candidates);
            AutoRepair.RepairSpec(w.helpers, cleaned.files, cleaned.diags, paths).NotApplied? &&
            |cleaned.files| < |files| &&
            attempt.files == Some(WithoutPath(files, path)) &&
            (forall f :: f in attempt.files.value <==> f in files && f.path != path)
  {
    hide AutoRepair.Collect, PreparePath, WithoutPath, Restage, NotMentioning, TrimSpace, Contains, AllowedPaths,
         NormalizeFile;
    var path := PreparePath(files, diags).value;
    NoDiagnosticLeft(diags, path);
    PreparePathIsListed(files, diags);
    WithoutPathMembers(files, path);
    WithoutPathShorter(files, path);
    forall f | f in files ensures TrimSpace(f.path) == f.path {
      assert GoodFile(cfg, f);
      AllowedPathIsClean(cfg.plan, f.path);
    }
  }
}
