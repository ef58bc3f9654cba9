/** Exactly when "commit refines validation" fails. Plan paths are only trimmed, so a scope can hold two names
    of one place, such as "workflows/vars.yaml" and "./workflows/vars.yaml"; paths of tool calls are cleaned as
    well, so a call may reach only some of them. */
module AliasedScope {
  import opened Text
  import opened Files
  import opened GenerationValidate
  import opened Session
  import opened LintFacts
  import opened CheckFacts
  import opened SessionTheorems
  import AutoRepair

  // ---------------------------------------------------------------------------------------------
  // A staging and a disk that part ways

  const STAGED := "staged\n"
  const ON_DISK := "on disk\n"

  function StagedFile(path: string): GeneratedFile {
    GeneratedFile(path, STAGED, false)
  }

  /** A disk with one text at each of some places. */
  function DiskAt(places: set<Target>, text: string): Disk {
    Disk(map u | u in places :: text, {})
  }

  const NO_HELPERS := AutoRepair.Helpers((_, _) => None, _ => None, _ => None, _ => "", (_, _) => None,
                                         (_, _) => None, (_, _) => None, (_, _) => None, (_, _) => None, _ => None)

  /** A world in which every place may be written; the files please the validators if `pleased`, and
      otherwise they complain about each with one message. */
  function Reacting(disk: Disk, pleased: bool, message: string): World {
    World(disk, _ => true, Checks((_, _) => pleased, (_, _) => true, _ => true), NO_HELPERS,
          _ => [AutoRepair.Diagnostic("", "", message, "", "", "", "", [])], true)
  }

  function Entry(cfg: Config): string {
    TrimSpace(cfg.plan.entryScenario)
  }

  /** An entry scenario elsewhere has to be there before anything passes. */
  predicate NeedsEntry(cfg: Config, t: Target) {
    Entry(cfg) != "" && RequiresEntryScenario(cfg.plan) && cfg.resolve(Entry(cfg)) != Some(t)
  }

  /** That entry scenario can be written or come from disk, unless it cannot pass at all. */
  ghost predicate EntryInReach(cfg: Config, t: Target) {
    NeedsEntry(cfg, t) ==>
      Nameable(cfg, Entry(cfg)) || EntryCannotPass(cfg) ||
      forall r | r in AllowedPaths(cfg.plan) && cfg.resolve(r) == cfg.resolve(Entry(cfg)) :: AllowedGeneratedPath(r)
  }

  /** A workflow place with two names, within reach, where nothing keeps a file set from passing. */
  ghost predicate Aliased(cfg: Config, t: Target) {
    && InWorkflows(t) && !OneName(cfg, t) && !OutOfReach(cfg, t)
    && (forall r | NamesPlace(cfg, r, t) :: AllowedGeneratedPath(r))
    && !EntryCannotPass(cfg) && EntryInReach(cfg, t)
  }

  /** The places with a file on disk: t, and that of an entry scenario no call can write. */
  ghost function Places(cfg: Config, t: Target): set<Target> {
    if NeedsEntry(cfg, t) && !Nameable(cfg, Entry(cfg)) && cfg.resolve(Entry(cfg)).Some?
    then {t, cfg.resolve(Entry(cfg)).value} else {t}
  }

  lemma PlacesAreAllowed(cfg: Config, t: Target)
    requires Aliased(cfg, t)
    ensures forall r | r in AllowedPaths(cfg.plan) && cfg.resolve(r).Some? && cfg.resolve(r).value in Places(cfg, t) ::
              AllowedGeneratedPath(r)
  {
    hide AllowedPaths, AllowedGeneratedPath, BlocksStaging, Droppable, Nameable, RequiresEntryScenario, TrimSpace,
         OneName, OutOfReach, InWorkflows;
  }

  /** Some name of t is staged, another is not; the staging may be written, and an entry scenario that is
      needed is staged or on disk. */
  ghost predicate Split(cfg: Config, c: Candidates, t: Target) {
    && (exists p :: p in c && cfg.resolve(p) == Some(t))
    && (exists q :: q !in c && NamesPlace(cfg, q, t))
    && (forall k | k in c :: c[k] == StagedFile(k) && k in AllowedPaths(cfg.plan) && AllowedGeneratedPath(k)
                             && cfg.resolve(k).Some?)
    && (NeedsEntry(cfg, t) ==> Entry(cfg) in c || !Nameable(cfg, Entry(cfg)))
  }

  lemma LineIsNormal(path: string, word: string)
    requires TrimNewlines(word) == word != ""
    ensures NormalizeContent(path, word + "\n") == word + "\n"
  {
    hide IsYaml;
    TrimNewlinesOnce(word);
  }

  lemma TextsAreNormal(path: string)
    ensures NormalizeContent(path, STAGED) == STAGED && NormalizeContent(path, ON_DISK) == ON_DISK
  {
    hide NormalizeContent;
    LineIsNormal(path, "staged");
    LineIsNormal(path, "on disk");
    assert "staged" + "\n" == STAGED && "on disk" + "\n" == ON_DISK;
  }

  /** The approved paths on such a disk are those that name one of its places. */
  function FileAt(cfg: Config, places: set<Target>, text: string, p: string): Option<GeneratedFile> {
    if cfg.resolve(p).Some? && cfg.resolve(p).value in places then Some(GeneratedFile(p, text, false)) else None
  }

  lemma OnDiskAt(cfg: Config, places: set<Target>, text: string, p: string)
    requires NormalizeContent(p, text) == text
    ensures OnDisk(cfg, DiskAt(places, text), p) == FileAt(cfg, places, text, p)
  {
    hide NormalizeContent;
  }

  lemma OnDiskTexts(cfg: Config, places: set<Target>)
    ensures forall p :: OnDisk(cfg, DiskAt(places, ON_DISK), p) == FileAt(cfg, places, ON_DISK, p)
  {
    hide OnDisk, DiskAt, NormalizeContent, FileAt;
    forall p ensures OnDisk(cfg, DiskAt(places, ON_DISK), p) == FileAt(cfg, places, ON_DISK, p) {
      TextsAreNormal(p);
      OnDiskAt(cfg, places, ON_DISK, p);
    }
  }

  lemma SplitIsScoped(cfg: Config, c: Candidates, t: Target)
    requires Split(cfg, c, t)
    ensures Scoped(cfg, c)
  {
    hide AllowedPaths, AllowedGeneratedPath, NeedsEntry, NormalizeContent, Nameable;
    forall k | k in c ensures GoodFile(cfg, c[k]) {
      TextsAreNormal(k);
    }
  }

  /** A linted file is staged or comes from disk; all staged paths and all approved ones on disk are linted. */
  lemma SplitMembers(cfg: Config, c: Candidates, places: set<Target>, t: Target)
    requires Split(cfg, c, t)
    ensures var lint := LintFiles(cfg, c, DiskAt(places, ON_DISK));
            (forall f | f in lint :: f.path in AllowedPaths(cfg.plan) && !f.delete && (f.path in c ||
               (f.content == ON_DISK && cfg.resolve(f.path).Some? && cfg.resolve(f.path).value in places))) &&
            forall p | p in AllowedPaths(cfg.plan)
                       && (p in c || (cfg.resolve(p).Some? && cfg.resolve(p).value in places)) :: p in PathsOf(lint)
  {
    hide AllowedPaths, AllowedGeneratedPath, LintFiles, OnDisk, NeedsEntry, Nameable, NormalizeFile, DistinctPaths,
         DiskAt;
    var disk := DiskAt(places, ON_DISK);
    SplitIsScoped(cfg, c, t);
    LintMembers(cfg, c, disk);
    OnDiskTexts(cfg, places);
    forall p | p in AllowedPaths(cfg.plan) && (p in c || (cfg.resolve(p).Some? && cfg.resolve(p).value in places))
      ensures p in PathsOf(LintFiles(cfg, c, disk))
    {
      var f := if p in c then c[p] else GeneratedFile(p, ON_DISK, false);
      assert f in LintFiles(cfg, c, disk);
    }
  }

  /** All of them may be written. */
  lemma SplitLint(cfg: Config, c: Candidates, t: Target)
    requires Aliased(cfg, t) && Split(cfg, c, t)
    ensures var lint := LintFiles(cfg, c, DiskAt(Places(cfg, t), ON_DISK));
            (forall f | f in lint :: f.path in AllowedPaths(cfg.plan) && AllowedGeneratedPath(f.path) && !f.delete
                                     && cfg.resolve(f.path).Some? && (f.path in c || f.content == ON_DISK)) &&
            forall p | p in AllowedPaths(cfg.plan) && (p in c || (cfg.resolve(p).Some?
                                                                  && cfg.resolve(p).value in Places(cfg, t))) ::
              p in PathsOf(lint)
  {
    hide AllowedPaths, AllowedGeneratedPath, LintFiles, NeedsEntry, Nameable, Places, Aliased;
    PlacesAreAllowed(cfg, t);
    SplitMembers(cfg, c, Places(cfg, t), t);
  }

  lemma {:induction false} LastWriterAppend(resolve: Resolver, a: seq<GeneratedFile>, b: seq<GeneratedFile>, t: Target)
    requires LastWriter(resolve, b, t).Some?
    ensures LastWriter(resolve, a + b, t) == LastWriter(resolve, b, t)
  {
    if a == [] {
      assert a + b == b;
    } else {
      assert (a + b)[1..] == a[1..] + b;
      LastWriterAppend(resolve, a[1..], b, t);
    }
  }

  /** The last linted file for t has the text on disk: those files come after the candidates. */
  lemma DiskTextIsLast(cfg: Config, c: Candidates, t: Target)
    requires Aliased(cfg, t) && Split(cfg, c, t)
    ensures var w := LastWriter(cfg.resolve, LintFiles(cfg, c, DiskAt(Places(cfg, t), ON_DISK)), t);
            w.Some? && w.value.content == ON_DISK && !w.value.delete
  {
    hide AllowedPaths, AllowedGeneratedPath, CandidateFiles, BaseFiles, NotIn, NormalizeContent, LastWriter, OnDisk,
         ApprovedList, EntryCannotPass, NeedsEntry, GoodFile, Nameable, OneName, OutOfReach, EntryInReach, InWorkflows,
         LintFiles;
    var disk := DiskAt(Places(cfg, t), ON_DISK);
    var staged := CandidateFiles(c);
    var others := NotIn(BaseFiles(cfg, disk, ApprovedList(cfg)), PathsOf(staged));
    SplitIsScoped(cfg, c, t);
    SplitLint(cfg, c, t);
    LintMembers(cfg, c, disk);
    OthersAreOnDisk(cfg, c, disk);
    var q :| q !in c && NamesPlace(cfg, q, t);
    var f :| f in LintFiles(cfg, c, disk) && f.path == q;
    assert f in others;
    assert forall g | g in others :: g in LintFiles(cfg, c, disk) && g.path !in c;
    LastWriterAppend(cfg.resolve, staged, others, t);
  }

  /** The files pass the contract: all of them are in scope, and the entry scenario is one of them. */
  lemma SplitContract(cfg: Config, c: Candidates, t: Target)
    requires Aliased(cfg, t) && Split(cfg, c, t)
    ensures ContractSpec(LintFiles(cfg, c, DiskAt(Places(cfg, t), ON_DISK)), cfg.plan).blocking == {}
  {
    hide AllowedPaths, AllowedGeneratedPath, LintFiles, InWorkflows, RequiresEntryScenario, TrimSpace, Nameable,
         ContractSpec, OneName, OutOfReach, EntryInReach;
    var lint := LintFiles(cfg, c, DiskAt(Places(cfg, t), ON_DISK));
    SplitLint(cfg, c, t);
    ContractBlocksIff(lint, cfg.plan);
    forall f | f in lint ensures TrimSpace(f.path) == f.path {
      AllowedPathIsClean(cfg.plan, f.path);
    }
    if Entry(cfg) != "" && RequiresEntryScenario(cfg.plan) {
      EntryInScope(cfg);
      assert Entry(cfg) in PathsOf(lint);
    }
  }

  lemma {:induction false} AllWritten(resolve: Resolver, tree: Tree, files: seq<GeneratedFile>)
    requires forall f | f in files :: AllowedGeneratedPath(f.path) && resolve(f.path).Some? && !f.delete
    ensures WriteAll(resolve, _ => true, tree, files).failure.None?
    decreases |files|
  {
    hide AllowedGeneratedPath;
    if files != [] {
      var first := WriteFile(resolve, _ => true, tree, files[0]);
      assert files[0] in files;
      assert forall f | f in files[1..] :: f in files;
      AllWritten(resolve, first.tree, files[1..]);
    }
  }

  /** The validators pass the files, and see the text on disk at t. */
  lemma SplitPasses(cfg: Config, c: Candidates, t: Target)
    requires Aliased(cfg, t) && Split(cfg, c, t)
    ensures var w := Reacting(DiskAt(Places(cfg, t), ON_DISK), true, "");
            var lint := LintFiles(cfg, c, w.disk);
            lint != [] && ValidateIn(cfg, w, lint).Passed? && Lookup(ValidateIn(cfg, w, lint).shown, t) == Some(ON_DISK)
  {
    hide AllowedPaths, AllowedGeneratedPath, LintFiles, ContractSpec, LastWriter, WriteAll, EntryCannotPass, NeedsEntry,
         Nameable, OneName, OutOfReach, EntryInReach, Places, Split;
    var w := Reacting(DiskAt(Places(cfg, t), ON_DISK), true, "");
    var lint := LintFiles(cfg, c, w.disk);
    SplitLint(cfg, c, t);
    DiskTextIsLast(cfg, c, t);
    SplitContract(cfg, c, t);
    assert w.stageOk == (_ => true);
    AllWritten(cfg.resolve, WorkflowPart(w.disk.files), lint);
    StagedTree(cfg.resolve, w.stageOk, w.disk, lint, t);
    PassesIff(cfg.resolve, w.checks, w.stageOk, w.disk, lint, cfg.plan);
  }

  /** Committing the candidates puts the staged text at t. */
  lemma SplitCommits(cfg: Config, c: Candidates, t: Target, disk: Tree)
    requires Split(cfg, c, t)
    ensures var written := WriteAll(cfg.resolve, _ => true, disk, CandidateFiles(c));
            written.failure.None? && Lookup(written.tree, t) == Some(STAGED) && CandidateFiles(c) != []
  {
    hide AllowedGeneratedPath, CandidateFiles, WriteAll, AllowedPaths, GoodFile, NeedsEntry, Nameable;
    SplitIsScoped(cfg, c, t);
    CandidateMembers(cfg, c);
    var p :| p in c && cfg.resolve(p) == Some(t);
    assert c[p] in CandidateFiles(c);
    AllWritten(cfg.resolve, disk, CandidateFiles(c));
    WrittenTree(cfg.resolve, _ => true, disk, CandidateFiles(c), t);
  }
}
