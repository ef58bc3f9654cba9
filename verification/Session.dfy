/** The authoring agent session as a state machine: the effect of every tool, of a turn and of a whole
    run of internal/askcli/author_runtime.go on the session's state. */
module Session {
  import opened Text
  import opened Files
  import opened GenerationValidate
  import AutoRepair
  import ReadWindow
  import TextEdit

  // ---------------------------------------------------------------------------------------------
  // State

  type Candidates = map<string, GeneratedFile>

  datatype Snapshot = Snapshot(content: string, present: bool, candidate: bool, fullRead: bool)

  datatype Tool = Read | Glob | Grep | FileWrite | FileEdit | Init | ValidateTool | Schema | WebSearch

  function ToolName(t: Tool): string {
    match t
    case Read => "read" case Glob => "glob" case Grep => "grep"
    case FileWrite => "file_write" case FileEdit => "file_edit" case Init => "init"
    case ValidateTool => "validate" case Schema => "schema" case WebSearch => "web_search"
  }

  predicate IsReadOnly(t: Tool) {
    t in {Read, Glob, Grep, Schema, WebSearch}
  }

  const FINISH_NAME := "author_finish"

  /** One line of the tool transcript. */
  datatype Event = Event(turn: nat, name: string, ok: bool)

  /** The world a tool call meets: the disk, and what other packages answer. It may differ from call to
      call. `otherOk` is the verdict of the tools whose work is outside this model. */
  datatype World = World(
    disk: Disk,
    stageOk: Permissions,
    checks: Checks,
    helpers: AutoRepair.Helpers,
    diagnose: Reason -> seq<AutoRepair.Diagnostic>,
    otherOk: bool)

  /** What a session is started with. */
  datatype Config = Config(
    plan: Plan,
    resolve: Resolver,
    normalize: string -> Option<string>,
    hasWorkflowTree: bool,
    verificationBudget: int)

  /** How a call brings the text of a file in view: it renders a window of it, or stages it. */
  datatype Sight = Rendered(path: string, window: ReadWindow.Window) | Staged(path: string, content: string)

  /** A trace kept for the proofs, one record per transcript line: the calls that were turned down, the
      tools that ran, and for every executed validate what was linted, what was last shown to the
      validators (the repaired files, when a repair was applied) and their answer; with what each call
      rendered and staged, in order. */
  datatype Record =
    | TurnedDown(name: string)
    | Used(tool: Tool, ok: bool, sights: seq<Sight>)
    | Checked(world: World, linted: seq<GeneratedFile>, shown: seq<GeneratedFile>, verdict: Verdict,
              sights: seq<Sight>)

  /** The session's mutable fields, the trace, and the candidates at the start of every turn so far. */
  datatype State = State(
    candidates: Candidates,
    readState: map<string, Snapshot>,
    events: seq<Event>,
    lintPassed: bool,
    failures: nat,
    idle: nat,
    turnsUsed: nat,
    history: seq<Record>,
    marks: seq<Candidates>)

  const INITIAL := State(map[], map[], [], false, 0, 0, 0, [], [])

  // ---------------------------------------------------------------------------------------------
  // Scope, candidate list and lint list

  predicate WriteAllowed(cfg: Config, path: string) {
    path in AllowedPaths(cfg.plan)
  }

  predicate ReadAllowed(cfg: Config, path: string) {
    WriteAllowed(cfg, path) || HasPrefix(path, "workflows/") || HasPrefix(path, "docs/")
    || HasPrefix(path, "test/workflows/") || HasPrefix(path, "internal/") || HasPrefix(path, "cmd/")
  }

  ghost function ApprovedList(cfg: Config): seq<string> {
    Sorted(AllowedPaths(cfg.plan))
  }

  function Pick(c: Candidates, keys: seq<string>): (r: seq<GeneratedFile>)
    requires forall k | k in keys :: k in c
    ensures |r| == |keys| && forall i | 0 <= i < |keys| :: r[i] == c[keys[i]]
  {
    seq(|keys|, i requires 0 <= i < |keys| => c[keys[i]])
  }

  /** candidateFiles: the staged files in path order. */
  ghost function CandidateFiles(c: Candidates): seq<GeneratedFile> {
    Pick(c, Sorted(c.Keys))
  }

  function PathsOf(files: seq<GeneratedFile>): set<string> {
    set f | f in files :: f.path
  }

  /** What reading a path under the root gives. */
  datatype DiskRead = Unreadable | Missing | Content(content: string)

  function ReadDisk(cfg: Config, disk: Disk, path: string): DiskRead {
    match cfg.resolve(path)
    case None => Unreadable
    case Some(t) => if t in disk.unreadable then Unreadable
                    else if t in disk.files then Content(disk.files[t]) else Missing
  }

  /** baseFilesForLint: the approved paths that can be read, normalised. */
  function BaseFiles(cfg: Config, disk: Disk, paths: seq<string>): seq<GeneratedFile> {
    if paths == [] then []
    else
      var rest := BaseFiles(cfg, disk, paths[1..]);
      match ReadDisk(cfg, disk, paths[0])
      case Content(text) => [GeneratedFile(paths[0], NormalizeContent(paths[0], text), false)] + rest
      case _ => rest
  }

  function NotIn(files: seq<GeneratedFile>, seen: set<string>): seq<GeneratedFile> {
    if files == [] then []
    else (if files[0].path in seen then [] else [files[0]]) + NotIn(files[1..], seen)
  }

  /** lintFiles: the candidates, then the approved files on disk that are not staged. */
  ghost function LintFiles(cfg: Config, c: Candidates, disk: Disk): seq<GeneratedFile> {
    var staged := CandidateFiles(c);
    NormalizeFiles(staged + NotIn(BaseFiles(cfg, disk, ApprovedList(cfg)), PathsOf(staged)))
  }

  // ---------------------------------------------------------------------------------------------
  // Reading and staging

  datatype Current = ReadError | Current(content: string, present: bool, candidate: bool)

  /** currentFileContent: the staged file if there is one, else the disk. */
  function CurrentContent(cfg: Config, s: State, disk: Disk, path: string): Current {
    if path in s.candidates then
      if s.candidates[path].delete then Current("", false, true)
      else Current(s.candidates[path].content, true, true)
    else
      match ReadDisk(cfg, disk, path)
      case Unreadable => ReadError
      case Missing => Current("", false, false)
      case Content(text) => Current(text, true, false)
  }

  /** The arguments of a tool call that matter to the state; `paths` is the read tool's path list. */
  datatype ToolCall = ToolCall(tool: Tool, path: string, paths: seq<string>, content: string,
                               offset: int, limit: int, oldString: string, newString: string, replaceAll: bool)

  /** The loop of runRead: a full window is remembered; a path that cannot be read ends the call. */
  function RunRead(cfg: Config, s: State, disk: Disk, paths: seq<string>, offset: int, limit: int): (State, bool)
    decreases |paths|
  {
    if paths == [] then (s, true)
    else match cfg.normalize(paths[0])
      case None => (s, false)
      case Some(p) =>
        if !ReadAllowed(cfg, p) then (s, false)
        else match CurrentContent(cfg, s, disk, p)
          case ReadError => (s, false)
          case Current(text, present, staged) =>
            var w := ReadWindow.ReadWindow(text, offset, limit);
            var s' := if present && !w.truncated && w.startLine == 1
                      then s.(readState := s.readState[p := Snapshot(text, true, staged, true)]) else s;
            RunRead(cfg, s', disk, paths[1..], offset, limit)
  }

  function Stage(s: State, path: string, content: string): State {
    s.(candidates := s.candidates[path := GeneratedFile(path, content, false)],
       readState := s.readState[path := Snapshot(content, true, true, true)])
  }

  function RunFileWrite(cfg: Config, s: State, call: ToolCall): (State, bool) {
    var s0 := s.(idle := 0);
    match cfg.normalize(call.path)
    case None => (s0, false)
    case Some(p) =>
      if !WriteAllowed(cfg, p) then (s0, false)
      else (Stage(s0, p, NormalizeContent(p, call.content)), true)
  }

  /** The ways a file_edit call ends, in the order the source tells them apart. */
  datatype EditEnd =
    | BadPath | Denied | NeedsFullRead | EditReadError | Stale | NoFile | NoChange | NotFound | Ambiguous
    | Edited(path: string, content: string)

  function EditResult(cfg: Config, s: State, disk: Disk, call: ToolCall): EditEnd {
    match cfg.normalize(call.path)
    case None => BadPath
    case Some(p) =>
      if !WriteAllowed(cfg, p) then Denied
      else if p !in s.readState || !s.readState[p].fullRead then NeedsFullRead
      else match CurrentContent(cfg, s, disk, p)
        case ReadError => EditReadError
        case Current(text, present, _) =>
          if present != s.readState[p].present || text != s.readState[p].content then Stale
          else if !present then NoFile
          else if call.oldString == call.newString then NoChange
          else
            var count := TextEdit.Count(text, call.oldString);
            if count == 0 then NotFound
            else if count > 1 && !call.replaceAll then Ambiguous
            else
              var updated := if call.replaceAll then TextEdit.ReplaceAll(text, call.oldString, call.newString)
                             else TextEdit.ReplaceFirst(text, call.oldString, call.newString);
              Edited(p, NormalizeContent(p, updated))
  }

  function RunFileEdit(cfg: Config, s: State, disk: Disk, call: ToolCall): (State, bool) {
    var s0 := s.(idle := 0);
    match EditResult(cfg, s0, disk, call)
    case Edited(p, content) => (Stage(s0, p, content), true)
    case _ => (s0, false)
  }

  // ---------------------------------------------------------------------------------------------
  // Validation with its automatic repair

  predicate IsPrepareIssue(message: string) {
    var msg := TrimSpace(message);
    (Contains(msg, "E_SCHEMA_INVALID") && Contains(msg, "Array must have at least 1 items"))
    || (Contains(msg, "E_KIND_ROLE_MISMATCH") && Contains(msg, "role prepare"))
  }

  /** The first listed file that ends in prepare.yaml and that the message mentions. */
  function MentionedPrepare(files: seq<GeneratedFile>, message: string): Option<string> {
    if files == [] then None
    else if HasSuffix(TrimSpace(files[0].path), "prepare.yaml") && Contains(TrimSpace(message), files[0].path)
    then Some(files[0].path)
    else MentionedPrepare(files[1..], message)
  }

  /** The prepare file the last such diagnostic is about. */
  function PreparePath(files: seq<GeneratedFile>, diags: seq<AutoRepair.Diagnostic>): Option<string> {
    if diags == [] then None
    else
      var last := diags[|diags| - 1];
      var found := if IsPrepareIssue(last.message) then MentionedPrepare(files, last.message) else None;
      if found.Some? && found.value != "" then found else PreparePath(files, diags[..|diags| - 1])
  }

  /** The prepare file may go only if every diagnostic mentions it and another live file stays. */
  predicate DropsPrepare(files: seq<GeneratedFile>, diags: seq<AutoRepair.Diagnostic>) {
    var path := PreparePath(files, diags);
    && path.Some?
    && (forall d | d in diags :: Contains(TrimSpace(d.message), path.value))
    && (exists f | f in files :: TrimSpace(f.path) != path.value && !f.delete)
  }

  function WithoutPath(files: seq<GeneratedFile>, path: string): seq<GeneratedFile> {
    if files == [] then []
    else (if TrimSpace(files[0].path) == path then [] else [files[0]]) + WithoutPath(files[1..], path)
  }

  function NotMentioning(diags: seq<AutoRepair.Diagnostic>, path: string): seq<AutoRepair.Diagnostic> {
    if diags == [] then []
    else (if Contains(diags[0].message, path) then [] else [diags[0]]) + NotMentioning(diags[1..], path)
  }

  /** removeInvalidPrepareCandidate */
  datatype CleanedLint = CleanedLint(
    files: seq<GeneratedFile>, diags: seq<AutoRepair.Diagnostic>, candidates: Candidates)

  function RemoveInvalidPrepare(
    c: Candidates, files: seq<GeneratedFile>, diags: seq<AutoRepair.Diagnostic>): CleanedLint
  {
    if !DropsPrepare(files, diags) then CleanedLint(files, diags, c)
    else
      var path := PreparePath(files, diags).value;
      CleanedLint(WithoutPath(files, path), NotMentioning(diags, path), c - {path})
  }

  ghost function RepairPaths(cfg: Config, c: Candidates): seq<string> {
    if ApprovedList(cfg) != [] then ApprovedList(cfg) else Sorted(PathsOf(CandidateFiles(c)))
  }

  /** Repaired files go back to staging, those in scope only. */
  function Restage(cfg: Config, s: State, files: seq<GeneratedFile>): State {
    if files == [] then s
    else
      var before := Restage(cfg, s, files[..|files| - 1]);
      var f := files[|files| - 1];
      if !WriteAllowed(cfg, f.path) then before
      else before.(candidates := before.candidates[f.path := f],
                   readState := before.readState[f.path := Snapshot(f.content, !f.delete, true, !f.delete)])
  }

  function RestageSights(cfg: Config, files: seq<GeneratedFile>): seq<Sight> {
    if files == [] then []
    else
      var f := files[|files| - 1];
      RestageSights(cfg, files[..|files| - 1])
      + (if WriteAllowed(cfg, f.path) && !f.delete then [Staged(f.path, f.content)] else [])
  }

  ghost function ValidateIn(cfg: Config, w: World, files: seq<GeneratedFile>): Verdict {
    Validate(cfg.resolve, w.checks, w.stageOk, w.disk, files, cfg.plan)
  }

  /** tryAutoRepairAfterLintFailure: the files to validate again and the staging they leave; None for
      the files when no repair applies. */
  datatype RepairAttempt = RepairAttempt(state: State, files: Option<seq<GeneratedFile>>)

  ghost function TryRepair(
    cfg: Config, s: State, w: World, files: seq<GeneratedFile>, diags: seq<AutoRepair.Diagnostic>): RepairAttempt
  {
    var cleaned := RemoveInvalidPrepare(s.candidates, files, diags);
    var s1 := s.(candidates := cleaned.candidates);
    var removed := |cleaned.files| < |files|;
    match AutoRepair.RepairSpec(w.helpers, cleaned.files, cleaned.diags, RepairPaths(cfg, cleaned.candidates))
    case Failed => RepairAttempt(s1, None)
    case NotApplied =>
      if removed then RepairAttempt(Restage(cfg, s1, cleaned.files), Some(cleaned.files)) else RepairAttempt(s1, None)
    case Applied(repaired) => RepairAttempt(Restage(cfg, s1, repaired), Some(repaired))
  }

  /** The error of validateGeneratedPath */
  function RejectedMessage(path: string): string {
    if TrimSpace(path) == "" then "generated file path is empty"
    else "generated file path is not allowed: " + TrimSpace(path)
  }

  /** FromValidationError: a rejected path gives one diagnostic, its error text, about no file; what other
      errors give is up to the packages that raise them. */
  function Diagnostics(w: World, reason: Reason): seq<AutoRepair.Diagnostic> {
    match reason
    case StagingFailed(PathRejected(path)) =>
      [AutoRepair.Diagnostic("", "", RejectedMessage(path), "", "", "", "", [])]
    case _ => w.diagnose(reason)
  }

  /** runValidate: the new state, without the transcript line, and the record of the run. */
  ghost function RunValidate(cfg: Config, s: State, w: World): (r: (State, Record))
    ensures r.1.Checked?
  {
    var s0 := s.(idle := 0);
    var files := LintFiles(cfg, s.candidates, w.disk);
    if files == [] then (s0.(lintPassed := false), Checked(w, [], [], Rejected(NoFiles), []))
    else
      match ValidateIn(cfg, w, files)
      case Passed(tree) => (s0.(lintPassed := true), Checked(w, files, files, Passed(tree), []))
      case Rejected(reason) =>
        var attempt := TryRepair(cfg, s0, w, files, Diagnostics(w, reason));
        match attempt.files
        case None =>
          (attempt.state.(lintPassed := false, failures := s.failures + 1),
           Checked(w, files, files, Rejected(reason), []))
        case Some(repaired) =>
          var verdict := ValidateIn(cfg, w, repaired);
          var record := Checked(w, files, repaired, verdict, RestageSights(cfg, repaired));
          if verdict.Passed? then (attempt.state.(lintPassed := true), record)
          else (attempt.state.(lintPassed := false, failures := s.failures + 1), record)
  }

  // ---------------------------------------------------------------------------------------------
  // One tool call

  function Log(s: State, turn: nat, name: string, ok: bool, record: Record): State {
    s.(events := s.events + [Event(turn, name, ok)], history := s.history + [record])
  }

  /** The name and verdict of a record's transcript line. */
  function RecordName(r: Record): string {
    match r
    case TurnedDown(name) => name
    case Used(tool, _, _) => ToolName(tool)
    case Checked(_, _, _, _, _) => "validate"
  }

  predicate RecordOk(r: Record) {
    match r
    case TurnedDown(_) => false
    case Used(_, ok, _) => ok
    case Checked(_, _, _, verdict, _) => verdict.Passed?
  }

  /** The windows a read renders, up to the path that ends it. */
  function ReadSights(cfg: Config, s: State, disk: Disk, paths: seq<string>, offset: int, limit: int): seq<Sight> {
    if paths == [] then []
    else match cfg.normalize(paths[0])
      case None => []
      case Some(p) =>
        if !ReadAllowed(cfg, p) then []
        else match CurrentContent(cfg, s, disk, p)
          case ReadError => []
          case Current(text, present, _) =>
            (if present then [Rendered(p, ReadWindow.ReadWindow(text, offset, limit))] else [])
            + ReadSights(cfg, s, disk, paths[1..], offset, limit)
  }

  /** What a call other than validate renders or stages. */
  function Sights(cfg: Config, s: State, call: ToolCall, w: World): seq<Sight> {
    match call.tool
    case Read => ReadSights(cfg, s, w.disk, call.paths, call.offset, call.limit)
    case FileWrite =>
      var p := cfg.normalize(call.path);
      if p.Some? && WriteAllowed(cfg, p.value) then [Staged(p.value, NormalizeContent(p.value, call.content))] else []
    case FileEdit =>
      var end := EditResult(cfg, s.(idle := 0), w.disk, call);
      if end.Edited? then [Staged(end.path, end.content)] else []
    case _ => []
  }

  /** What a tool does to the session, before its transcript line is added. */
  ghost function Effect(cfg: Config, s: State, call: ToolCall, w: World): (State, Record) {
    hide RunRead, RunFileWrite, RunFileEdit, RunValidate, Sights;
    var sights := Sights(cfg, s, call, w);
    match call.tool
    case ValidateTool => RunValidate(cfg, s, w)
    case Read =>
      var (s', ok) := RunRead(cfg, s, w.disk, call.paths, call.offset, call.limit);
      (s', Used(Read, ok, sights))
    case FileWrite => var (s', ok) := RunFileWrite(cfg, s, call); (s', Used(FileWrite, ok, sights))
    case FileEdit => var (s', ok) := RunFileEdit(cfg, s, w.disk, call); (s', Used(FileEdit, ok, sights))
    case Init => (s.(idle := 0), Used(Init, !cfg.hasWorkflowTree && w.otherOk, sights))
    case other => (s, Used(other, w.otherOk, sights))
  }

  /** executeTool */
  ghost function Execute(cfg: Config, s: State, turn: nat, call: ToolCall, w: World): State {
    var (s', record) := Effect(cfg, s, call, w);
    Log(s', turn, RecordName(record), RecordOk(record), record)
  }

  /** appendSyntheticFailure */
  function TurnDown(s: State, turn: nat, name: string): State {
    Log(s, turn, name, false, TurnedDown(name))
  }

  // ---------------------------------------------------------------------------------------------
  // Turns and runs

  /** A tool call as the provider sent it: `parses` says whether the arguments of the two control tools
      could be parsed; a call that is no known tool or misses arguments is malformed. */
  datatype ProviderCall =
    | Clarification(parses: bool)
    | Finish(parses: bool)
    | Malformed(name: string)
    | Use(call: ToolCall, world: World)

  datatype Response = ProviderFailed | Calls(calls: seq<ProviderCall>)

  /** What a turn meets: the provider's response, and the world an automatic validate would see. */
  datatype TurnInput = TurnInput(response: Response, autoWorld: World)

  datatype Problem = ProviderError | NoToolCall | NotAlone | BadArguments | FailureBudget | TurnBudget

  datatype End = Finished(files: seq<GeneratedFile>, explicit: bool) | AskedClarification | Stopped(problem: Problem)

  datatype CallsEnd = GoOn | Finishing | Clarifying | Broken(problem: Problem)

  /** A finish call that arrived alone and parsed. */
  ghost function TryFinish(cfg: Config, s: State, turn: nat): (State, CallsEnd) {
    if !s.lintPassed then (TurnDown(s, turn, FINISH_NAME), GoOn)
    else if CandidateFiles(s.candidates) == [] && cfg.plan.route != Refine then (TurnDown(s, turn, FINISH_NAME), GoOn)
    else (s, Finishing)
  }

  /** After the last call: a read-only turn with a passing verdict counts as idle, any other tool resets. */
  function CloseTurn(s: State, readOnly: bool): State {
    if s.lintPassed && readOnly then s.(idle := s.idle + 1) else if !readOnly then s.(idle := 0) else s
  }

  /** The loop of handleToolCalls from call i on. */
  ghost function HandleFrom(
    cfg: Config, s: State, turn: nat, calls: seq<ProviderCall>, i: nat, readOnly: bool): (State, CallsEnd)
    requires i <= |calls|
    decreases |calls| - i
  {
    if i == |calls| then (CloseTurn(s, readOnly), GoOn)
    else match calls[i]
      case Clarification(parses) =>
        (s, if |calls| != 1 then Broken(NotAlone) else if !parses then Broken(BadArguments) else Clarifying)
      case Finish(parses) =>
        if |calls| != 1 then (s, Broken(NotAlone)) else if !parses then (s, Broken(BadArguments))
        else TryFinish(cfg, s, turn)
      case Malformed(name) => HandleFrom(cfg, TurnDown(s, turn, name), turn, calls, i + 1, readOnly)
      case Use(call, w) =>
        HandleFrom(cfg, Execute(cfg, s, turn, call, w), turn, calls, i + 1, readOnly && IsReadOnly(call.tool))
  }

  predicate AutoFinishes(s: State) {
    s.lintPassed && |s.candidates| > 0 && s.idle >= 2
  }

  predicate IsWriteName(name: string) {
    name == "file_write" || name == "file_edit"
  }

  /** The last k events are writes (or rejected attempts at one). */
  predicate TrailingWrites(events: seq<Event>, k: nat) {
    k <= |events| && forall i | |events| - k <= i < |events| :: IsWriteName(events[i].name)
  }

  /** shouldAutoValidate: the longest trailing run of writes has at least three, and no validate comes
      directly before it. */
  ghost predicate AutoValidates(s: State) {
    |s.candidates| > 0 && |s.events| >= 3 &&
    exists k: nat :: k >= 3 && TrailingWrites(s.events, k) && !TrailingWrites(s.events, k + 1) &&
                     (k < |s.events| ==> s.events[|s.events| - k - 1].name != "validate")
  }

  const VALIDATE_CALL := ToolCall(ValidateTool, "", [], "", 0, 0, "", "", false)

  function BeginTurn(s: State, turn: nat): State {
    s.(turnsUsed := turn, marks := s.marks + [s.candidates])
  }

  /** After the calls of a turn that goes on: finish quietly, or validate a burst of writes. */
  ghost function EndTurn(cfg: Config, s: State, turn: nat, autoWorld: World): (State, Option<End>) {
    if AutoFinishes(s) then (s, Some(Finished(CandidateFiles(s.candidates), false)))
    else
      var s' := if AutoValidates(s) then Execute(cfg, s, turn, VALIDATE_CALL, autoWorld) else s;
      if s'.failures > cfg.verificationBudget then (s', Some(Stopped(FailureBudget))) else (s', None)
  }

  /** One pass through the loop of runAuthoringAgentRuntime. */
  ghost function RunTurn(cfg: Config, s: State, turn: nat, input: TurnInput): (State, Option<End>) {
    var s0 := BeginTurn(s, turn);
    if input.response.ProviderFailed? then (s0, Some(Stopped(ProviderError)))
    else if input.response.calls == [] then (s0, Some(Stopped(NoToolCall)))
    else
      var (s1, end) := HandleFrom(cfg, s0, turn, input.response.calls, 0, true);
      match end
      case Broken(problem) => (s1, Some(Stopped(problem)))
      case Clarifying => (s1, Some(AskedClarification))
      case Finishing => (s1, Some(Finished(CandidateFiles(s1.candidates), true)))
      case GoOn => EndTurn(cfg, s1, turn, input.autoWorld)
  }

  /** maybeExecuteAuthoringRuntime's budget: three turns per verification and two more, at least thirty. */
  function TurnLimit(cfg: Config): nat {
    var wanted := cfg.verificationBudget * 3 + 2;
    var atLeastFour := if wanted > 4 then wanted else 4;
    if atLeastFour < 30 then 30 else atLeastFour
  }

  /** What the provider does in turn n; a script that is over counts as a provider failure. */
  function InputAt(script: seq<TurnInput>, turn: nat, last: TurnInput): TurnInput {
    if 1 <= turn <= |script| then script[turn - 1] else last.(response := ProviderFailed)
  }

  /** The loop of runAuthoringAgentRuntime from turn `turn` on. */
  ghost function RunFrom(cfg: Config, s: State, turn: nat, script: seq<TurnInput>, last: TurnInput): (State, End)
    decreases TurnLimit(cfg) + 1 - turn
  {
    if turn > TurnLimit(cfg) then (s, Stopped(TurnBudget))
    else
      var (s', end) := RunTurn(cfg, s, turn, InputAt(script, turn, last));
      match end
      case Some(e) => (s', e)
      case None => RunFrom(cfg, s', turn + 1, script, last)
  }

  ghost function Run(cfg: Config, script: seq<TurnInput>, last: TurnInput): (State, End) {
    RunFrom(cfg, INITIAL, 1, script, last)
  }
}
