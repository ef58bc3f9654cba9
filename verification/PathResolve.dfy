/** Rewriting "steps.<id>..." edit paths to positions: internal/askir/path_resolve.go. */
module PathResolve {
  import opened Text
  import opened WorkflowDoc
  import StepIds

  /** One segment of a structured path. */
  datatype Segment = Key(key: string) | Index(index: nat)

  /** The YAML value a path leads to, if there is one. */
  function Navigate(node: Node, path: seq<Segment>): Option<Node> {
    if path == [] then Some(node)
    else match (path[0], node)
      case (Key(k), Mapping(fields)) => if k in fields then Navigate(fields[k], path[1..]) else None
      case (Index(i), Seq(items)) => if i < |items| then Navigate(items[i], path[1..]) else None
      case _ => None
  }

  function StepNode(s: Step): Node {
    Mapping(s.fields["id" := Scalar(s.id)])
  }

  function StepNodes(steps: seq<Step>): (r: seq<Node>)
    ensures |r| == |steps| && forall i | 0 <= i < |steps| :: r[i] == StepNode(steps[i])
  {
    seq(|steps|, i requires 0 <= i < |steps| => StepNode(steps[i]))
  }

  /** An empty list of steps is left out of the file. */
  function WithSteps(fields: map<string, Node>, steps: seq<Step>): map<string, Node> {
    if steps == [] then fields - {"steps"} else fields["steps" := Seq(StepNodes(steps))]
  }

  function PhaseNode(p: Phase): Node {
    Mapping(WithSteps(p.fields["name" := Scalar(p.name)], p.steps))
  }

  function PhaseNodes(phases: seq<Phase>): (r: seq<Node>)
    ensures |r| == |phases| && forall i | 0 <= i < |phases| :: r[i] == PhaseNode(phases[i])
  {
    seq(|phases|, i requires 0 <= i < |phases| => PhaseNode(phases[i]))
  }

  /** The YAML tree of a workflow file. */
  function Tree(w: Workflow): Node {
    Mapping(WithSteps(if w.phases == [] then w.fields - {"phases"}
                      else w.fields["phases" := Seq(PhaseNodes(w.phases))], w.steps))
  }

  /** The first step with the trimmed id, in one list. */
  function FindStep(steps: seq<Step>, id: string, from: nat): (r: Option<nat>)
    requires from <= |steps|
    ensures r.Some? ==> from <= r.value < |steps|
    decreases |steps| - from
  {
    if from == |steps| then None
    else if TrimSpace(steps[from].id) == id then Some(from)
    else FindStep(steps, id, from + 1)
  }

  /** Where a step is: in a phase or at top level. */
  datatype Place = InPhase(phase: nat, step: nat) | TopLevel(step: nat) | Nowhere

  function FindInPhases(phases: seq<Phase>, id: string, from: nat): (r: Place)
    requires from <= |phases|
    ensures !r.TopLevel? && (r.InPhase? ==> from <= r.phase < |phases| && r.step < |phases[r.phase].steps|)
    decreases |phases| - from
  {
    if from == |phases| then Nowhere
    else
      match FindStep(phases[from].steps, id, 0)
      case Some(j) => InPhase(from, j)
      case None => FindInPhases(phases, id, from + 1)
  }

  /** Phases are searched first, in order, then the top-level steps. */
  function Locate(w: Workflow, id: string): (r: Place)
    ensures r.InPhase? ==> r.phase < |w.phases| && r.step < |w.phases[r.phase].steps|
    ensures r.TopLevel? ==> r.step < |w.steps|
  {
    var nested := FindInPhases(w.phases, id, 0);
    if nested.InPhase? then nested
    else match FindStep(w.steps, id, 0)
      case Some(j) => TopLevel(j)
      case None => Nowhere
  }

  function Prefix(place: Place): seq<Segment>
    requires !place.Nowhere?
  {
    if place.InPhase? then [Key("phases"), Index(place.phase), Key("steps"), Index(place.step)]
    else [Key("steps"), Index(place.step)]
  }

  /** Paths of the form steps.<id>... are the ones rewritten. */
  predicate NamesStep(path: seq<Segment>) {
    |path| >= 2 && path[0] == Key("steps") && path[1].Key?
  }

  /** rewriteWorkflowStepPath; a document without a workflow leaves every path alone. */
  function RewriteStepPath(path: seq<Segment>, doc: Option<Workflow>): seq<Segment> {
    if doc.None? || !NamesStep(path) then path
    else
      var place := Locate(doc.value, TrimSpace(path[1].key));
      if place.Nowhere? then path else Prefix(place) + path[2..]
  }

  /** normalizeVarsDocumentEditPath: paths into a vars document drop their leading "vars". */
  function VarsEditPath(raw: string, doc: Document): string {
    var path := TrimSpace(raw);
    if !doc.isVars then path
    else if path == "vars" then ""
    else if HasPrefix(path, "vars.") then path[5..]
    else path
  }

  /** ResolveStructuredEditPath; parsing and printing of paths are the structured-path library's, and a
      path it cannot parse is passed on trimmed. */
  function ResolveEditPath(raw: string, doc: Document,
                           parsePath: string -> Option<seq<Segment>>, printPath: seq<Segment> -> string): string
  {
    var path := VarsEditPath(raw, doc);
    match parsePath(path)
    case None => TrimSpace(path)
    case Some(segments) => printPath(RewriteStepPath(segments, doc.workflow))
  }

  /** The step at a place has the id, and no step earlier in the search order does. */
  ghost predicate IsFirst(w: Workflow, id: string, place: Place) {
    match place
    case InPhase(p, j) =>
      p < |w.phases| && j < |w.phases[p].steps| && TrimSpace(w.phases[p].steps[j].id) == id &&
      (forall q, k | 0 <= q < p && 0 <= k < |w.phases[q].steps| :: TrimSpace(w.phases[q].steps[k].id) != id) &&
      (forall k | 0 <= k < j :: TrimSpace(w.phases[p].steps[k].id) != id)
    case TopLevel(j) =>
      j < |w.steps| && TrimSpace(w.steps[j].id) == id && InNoPhase(w, id) &&
      (forall k | 0 <= k < j :: TrimSpace(w.steps[k].id) != id)
    case Nowhere =>
      InNoPhase(w, id) && forall k | 0 <= k < |w.steps| :: TrimSpace(w.steps[k].id) != id
  }

  ghost predicate InNoPhase(w: Workflow, id: string) {
    forall q, k | 0 <= q < |w.phases| && 0 <= k < |w.phases[q].steps| :: TrimSpace(w.phases[q].steps[k].id) != id
  }

  lemma {:induction false} FindStepIsFirst(steps: seq<Step>, id: string, from: nat)
    requires from <= |steps|
    ensures var r := FindStep(steps, id, from);
            (r.Some? ==> TrimSpace(steps[r.value].id) == id) &&
            (forall k | from <= k < (if r.Some? then r.value else |steps|) :: TrimSpace(steps[k].id) != id)
    decreases |steps| - from
  {
    hide TrimSpace;
    if from < |steps| && TrimSpace(steps[from].id) != id {
      FindStepIsFirst(steps, id, from + 1);
    }
  }

  lemma {:induction false} FindInPhasesIsFirst(w: Workflow, id: string, from: nat)
    requires from <= |w.phases|
    requires forall q, k | 0 <= q < from && 0 <= k < |w.phases[q].steps| :: TrimSpace(w.phases[q].steps[k].id) != id
    ensures var r := FindInPhases(w.phases, id, from);
            if r.Nowhere? then InNoPhase(w, id) else IsFirst(w, id, r)
    decreases |w.phases| - from
  {
    hide TrimSpace;
    if from < |w.phases| {
      FindStepIsFirst(w.phases[from].steps, id, 0);
      if FindStep(w.phases[from].steps, id, 0).None? {
        FindInPhasesIsFirst(w, id, from + 1);
      }
    }
  }

  /** The search finds the first step with the id, phases before top level, or knows there is none. */
  lemma LocateIsFirst(w: Workflow, id: string)
    ensures IsFirst(w, id, Locate(w, id))
  {
    hide TrimSpace, FindInPhases, FindStep;
    FindInPhasesIsFirst(w, id, 0);
    FindStepIsFirst(w.steps, id, 0);
  }

  /** At most one place is first. */
  lemma FirstIsUnique(w: Workflow, id: string, a: Place, b: Place)
    requires IsFirst(w, id, a) && IsFirst(w, id, b)
    ensures a == b
  {
    hide TrimSpace;
  }

  function StepAt(w: Workflow, place: Place): Option<Step> {
    match place
    case InPhase(p, j) => if p < |w.phases| && j < |w.phases[p].steps| then Some(w.phases[p].steps[j]) else None
    case TopLevel(j) => if j < |w.steps| then Some(w.steps[j]) else None
    case Nowhere => None
  }

  /** The path of a place leads to the step there. */
  lemma PlaceDenotesStep(w: Workflow, place: Place, rest: seq<Segment>)
    requires StepAt(w, place).Some?
    ensures Navigate(Tree(w), Prefix(place) + rest) == Navigate(StepNode(StepAt(w, place).value), rest)
  {
    var path := Prefix(place) + rest;
    if place.TopLevel? {
      assert path[1..] == [Index(place.step)] + rest;
      assert path[1..][1..] == rest;
    } else {
      var p := w.phases[place.phase];
      assert path[1..] == [Index(place.phase), Key("steps"), Index(place.step)] + rest;
      assert path[1..][1..] == [Key("steps"), Index(place.step)] + rest;
      assert path[1..][1..][1..] == [Index(place.step)] + rest;
      assert path[1..][1..][1..][1..] == rest;
      ThroughPhases(w, place.phase, [Key("steps"), Index(place.step)] + rest);
      ThroughSteps(p, place.step, rest);
    }
  }

  lemma ThroughPhases(w: Workflow, i: nat, rest: seq<Segment>)
    requires i < |w.phases|
    ensures Navigate(Tree(w), [Key("phases"), Index(i)] + rest) == Navigate(PhaseNode(w.phases[i]), rest)
  {
    var path := [Key("phases"), Index(i)] + rest;
    assert path[1..] == [Index(i)] + rest;
    assert path[1..][1..] == rest;
  }

  lemma ThroughSteps(p: Phase, j: nat, rest: seq<Segment>)
    requires j < |p.steps|
    ensures Navigate(PhaseNode(p), [Key("steps"), Index(j)] + rest) == Navigate(StepNode(p.steps[j]), rest)
  {
    var path := [Key("steps"), Index(j)] + rest;
    assert path[1..] == [Index(j)] + rest;
    assert path[1..][1..] == rest;
  }

  /** A rewritten path denotes the same value as its remaining segments do below the step it names;
      a path that names no step, or no step of this workflow, is unchanged. */
  lemma RewrittenPathDenotesStep(path: seq<Segment>, w: Workflow, place: Place)
    requires NamesStep(path) ==> IsFirst(w, TrimSpace(path[1].key), place)
    ensures var rewritten := RewriteStepPath(path, Some(w));
            if NamesStep(path) && !place.Nowhere?
            then Navigate(Tree(w), rewritten) == Navigate(StepNode(StepAt(w, place).value), path[2..])
            else rewritten == path
  {
    hide TrimSpace, Locate, Tree, Navigate, StepNode, Prefix;
    if NamesStep(path) {
      var id := TrimSpace(path[1].key);
      LocateIsFirst(w, id);
      FirstIsUnique(w, id, place, Locate(w, id));
      if !place.Nowhere? {
        PlaceDenotesStep(w, place, path[2..]);
      }
    }
  }

  /** The segments lead where the given ones mean to: below the first step with the named id, from the root of the
      file on; segments that name no step of the document are themselves. */
  ghost predicate LeadsTo(doc: Option<Workflow>, given: seq<Segment>, target: seq<Segment>) {
    if doc.None? || !NamesStep(given) then target == given
    else
      exists place ::
        && IsFirst(doc.value, TrimSpace(given[1].key), place)
        && if place.Nowhere? then target == given
           else exists front :: target == front + given[2..]
                                && Navigate(Tree(doc.value), front) == Some(StepNode(StepAt(doc.value, place).value))
  }

  /** What an edit's path is before it is looked up: trimmed, and in a vars document without a leading "vars". */
  predicate MeansPath(raw: string, doc: Document, path: string) {
    var trimmed := TrimSpace(raw);
    && (!doc.isVars ==> path == trimmed)
    && (doc.isVars && trimmed == "vars" ==> path == "")
    && (doc.isVars && HasPrefix(trimmed, "vars.") ==> trimmed == "vars." + path)
    && (doc.isVars && trimmed != "vars" && !HasPrefix(trimmed, "vars.") ==> path == trimmed)
  }

  /** The path sent for a raw one: it leads where the parsed one means to, and one that does not parse goes as it is. */
  ghost predicate SentFor(raw: string, doc: Document, parsePath: string -> Option<seq<Segment>>,
                          printPath: seq<Segment> -> string, sent: string)
  {
    exists path :: MeansPath(raw, doc, path) &&
                   match parsePath(path)
                   case None => sent == TrimSpace(path)
                   case Some(given) =>
                     exists target :: LeadsTo(doc.workflow, given, target) && sent == printPath(target)
  }

  lemma RewriteLeads(given: seq<Segment>, doc: Option<Workflow>)
    ensures LeadsTo(doc, given, RewriteStepPath(given, doc))
  {
    hide TrimSpace, Locate, Tree, Navigate, StepNode, Prefix, IsFirst;
    if doc.Some? && NamesStep(given) {
      var w, id := doc.value, TrimSpace(given[1].key);
      var place := Locate(w, id);
      LocateIsFirst(w, id);
      if !place.Nowhere? {
        PlaceIsStep(w, place);
        assert RewriteStepPath(given, doc) == Prefix(place) + given[2..];
      }
    }
  }

  lemma PlaceIsStep(w: Workflow, place: Place)
    requires StepAt(w, place).Some?
    ensures Navigate(Tree(w), Prefix(place)) == Some(StepNode(StepAt(w, place).value))
  {
    hide Tree, StepNode, Prefix;
    PlaceDenotesStep(w, place, []);
    assert Prefix(place) + [] == Prefix(place);
  }

  /** Every path an edit is sent with leads to the step it names by id, wherever that step now stands. */
  lemma ResolvedPathLeads(raw: string, doc: Document, parsePath: string -> Option<seq<Segment>>,
                          printPath: seq<Segment> -> string)
    ensures SentFor(raw, doc, parsePath, printPath, ResolveEditPath(raw, doc, parsePath, printPath))
  {
    hide TrimSpace, RewriteStepPath, LeadsTo;
    var path := VarsEditPath(raw, doc);
    assert MeansPath(raw, doc, path);
    if parsePath(path).Some? {
      RewriteLeads(parsePath(path).value, doc.workflow);
    }
  }

  /** After the duplicate-id repair the named step is the only one with its id. */
  lemma RepairedIdNamesOneStep(w: Workflow, i: nat, j: nat)
    requires forall k | 0 <= k < |w.phases| :: StepIds.CleanName(w.phases[k].name)
    requires var items := StepIds.Items(StepIds.RenameWorkflow(w).workflow);
             i < |items| && j < |items| && TrimSpace(items[i].id) == TrimSpace(items[j].id) != ""
    ensures i == j
  {
    hide StepIds.RenameWorkflow, StepIds.Items, TrimSpace, StepIds.CleanName;
    var once := StepIds.RenameWorkflow(w).workflow;
    StepIds.SecondPassRenamesNothing(w);
    StepIds.RenamedIdsAreDistinct(once);
  }

  /** The condition on the phase names is exact: only for clean ones do repaired ids always name one step. */
  lemma OneStepPerIdIff(name: string)
    ensures StepIds.CleanName(name) <==>
            forall w: Workflow | StepIds.AllNamed(w, name) ::
              !StepIds.HasDuplicate(StepIds.Items(StepIds.RenameWorkflow(w).workflow))
  {
    hide StepIds.RenameWorkflow, StepIds.Items, StepIds.CleanName, StepIds.HasDuplicate;
    forall w: Workflow
      ensures StepIds.RenameWorkflow(StepIds.RenameWorkflow(w).workflow).renamed
              == StepIds.HasDuplicate(StepIds.Items(StepIds.RenameWorkflow(w).workflow))
    {
      StepIds.RenamedIdsAreDistinct(StepIds.RenameWorkflow(w).workflow);
    }
    StepIds.CleanNameIff(name);
  }
}
