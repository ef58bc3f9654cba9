/** Which tools the authoring agent is offered, depending on how long it has only been reading:
    internal/askcli/author_runtime_tools.go. */
module AuthoringTools {
  import opened Text

  const FINISH := "author_finish"
  const CLARIFY := "author_request_clarification"

  predicate IsReading(name: string) {
    name in {"read", "grep", "glob", "schema"}
  }

  /** Events that end a run of schema lookups. */
  predicate EndsSchemaLoop(name: string) {
    name in {"file_write", "validate", "file_edit", "read"}
  }

  function CountSchema(names: seq<string>): nat {
    if names == [] then 0 else CountSchema(names[..|names| - 1]) + if names[|names| - 1] == "schema" then 1 else 0
  }

  lemma {:induction false} CountSchemaJoin(a: seq<string>, b: seq<string>)
    ensures CountSchema(a + b) == CountSchema(a) + CountSchema(b)
  {
    if b == [] {
      assert a + b == a;
    } else {
      CountSchemaJoin(a, b[..|b| - 1]);
      assert (a + b)[..|a + b| - 1] == a + b[..|b| - 1];
    }
  }

  /** from is where the part after the last event that ends a schema loop begins. */
  ghost predicate LoopStart(names: seq<string>, from: int) {
    && 0 <= from <= |names|
    && (forall i | from <= i < |names| :: !EndsSchemaLoop(names[i]))
    && (from > 0 ==> EndsSchemaLoop(names[from - 1]))
  }

  /** schemaLoopCount counts the schema lookups since the last write, edit, validation or read. */
  method SchemaLoopCount(names: seq<string>) returns (count: nat)
    ensures forall from | LoopStart(names, from) :: count == CountSchema(names[from..])
    ensures exists from :: LoopStart(names, from)
  {
    hide EndsSchemaLoop;
    count := 0;
    var i := |names|;
    assert names[i..] == [];
    while i > 0
      invariant 0 <= i <= |names|
      invariant forall k | i <= k < |names| :: !EndsSchemaLoop(names[k])
      invariant count == CountSchema(names[i..])
    {
      if names[i - 1] != "schema" {
        if EndsSchemaLoop(names[i - 1]) {
          break;
        }
      }
      SchemaEndsNothing(names[i - 1]);
      assert names[i - 1..] == [names[i - 1]] + names[i..];
      CountSchemaJoin([names[i - 1]], names[i..]);
      OneSchema(names[i - 1]);
      count := count + if names[i - 1] == "schema" then 1 else 0;
      i := i - 1;
    }
    assert LoopStart(names, i);
    forall from | LoopStart(names, from) ensures from == i {
      LoopStartIsUnique(names, from, i);
    }
  }

  lemma LoopStartIsUnique(names: seq<string>, a: int, b: int)
    requires LoopStart(names, a) && LoopStart(names, b)
    ensures a == b
  {
    hide EndsSchemaLoop;
    assert a > 0 ==> EndsSchemaLoop(names[a - 1]);
    assert b > 0 ==> EndsSchemaLoop(names[b - 1]);
  }

  lemma SchemaEndsNothing(name: string)
    ensures name == "schema" ==> !EndsSchemaLoop(name)
  {
  }

  lemma OneSchema(name: string)
    ensures CountSchema([name]) == if name == "schema" then 1 else 0
  {
    assert [name][..0] == [];
  }

  /** n is the length of the longest run of reading events at the end. */
  ghost predicate ReadingRun(names: seq<string>, n: nat) {
    && n <= |names|
    && (forall i | |names| - n <= i < |names| :: IsReading(names[i]))
    && (n < |names| ==> !IsReading(names[|names| - n - 1]))
  }

  /** readOnlyStreakCount */
  method ReadOnlyStreakCount(names: seq<string>) returns (count: nat)
    ensures ReadingRun(names, count)
  {
    count := 0;
    while count < |names| && IsReading(names[|names| - count - 1])
      invariant count <= |names|
      invariant forall i | |names| - count <= i < |names| :: IsReading(names[i])
    {
      count := count + 1;
    }
  }

  /** What activeAuthoringTools looks at. */
  datatype Situation = Situation(draftInEmptyWorkspace: bool, verificationFailure: nat, candidates: nat)

  function ActiveTools(available: seq<string>, s: Situation, schemaLoop: nat, streak: nat): (tools: seq<string>)
    ensures s.candidates > 0 && (schemaLoop >= 2 || streak >= 3) ==> forall t | t in tools :: !IsReading(t)
  {
    var stuck := schemaLoop >= 2 || streak >= 3;
    if s.draftInEmptyWorkspace && s.verificationFailure > 0 then
      if stuck then ["file_edit", "file_write", "validate"]
      else ["read", "file_edit", "file_write", "validate", "schema"]
    else if s.draftInEmptyWorkspace && s.candidates == 0 then
      if schemaLoop >= 2 then ["file_write", "init", "validate"]
      else ["read", "file_write", "init", "validate", "schema", "web_search"]
    else if s.candidates > 0 && stuck then ["file_write", "file_edit", "validate", FINISH, CLARIFY]
    else available
  }

  /** Whether the offer is cut down at all: in an empty workspace until something is staged and after every failed
      validation, and anywhere once files are staged and the agent only keeps reading. */
  predicate IsCutDown(s: Situation, schemaLoop: nat, streak: nat) {
    (s.draftInEmptyWorkspace && (s.verificationFailure > 0 || s.candidates == 0))
    || (s.candidates > 0 && (schemaLoop >= 2 || streak >= 3))
  }

  /** In the ordinary case every available tool is offered. In the others: writing and validating always are;
      editing once something can be edited; reading unless it is what the agent is stuck in; setting up the
      workspace only while it is empty and nothing is staged; ending the session only outside it. */
  lemma WhatIsOffered(available: seq<string>, s: Situation, schemaLoop: nat, streak: nat)
    ensures var tools := ActiveTools(available, s, schemaLoop, streak);
            var failed := s.draftInEmptyWorkspace && s.verificationFailure > 0;
            var untouched := s.draftInEmptyWorkspace && s.verificationFailure == 0 && s.candidates == 0;
            var mayRead := (failed && schemaLoop < 2 && streak < 3) || (untouched && schemaLoop < 2);
            if !IsCutDown(s, schemaLoop, streak) then tools == available
            else "file_write" in tools && "validate" in tools &&
                 ("file_edit" in tools <==> !untouched) &&
                 ("read" in tools <==> mayRead) && ("schema" in tools <==> mayRead) &&
                 ("init" in tools <==> untouched) && ("web_search" in tools <==> untouched && mayRead) &&
                 (FINISH in tools <==> !failed && !untouched) && (CLARIFY in tools <==> !failed && !untouched) &&
                 forall t | t in tools ::
                   t in {"file_write", "validate", "file_edit", "read", "schema", "init", "web_search", FINISH, CLARIFY}
  {
  }

  /** A write or a validation clears both counters, so the restriction does not outlive it. */
  lemma ActingLiftsTheRestriction(names: seq<string>, name: string, from: int, n: nat)
    requires name in {"file_write", "file_edit", "validate"}
    requires LoopStart(names + [name], from) && ReadingRun(names + [name], n)
    ensures CountSchema((names + [name])[from..]) == 0 && n == 0
  {
    var all := names + [name];
    assert all[|names|] == name;
    assert from == |all|;
    assert all[from..] == [];
  }

  predicate Offered(active: seq<string>, name: string) {
    exists a | a in active :: TrimSpace(a) == name
  }

  ghost predicate Distinct(names: seq<string>) {
    forall i, j | 0 <= i < j < |names| :: names[i] != names[j]
  }

  /** The names of authoringToolDefinitions: every definition once, and the two that end a session always. */
  method ToolDefinitions(active: seq<string>) returns (names: seq<string>)
    ensures Distinct(names)
    ensures forall n :: n in names <==> n in {FINISH, CLARIFY} || (n != "" && Offered(active, n))
  {
    hide TrimSpace;
    var seen: set<string> := {};
    names := [];
    for i := 0 to |active|
      invariant Distinct(names)
      invariant forall n :: n in names <==> n in seen
      invariant forall n :: n in seen <==> n != "" && Offered(active[..i], n)
    {
      var name := TrimSpace(active[i]);
      assert active[..i + 1] == active[..i] + [active[i]];
      NamedSoFar(active, i);
      if name != "" && name !in seen {
        seen, names := seen + {name}, names + [name];
      }
    }
    assert active[..|active|] == active;
    if FINISH !in seen {
      seen, names := seen + {FINISH}, names + [FINISH];
    }
    if CLARIFY !in seen {
      seen, names := seen + {CLARIFY}, names + [CLARIFY];
    }
  }

  lemma NamedSoFar(active: seq<string>, i: nat)
    requires i < |active|
    ensures forall n :: Offered(active[..i + 1], n) <==> Offered(active[..i], n) || TrimSpace(active[i]) == n
  {
    hide TrimSpace;
    var more := active[..i + 1];
    assert more == active[..i] + [active[i]];
    assert active[i] in more && forall a | a in active[..i] :: a in more;
    forall n ensures Offered(more, n) <==> Offered(active[..i], n) || TrimSpace(active[i]) == n {
      if Offered(more, n) {
        var a :| a in more && TrimSpace(a) == n;
        assert a in active[..i] || a == active[i];
      }
    }
  }

  /** The streak is as long as the calls at the end that read, search or look up schemas. */
  lemma StreakIs(before: seq<string>, run: seq<string>, n: nat)
    requires forall i | 0 <= i < |run| :: run[i] in {"read", "grep", "glob", "schema"}
    requires before == [] || before[|before| - 1] !in {"read", "grep", "glob", "schema"}
    requires ReadingRun(before + run, n)
    ensures n == |run|
  {
    var all := before + run;
    assert forall i | 0 <= i < |before| :: all[i] == before[i];
    assert forall i | |before| <= i < |all| :: all[i] == run[i - |before|];
  }

  /** The loop counts the schema lookups since the last read, write, edit or validation, whatever else there was. */
  lemma SchemaLoopIs(before: seq<string>, after: seq<string>, from: int)
    requires forall i | 0 <= i < |after| :: after[i] !in {"file_write", "validate", "file_edit", "read"}
    requires before == [] || before[|before| - 1] in {"file_write", "validate", "file_edit", "read"}
    requires LoopStart(before + after, from)
    ensures (before + after)[from..] == after
  {
    var all := before + after;
    assert forall i | 0 <= i < |before| :: all[i] == before[i];
    assert forall i | |before| <= i < |all| :: all[i] == after[i - |before|];
    assert from == |before|;
  }
}
