/** Exact string replacement as the file_edit tool uses it: strings.Count, strings.Replace and
    strings.ReplaceAll. */
module TextEdit {
  import opened Text

  /** strings.Count: non-overlapping occurrences; the empty string occurs around every character. */
  function Count(s: string, sub: string): nat
    decreases |s|
  {
    if sub == "" then |s| + 1
    else
      var i := Index(s, sub);
      if i == -1 then 0 else 1 + Count(s[i + |sub|..], sub)
  }

  /** strings.Replace(s, old, new, 1) */
  function ReplaceFirst(s: string, from: string, to: string): string {
    var i := Index(s, from);
    if i == -1 then s else s[..i] + to + s[i + |from|..]
  }

  function Interleave(s: string, to: string): string {
    if s == "" then to else to + [s[0]] + Interleave(s[1..], to)
  }

  /** strings.ReplaceAll */
  function ReplaceAll(s: string, from: string, to: string): string
    decreases |s|
  {
    if from == "" then Interleave(s, to)
    else
      var i := Index(s, from);
      if i == -1 then s else s[..i] + to + ReplaceAll(s[i + |from|..], from, to)
  }

  /** A unique match: replacing it once and replacing all of them are the same edit, which puts the new
      text exactly where the old one was and keeps everything around it. */
  lemma UniqueMatch(s: string, from: string, to: string)
    requires Count(s, from) == 1
    ensures ReplaceAll(s, from, to) == ReplaceFirst(s, from, to)
    ensures exists left, right :: s == left + from + right && ReplaceFirst(s, from, to) == left + to + right
  {
    hide IndexFrom;
    var i := Index(s, from);
    IndexFirst(s, from);
    if from == "" {
      assert s == "" && OccursAt(s, from, 0);
      assert i == 0;
      assert s == "" + from + "" && ReplaceFirst(s, from, to) == "" + to + "";
      assert ReplaceAll(s, from, to) == to;
    } else {
      var left, right := s[..i], s[i + |from|..];
      assert s == left + from + right;
      assert ReplaceFirst(s, from, to) == left + to + right;
      assert Index(right, from) == -1;
    }
  }

  /** There is nothing to count exactly when the text does not occur. */
  lemma CountZeroIff(s: string, sub: string)
    ensures Count(s, sub) == 0 <==> !Contains(s, sub)
  {
    if sub == "" {
      IndexFirst(s, sub);
      assert OccursAt(s, sub, 0);
    }
  }

  // ---------------------------------------------------------------------------------------------
  // What a replacement does, told by the parts that stay

  /** The parts with a separator between each two. */
  function Join(parts: seq<string>, sep: string): string {
    if parts == [] then "" else if |parts| == 1 then parts[0] else parts[0] + sep + Join(parts[1..], sep)
  }

  lemma JoinCons(part: string, others: seq<string>, sep: string)
    requires others != []
    ensures Join([part] + others, sep) == part + sep + Join(others, sep)
  {
    assert ([part] + others)[1..] == others;
  }

  /** The text falls into the parts at the matches found from left to right, and none is left in a part. */
  ghost predicate SplitAt(s: string, sub: string, parts: seq<string>) {
    && parts != [] && s == Join(parts, sub)
    && (sub != "" ==>
         && (forall part | part in parts :: !Contains(part, sub))
         && (forall k | 0 <= k < |parts| - 1 :: FirstAt(Join(parts[k..], sub), sub, |parts[k]|)))
    && (sub == "" ==> |parts| == |s| + 2 && forall k | 0 <= k < |s| :: parts[k + 1] == [s[k]])
  }

  /** Replacing all matches puts the new text between the parts that stay. */
  lemma {:induction false} ReplaceAllParts(s: string, sub: string, to: string) returns (parts: seq<string>)
    ensures SplitAt(s, sub, parts) && ReplaceAll(s, sub, to) == Join(parts, to)
    ensures |parts| == Count(s, sub) + 1
    decreases |s|
  {
    if sub == "" {
      parts := Letters(s, to);
    } else {
      hide IndexFrom, Contains, FirstAt;
      var i := Index(s, sub);
      IndexFirst(s, sub);
      if i == -1 {
        parts := [s];
        assert !Contains(s, sub) by { NotContained(s, sub); }
      } else {
        var rest := s[i + |sub|..];
        var others := ReplaceAllParts(rest, sub, to);
        parts := SplitFront(s, sub, i, others);
        JoinCons(s[..i], others, to);
      }
    }
  }

  lemma NotContained(s: string, sub: string)
    ensures Index(s, sub) == -1 <==> !Contains(s, sub)
  {
  }

  /** One more part in front, up to the first match. */
  lemma SplitFront(s: string, sub: string, i: nat, others: seq<string>) returns (parts: seq<string>)
    requires sub != "" && FirstAt(s, sub, i) && SplitAt(s[i + |sub|..], sub, others)
    ensures parts == [s[..i]] + others && SplitAt(s, sub, parts)
  {
    hide Contains;
    parts := [s[..i]] + others;
    FirstPartHasNone(s, sub, i);
    JoinCons(s[..i], others, sub);
    assert s == s[..i] + sub + s[i + |sub|..];
    hide FirstAt, Join;
    forall k | 0 <= k < |parts| - 1 ensures FirstAt(Join(parts[k..], sub), sub, |parts[k]|) {
      if k == 0 {
        assert parts[0..] == parts;
      } else {
        assert parts[k..] == others[k - 1..];
      }
    }
  }

  /** Before the first match there is none. */
  lemma FirstPartHasNone(s: string, sub: string, i: nat)
    requires FirstAt(s, sub, i) && sub != ""
    ensures !Contains(s[..i], sub)
  {
    var part := s[..i];
    forall j ensures !OccursAt(part, sub, j) {
      if 0 <= j <= |part| - |sub| {
        assert part[j..j + |sub|] == s[j..j + |sub|];
        assert !OccursAt(s, sub, j);
      }
    }
    IndexFirst(part, sub);
  }

  /** Every character, and nothing behind. */
  function Spelled(s: string): (r: seq<string>)
    ensures |r| == |s| + 1 && forall k | 0 <= k < |s| :: r[k] == [s[k]]
  {
    if s == "" then [""] else [[s[0]]] + Spelled(s[1..])
  }

  lemma {:induction false} SpelledJoins(s: string, sep: string)
    ensures Interleave(s, sep) == sep + Join(Spelled(s), sep)
    ensures Join(Spelled(s), "") == s
  {
    if s != "" {
      var rest, next := Spelled(s[1..]), [s[0]];
      SpelledJoins(s[1..], sep);
      JoinCons(next, rest, sep);
      JoinCons(next, rest, "");
      hide Join;
      assert sep + next + (sep + Join(rest, sep)) == sep + (next + sep + Join(rest, sep));
      assert s == next + "" + s[1..];
    }
  }

  /** The parts between empty matches: nothing in front, every character, nothing behind. */
  lemma Letters(s: string, to: string) returns (parts: seq<string>)
    ensures SplitAt(s, "", parts) && Interleave(s, to) == Join(parts, to)
  {
    hide Join, Interleave;
    parts := [""] + Spelled(s);
    SpelledJoins(s, to);
    JoinCons("", Spelled(s), to);
    JoinCons("", Spelled(s), "");
    assert "" + to + Join(Spelled(s), to) == to + Join(Spelled(s), to);
  }

  /** Two matches that do not overlap. */
  ghost predicate TwoMatches(s: string, sub: string) {
    exists i, j :: i < j && i + |sub| <= j && OccursAt(s, sub, i) && OccursAt(s, sub, j)
  }

  /** More than one match is counted exactly when two of them do not overlap. */
  lemma CountTwoIff(s: string, sub: string)
    ensures Count(s, sub) > 1 <==> TwoMatches(s, sub)
  {
    hide IndexFrom;
    if sub == "" {
      if s != "" { assert OccursAt(s, sub, 0) && OccursAt(s, sub, 1); }
    } else {
      IndexFirst(s, sub);
      var i := Index(s, sub);
      if i != -1 {
        var after := i + |sub|;
        var rest := s[after..];
        IndexFirst(rest, sub);
        CountZeroIff(rest, sub);
        forall k ensures OccursAt(rest, sub, k) <==> k >= 0 && OccursAt(s, sub, after + k) {
          if 0 <= k <= |rest| - |sub| { SliceOfSlice(s, after, |s|, k, k + |sub|); }
        }
        if TwoMatches(s, sub) {
          var a, b :| a < b && a + |sub| <= b && OccursAt(s, sub, a) && OccursAt(s, sub, b);
          assert i <= a;
          assert OccursAt(rest, sub, b - after);
        }
        if Count(rest, sub) > 0 {
          assert OccursAt(s, sub, after + Index(rest, sub));
        }
      }
    }
  }

  /** Replacing the first match keeps what is before and after it. */
  lemma ReplaceFirstParts(s: string, sub: string, to: string) returns (left: string, right: string)
    requires Count(s, sub) == 1
    ensures s == left + sub + right && ReplaceFirst(s, sub, to) == left + to + right
    ensures FirstAt(s, sub, |left|) && (sub != "" ==> !Contains(right, sub))
  {
    hide IndexFrom;
    IndexFirst(s, sub);
    if sub == "" { assert OccursAt(s, sub, 0); }
    var i := Index(s, sub);
    left, right := s[..i], s[i + |sub|..];
    CountZeroIff(right, sub);
    assert s == left + sub + right;
  }
}
