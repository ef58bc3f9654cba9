/** The string operations of Go's standard library that the repository relies on:
    trimming, lower-casing, searching, replacing and lexicographic order. */
module Text {

  datatype Option<+T> = None | Some(value: T)

  /** unicode.IsSpace */
  predicate IsSpace(c: char) {
    c in {'\t', '\n', '\U{0B}', '\U{0C}', '\r', ' ', '\U{85}', '\U{A0}', '\U{1680}',
          '\U{2028}', '\U{2029}', '\U{202F}', '\U{205F}', '\U{3000}'}
    || '\U{2000}' <= c <= '\U{200A}'
  }

  function TrimLeft(s: string, drop: char -> bool): string {
    if s != [] && drop(s[0]) then TrimLeft(s[1..], drop) else s
  }

  function TrimRight(s: string, drop: char -> bool): string {
    if s != [] && drop(s[|s| - 1]) then TrimRight(s[..|s| - 1], drop) else s
  }

  /** Trimming on the left leaves the part of the string from the first kept character on. */
  lemma {:induction false} TrimLeftKeepsEnd(s: string, drop: char -> bool)
    ensures var r := TrimLeft(s, drop);
            |r| <= |s| && r == s[|s| - |r|..] && (r != [] ==> !drop(r[0]))
  {
    if s != [] && drop(s[0]) {
      TrimLeftKeepsEnd(s[1..], drop);
    }
  }

  /** Trimming on the right leaves the part of the string up to the last kept character. */
  lemma {:induction false} TrimRightKeepsStart(s: string, drop: char -> bool)
    ensures var r := TrimRight(s, drop);
            |r| <= |s| && r == s[..|r|] && (r != [] ==> !drop(r[|r| - 1]))
  {
    if s != [] && drop(s[|s| - 1]) {
      TrimRightKeepsStart(s[..|s| - 1], drop);
    }
  }

  /** strings.Trim with a single-character class */
  function Trim(s: string, drop: char -> bool): string {
    TrimRight(TrimLeft(s, drop), drop)
  }

  /** strings.TrimSpace */
  function TrimSpace(s: string): string {
    Trim(s, IsSpace)
  }

  /** Both ends of a trimmed string are kept characters. */
  lemma TrimEnds(s: string, drop: char -> bool)
    ensures var r := Trim(s, drop); r != [] ==> !drop(r[0]) && !drop(r[|r| - 1])
  {
    var l := TrimLeft(s, drop);
    var r := TrimRight(l, drop);
    TrimLeftKeepsEnd(s, drop);
    TrimRightKeepsStart(l, drop);
    if r != [] {
      assert r[0] == l[0];
    }
  }

  /** A string is its own trimming exactly when neither end may be dropped. */
  lemma TrimFixed(s: string, drop: char -> bool)
    ensures Trim(s, drop) == s <==> (s == [] || (!drop(s[0]) && !drop(s[|s| - 1])))
  {
    if s != [] {
      TrimEnds(s, drop);
    }
  }

  lemma TrimIdempotent(s: string, drop: char -> bool)
    ensures Trim(Trim(s, drop), drop) == Trim(s, drop)
  {
    TrimEnds(s, drop);
    TrimFixed(Trim(s, drop), drop);
  }

  predicate IsNewline(c: char) { c == '\n' }

  /** strings.TrimRight(s, "\n") */
  function TrimNewlines(s: string): string {
    TrimRight(s, IsNewline)
  }

  /** unicode.ToLower, exact for every rune whose lower-case form is ASCII */
  function LowerRune(c: char): char {
    if 'A' <= c <= 'Z' then c - 'A' + 'a'
    else if c == '\U{0130}' then 'i'
    else if c == '\U{212A}' then 'k'
    else c
  }

  /** strings.ToLower */
  function ToLower(s: string): (r: string)
    ensures |r| == |s| && forall i :: 0 <= i < |s| ==> r[i] == LowerRune(s[i])
  {
    seq(|s|, i requires 0 <= i < |s| => LowerRune(s[i]))
  }

  predicate HasPrefix(s: string, prefix: string) {
    prefix <= s
  }

  predicate HasSuffix(s: string, suffix: string) {
    |suffix| <= |s| && s[|s| - |suffix|..] == suffix
  }

  /** sub occurs in s at position i */
  predicate OccursAt(s: string, sub: string, i: int) {
    0 <= i <= |s| - |sub| && s[i..i + |sub|] == sub
  }

  function IndexFrom(s: string, sub: string, from: nat): (i: int)
    ensures i == -1 || from <= i <= |s| - |sub|
    decreases |s| - from
  {
    if from + |sub| > |s| then -1
    else if OccursAt(s, sub, from) then from
    else IndexFrom(s, sub, from + 1)
  }

  /** strings.Index */
  function Index(s: string, sub: string): (i: int)
    ensures i == -1 || 0 <= i <= |s| - |sub|
  {
    IndexFrom(s, sub, 0)
  }

  /** The first occurrence, with no earlier one; or no occurrence at all. */
  ghost predicate FirstAt(s: string, sub: string, i: int) {
    && (i == -1 ==> forall j :: !OccursAt(s, sub, j))
    && (i != -1 ==> OccursAt(s, sub, i) && forall j | j < i :: !OccursAt(s, sub, j))
  }

  lemma {:induction false} IndexFromFirst(s: string, sub: string, from: nat)
    requires forall j | j < from :: !OccursAt(s, sub, j)
    ensures FirstAt(s, sub, IndexFrom(s, sub, from))
    decreases |s| - from
  {
    if from + |sub| <= |s| && !OccursAt(s, sub, from) {
      IndexFromFirst(s, sub, from + 1);
    }
  }

  /** strings.Index returns the first occurrence, and that property determines it. */
  lemma IndexFirst(s: string, sub: string)
    ensures FirstAt(s, sub, Index(s, sub))
    ensures forall i | i >= -1 && FirstAt(s, sub, i) :: i == Index(s, sub)
  {
    IndexFromFirst(s, sub, 0);
  }

  /** strings.Contains */
  predicate Contains(s: string, sub: string) {
    Index(s, sub) != -1
  }

  /** Where a loop appends one element to what it has. */
  lemma AppendOne<T>(before: seq<T>, x: T, rest: seq<T>)
    ensures (before + [x]) + rest == before + ([x] + rest)
    ensures [] + rest == rest
  {
  }

  lemma MiddleSlice<T>(a: seq<T>, b: seq<T>, c: seq<T>)
    ensures (a + b + c)[|a|..|a| + |b|] == b
  {
  }

  lemma SliceOfSlice<T>(s: seq<T>, from: nat, to: nat, i: nat, j: nat)
    requires i <= j && from + j <= to <= |s|
    ensures s[from..to][i..j] == s[from + i..from + j]
  {
    var inner, outer := s[from..to][i..j], s[from + i..from + j];
    forall k | 0 <= k < j - i ensures inner[k] == outer[k] {
      assert inner[k] == s[from..to][i + k] == s[from + (i + k)];
    }
  }

  /** Trimming returns a contiguous part of its argument. */
  lemma TrimIsSlice(s: string, drop: char -> bool) returns (from: nat, to: nat)
    ensures from <= to <= |s| && Trim(s, drop) == s[from..to]
  {
    var l := TrimLeft(s, drop);
    var r := TrimRight(l, drop);
    TrimLeftKeepsEnd(s, drop);
    TrimRightKeepsStart(l, drop);
    from, to := |s| - |l|, |s| - |l| + |r|;
    SliceOfSlice(s, from, |s|, 0, |r|);
  }

  lemma TrimElements(s: string, drop: char -> bool)
    ensures forall c | c in Trim(s, drop) :: c in s
  {
    var from, to := TrimIsSlice(s, drop);
    assert forall c | c in s[from..to] :: c in s;
  }

  /** What occurs in the trimmed string occurs in the string. */
  lemma ContainsUntrimmed(s: string, drop: char -> bool, sub: string)
    requires Contains(Trim(s, drop), sub)
    ensures Contains(s, sub)
  {
    var from, to := TrimIsSlice(s, drop);
    var i := Index(s[from..to], sub);
    IndexFirst(s[from..to], sub);
    SliceOfSlice(s, from, to, i, i + |sub|);
    IndexFirst(s, sub);
    assert OccursAt(s, sub, from + i);
  }

  /** Lexicographic order of Go strings (code-point order agrees with UTF-8 byte order). */
  predicate Less(a: string, b: string) {
    b != [] && (a == [] || a[0] < b[0] || (a[0] == b[0] && Less(a[1..], b[1..])))
  }

  lemma {:induction false} LessTransitive(a: string, b: string, c: string)
    requires Less(a, b) && Less(b, c)
    ensures Less(a, c)
  {
    if a != [] && a[0] == b[0] && b[0] == c[0] {
      LessTransitive(a[1..], b[1..], c[1..]);
    }
  }

  lemma {:induction false} LessTotal(a: string, b: string)
    ensures Less(a, b) || Less(b, a) || a == b
    ensures !(Less(a, b) && Less(b, a))
    ensures !Less(a, a)
  {
    if a != [] && b != [] && a[0] == b[0] {
      LessTotal(a[1..], b[1..]);
    }
    if a != [] {
      LessTotal(a[1..], a[1..]);
    }
  }

  ghost predicate IsLeast(m: string, s: set<string>) {
    m in s && forall x | x in s :: x == m || Less(m, x)
  }

  lemma {:induction false} LeastExists(s: set<string>)
    requires s != {}
    ensures exists m :: IsLeast(m, s)
  {
    var e :| e in s;
    if s == {e} {
      assert IsLeast(e, s);
    } else {
      var rest := s - {e};
      LeastExists(rest);
      var m :| IsLeast(m, rest);
      LessTotal(e, m);
      if Less(e, m) {
        forall x | x in s ensures x == e || Less(e, x) {
          if x != e && x != m { LessTransitive(e, m, x); }
        }
        assert IsLeast(e, s);
      } else {
        assert IsLeast(m, s);
      }
    }
  }

  lemma LeastUnique(s: set<string>)
    ensures forall a, b | IsLeast(a, s) && IsLeast(b, s) :: a == b
  {
    forall a, b | IsLeast(a, s) && IsLeast(b, s) ensures a == b {
      LessTotal(a, b);
    }
  }

  ghost function Least(s: set<string>): (m: string)
    requires s != {}
    ensures IsLeast(m, s)
  {
    LeastExists(s);
    var m :| IsLeast(m, s);
    m
  }

  ghost predicate StrictlySorted(s: seq<string>) {
    forall i, j | 0 <= i < j < |s| :: Less(s[i], s[j])
  }

  /** The elements of a set in ascending order: what sorting the keys of a map yields. */
  ghost function Sorted(s: set<string>): (r: seq<string>)
    ensures StrictlySorted(r)
    ensures forall x :: x in r <==> x in s
    ensures |r| == |s|
  {
    if s == {} then [] else
      var m := Least(s);
      var rest := Sorted(s - {m});
      assert forall i | 0 <= i < |rest| :: rest[i] in s - {m};
      [m] + rest
  }

  /** The head of a sorted enumeration is the least element, and the tail enumerates the others. */
  lemma SortedHeadTail(r: seq<string>, s: set<string>)
    requires StrictlySorted(r) && (forall x :: x in r <==> x in s) && r != []
    ensures IsLeast(r[0], s)
    ensures forall x :: x in r[1..] <==> x in s - {r[0]}
  {
    assert r[0] in r;
    forall x | x in s ensures x == r[0] || Less(r[0], x) {
      assert x in r;
    }
    forall x ensures x in r[1..] <==> x in s - {r[0]} {
      assert x in s <==> x in r;
      if x in r[1..] {
        var j :| 1 <= j < |r| && r[j] == x;
        LessTotal(r[0], x);
      }
    }
  }

  /** Ascending order leaves no freedom: any sorted enumeration is the one above. */
  lemma {:induction false} SortedUnique(r: seq<string>, s: set<string>)
    requires StrictlySorted(r) && forall x :: x in r <==> x in s
    ensures r == Sorted(s)
  {
    if r == [] {
      assert forall x | x in s :: x in r;
      assert s == {};
    } else {
      SortedHeadTail(r, s);
      LeastUnique(s);
      SortedUnique(r[1..], s - {r[0]});
    }
  }

  function Digit(d: nat): char
    requires d < 10
  {
    (d + '0' as int) as char
  }

  /** strconv.Itoa on naturals */
  function Decimal(n: nat): (r: string)
    ensures r != [] && forall c | c in r :: '0' <= c <= '9'
    ensures |r| >= 2 <==> n >= 10
  {
    if n < 10 then [Digit(n)] else Decimal(n / 10) + [Digit(n % 10)]
  }

  lemma {:induction false} DecimalInjective(m: nat, n: nat)
    requires Decimal(m) == Decimal(n)
    ensures m == n
  {
    var a, b := Decimal(m), Decimal(n);
    assert a[|a| - 1] == Digit(m % 10) && b[|b| - 1] == Digit(n % 10);
    if m >= 10 {
      assert a[..|a| - 1] == Decimal(m / 10);
      assert b[..|b| - 1] == Decimal(n / 10);
      DecimalInjective(m / 10, n / 10);
    }
  }
}
