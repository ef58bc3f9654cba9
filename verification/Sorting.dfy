/** Collecting the keys of a map in whatever order they come and sorting them: the one result. */
module Sorting {
  import opened Text

  function Insert(r: seq<string>, x: string): seq<string> {
    if r == [] then [x]
    else if Less(x, r[0]) then [x] + r
    else [r[0]] + Insert(r[1..], x)
  }

  lemma {:induction false} InsertKeepsOrder(r: seq<string>, x: string)
    requires StrictlySorted(r) && x !in r
    ensures StrictlySorted(Insert(r, x))
    ensures forall y :: y in Insert(r, x) <==> y in r || y == x
  {
    hide Less;
    if r != [] {
      LessTotal(x, r[0]);
      if Less(x, r[0]) {
        forall j | 0 <= j < |r| ensures Less(x, r[j]) {
          if j > 0 { LessTransitive(x, r[0], r[j]); }
        }
        assert forall y :: y in [x] + r <==> y in r || y == x;
      } else {
        var rest := Insert(r[1..], x);
        InsertKeepsOrder(r[1..], x);
        forall j | 0 <= j < |rest| ensures Less(r[0], rest[j]) {
          assert rest[j] in rest;
        }
        assert forall y :: y in [r[0]] + rest <==> y == r[0] || y in rest;
        assert forall y :: y in r <==> y == r[0] || y in r[1..];
      }
    }
  }

  /** sort.Strings over the keys of a map; the order in which the keys come makes no difference. */
  method SortStrings(s: set<string>) returns (r: seq<string>)
    ensures r == Sorted(s)
  {
    hide Sorted, Insert;
    var todo := s;
    r := [];
    while todo != {}
      invariant todo <= s
      invariant StrictlySorted(r) && forall y :: y in r <==> y in s - todo
      decreases todo
    {
      var x :| x in todo;
      InsertKeepsOrder(r, x);
      r, todo := Insert(r, x), todo - {x};
    }
    SortedUnique(r, s);
  }
}
