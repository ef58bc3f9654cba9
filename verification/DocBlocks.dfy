/** Generated blocks kept between markers in documentation files
    (internal/askcontext/docblocks.go, cmd/schema-gen/doc_blocks.go). */
module DocBlocks {
  import opened Text

  const BEGIN_CLI := "<!-- BEGIN GENERATED:ASK_CLI_CONTEXT -->"
  const END_CLI := "<!-- END GENERATED:ASK_CLI_CONTEXT -->"
  const BEGIN_AUTHORING := "<!-- BEGIN GENERATED:ASK_AUTHORING_CONTEXT -->"
  const END_AUTHORING := "<!-- END GENERATED:ASK_AUTHORING_CONTEXT -->"

  /** The region is present: both markers occur and the first end is not before the first begin. */
  predicate HasRegion(content: string, begin: string, end: string) {
    var start, finish := Index(content, begin), Index(content, end);
    start != -1 && finish != -1 && start <= finish
  }

  function Managed(begin: string, end: string, block: string): string {
    begin + "\n" + TrimNewlines(block) + "\n" + end
  }

  /** replaceManagedBlock of internal/askcontext: content without a region is returned as it is. */
  function ReplaceManagedBlock(content: string, begin: string, end: string, block: string): string {
    if !HasRegion(content, begin, end) then content
    else
      content[..Index(content, begin)] + Managed(begin, end, block) + content[Index(content, end) + |end|..]
  }

  /** replaceManagedBlock of cmd/schema-gen: content without a region is an error. */
  function ReplaceManagedBlockStrict(content: string, begin: string, end: string, block: string): Option<string> {
    var start, finish := Index(content, begin), Index(content, end);
    if start == -1 || finish == -1 || finish < start then None
    else
      Some(content[..start] + (begin + "\n" + TrimNewlines(block) + "\n" + end) + content[finish + |end|..])
  }

  /** What a reader of the file finds between the first begin line and the first end line. */
  function ReadBack(content: string, begin: string, end: string): Option<string> {
    if !HasRegion(content, begin, end) then None
    else
      var from, to := Index(content, begin) + |begin| + 1, Index(content, end) - 1;
      if from <= to then Some(content[from..to]) else None
  }

  /** Markers are nonempty single-line strings, and begin does not hide an end. */
  ghost predicate GoodMarkers(begin: string, end: string) {
    begin != "" && end != "" && '\n' !in begin && '\n' !in end && !Contains(begin, end)
  }

  /** An occurrence of a single-line string cannot run across a line break. */
  lemma NoStraddle(left: string, right: string, sub: string, i: int)
    requires '\n' !in sub && sub != ""
    ensures OccursAt(left + "\n" + right, sub, i)
       <==> OccursAt(left, sub, i) || OccursAt(right, sub, i - |left| - 1)
  {
    var s := left + "\n" + right;
    if OccursAt(s, sub, i) {
      assert forall j | i <= j < i + |sub| :: s[j] == sub[j - i];
      assert s[|left|] == '\n';
      if i + |sub| <= |left| {
        assert s[i..i + |sub|] == left[i..i + |sub|];
      } else if i > |left| {
        assert s[i..i + |sub|] == right[i - |left| - 1..i - |left| - 1 + |sub|];
      } else {
        assert false;
      }
    }
    if OccursAt(left, sub, i) {
      assert s[i..i + |sub|] == left[i..i + |sub|];
    }
    if OccursAt(right, sub, i - |left| - 1) {
      assert s[i..i + |sub|] == right[i - |left| - 1..i - |left| - 1 + |sub|];
    }
  }

  /** Occurrences in a prefix and in a suffix are occurrences in the whole. */
  lemma OccursInParts(s: string, cut: int, sub: string, i: int)
    requires 0 <= cut <= |s|
    ensures OccursAt(s[..cut], sub, i) <==> OccursAt(s, sub, i) && i + |sub| <= cut
    ensures OccursAt(s[cut..], sub, i) <==> OccursAt(s, sub, i + cut) && i >= 0
  {
    if 0 <= i && i + |sub| <= cut {
      SliceOfSlice(s, 0, cut, i, i + |sub|);
    }
    if 0 <= i && i + cut + |sub| <= |s| {
      SliceOfSlice(s, cut, |s|, i, i + |sub|);
    }
  }

  /** The text before `left`, the body on lines of its own, and the text from `right` on. */
  function Spliced(s: string, left: nat, right: nat, body: string): string
    requires left <= |s| && right <= |s|
  {
    s[..left] + "\n" + (body + "\n" + s[right..])
  }

  /** A single-line string occurs in a splice before the body, in it, or after it. */
  lemma SplicedOccurrences(s: string, left: nat, right: nat, body: string, m: string, i: int)
    requires left <= |s| && right <= |s|
    requires m != "" && '\n' !in m
    ensures var shift := left + |body| + 2 - right;
            OccursAt(Spliced(s, left, right, body), m, i) <==>
              (OccursAt(s, m, i) && i + |m| <= left) || OccursAt(body, m, i - left - 1)
              || (OccursAt(s, m, i - shift) && i - shift >= right)
  {
    NoStraddle(s[..left], body + "\n" + s[right..], m, i);
    NoStraddle(body, s[right..], m, i - left - 1);
    OccursInParts(s, left, m, i);
    OccursInParts(s, right, m, i - left - 1 - |body| - 1);
  }

  /** The first occurrence of m in a splice whose body is free of m, when the original's first
      occurrence lies before the left cut or from the right cut on and past the left one. */
  lemma SplicedIndex(s: string, left: nat, right: nat, body: string, m: string)
    requires left <= |s| && right <= |s|
    requires m != "" && '\n' !in m && !Contains(body, m)
    requires var at := Index(s, m); at == -1 || at + |m| <= left || (at >= right && at + |m| > left)
    ensures var at := Index(s, m);
            Index(Spliced(s, left, right, body), m) ==
              (if at == -1 || at + |m| <= left then at else at + left + |body| + 2 - right)
  {
    var updated := Spliced(s, left, right, body);
    var at, shift := Index(s, m), left + |body| + 2 - right;
    IndexFirst(s, m);
    IndexFirst(body, m);
    var moved := if at == -1 || at + |m| <= left then at else at + shift;
    forall i | moved == -1 || i < moved ensures !OccursAt(updated, m, i) {
      SplicedOccurrences(s, left, right, body, m, i);
      assert !OccursAt(body, m, i - left - 1);
    }
    SplicedOccurrences(s, left, right, body, m, moved);
    IndexFirst(updated, m);
    assert FirstAt(updated, m, moved);
  }

  lemma Regroup(p: string, b: string, k: string, e: string, q: string)
    ensures p + (b + "\n" + k + "\n" + e) + q == (p + b) + "\n" + (k + "\n" + (e + q))
  {
  }

  /** A synced text is such a splice at the end of the begin marker and the start of the end marker. */
  lemma SyncIsSplice(content: string, begin: string, end: string, block: string)
    requires HasRegion(content, begin, end)
    ensures ReplaceManagedBlock(content, begin, end, block)
         == Spliced(content, Index(content, begin) + |begin|, Index(content, end), TrimNewlines(block))
  {
    hide TrimNewlines;
    var left, right := Index(content, begin), Index(content, end);
    var p, q := content[..left], content[right + |end|..];
    Regroup(p, begin, TrimNewlines(block), end, q);
    IndexFirst(content, begin);
    IndexFirst(content, end);
    assert p + begin == content[..left + |begin|];
    assert end + q == content[right..];
  }

  /** The begin marker cannot swallow the end marker. */
  lemma EndReachesPastBegin(content: string, begin: string, end: string)
    requires GoodMarkers(begin, end) && HasRegion(content, begin, end)
    ensures Index(content, begin) + |begin| < Index(content, end) + |end|
  {
    var left, right := Index(content, begin), Index(content, end);
    IndexFirst(content, begin);
    IndexFirst(content, end);
    IndexFirst(begin, end);
    var k := right - left;
    assert !OccursAt(begin, end, k);
    if k + |end| <= |begin| {
      SliceOfSlice(content, left, left + |begin|, k, k + |end|);
    }
  }

  /** After a sync the begin marker is still first found where it was, whatever the block. */
  lemma BeginAfterSync(content: string, begin: string, end: string, block: string)
    requires GoodMarkers(begin, end) && HasRegion(content, begin, end)
    ensures Index(ReplaceManagedBlock(content, begin, end, block), begin) == Index(content, begin)
  {
    var left, right, body := Index(content, begin) + |begin|, Index(content, end), TrimNewlines(block);
    SyncIsSplice(content, begin, end, block);
    var updated := Spliced(content, left, right, body);
    IndexFirst(content, begin);
    forall i | i < Index(content, begin) ensures !OccursAt(updated, begin, i) {
      SplicedOccurrences(content, left, right, body, begin, i);
      assert !OccursAt(body, begin, i - left - 1);
    }
    SplicedOccurrences(content, left, right, body, begin, Index(content, begin));
    IndexFirst(updated, begin);
    assert FirstAt(updated, begin, Index(content, begin));
  }

  /** After a sync the end marker is first found right after the block if the block is free of it,
      and inside the block otherwise. */
  lemma EndAfterSync(content: string, begin: string, end: string, block: string)
    requires GoodMarkers(begin, end) && HasRegion(content, begin, end)
    ensures var at := Index(ReplaceManagedBlock(content, begin, end, block), end);
            var bodyAt := Index(content, begin) + |begin| + 1;
            if Contains(TrimNewlines(block), end) then bodyAt <= at < bodyAt + |TrimNewlines(block)|
            else at == bodyAt + |TrimNewlines(block)| + 1
  {
    var left, right, body := Index(content, begin) + |begin|, Index(content, end), TrimNewlines(block);
    SyncIsSplice(content, begin, end, block);
    EndReachesPastBegin(content, begin, end);
    if Contains(body, end) {
      var updated := Spliced(content, left, right, body);
      IndexFirst(content, end);
      IndexFirst(updated, end);
      IndexFirst(body, end);
      SplicedOccurrences(content, left, right, body, end, left + 1 + Index(body, end));
      SplicedOccurrences(content, left, right, body, end, Index(updated, end));
    } else {
      SplicedIndex(content, left, right, body, end);
    }
  }

  /** The last sync wins, so that an earlier sync of the region leaves no trace, exactly when the earlier
      block did not itself contain the end marker. */
  lemma LastSyncWinsIff(content: string, begin: string, end: string, first: string, second: string)
    requires GoodMarkers(begin, end)
    ensures ReplaceManagedBlock(ReplaceManagedBlock(content, begin, end, first), begin, end, second)
         == ReplaceManagedBlock(content, begin, end, second)
       <==> !(HasRegion(content, begin, end) && Contains(TrimNewlines(first), end))
  {
    hide TrimNewlines, Contains;
    if HasRegion(content, begin, end) {
      BeginAfterSync(content, begin, end, first);
      EndAfterSync(content, begin, end, first);
      var before, after := content[..Index(content, begin)], content[Index(content, end) + |end|..];
      var updated := before + Managed(begin, end, first) + after;
      assert updated[..|before|] == before;
      if Contains(TrimNewlines(first), end) {
        assert Index(updated, end) + |end| < |updated| - |after|;
      } else {
        assert updated[Index(updated, end) + |end|..] == after;
      }
    }
  }

  /** Syncing twice equals syncing once exactly when the block does not itself contain the end marker. */
  lemma SyncIdempotentIff(content: string, begin: string, end: string, block: string)
    requires GoodMarkers(begin, end)
    ensures var once := ReplaceManagedBlock(content, begin, end, block);
            ReplaceManagedBlock(once, begin, end, block) == once
            <==> !(HasRegion(content, begin, end) && Contains(TrimNewlines(block), end))
  {
    hide TrimNewlines;
    LastSyncWinsIff(content, begin, end, block, block);
  }

  /** Reading back gives the block without its trailing line breaks exactly when the block does
      not itself contain the end marker. */
  lemma ReadBackIff(content: string, begin: string, end: string, block: string)
    requires GoodMarkers(begin, end) && HasRegion(content, begin, end)
    ensures ReadBack(ReplaceManagedBlock(content, begin, end, block), begin, end) == Some(TrimNewlines(block))
       <==> !Contains(TrimNewlines(block), end)
  {
    hide TrimNewlines, Contains, Index;
    BeginAfterSync(content, begin, end, block);
    EndAfterSync(content, begin, end, block);
    SyncIsSplice(content, begin, end, block);
    var left := Index(content, begin) + |begin|;
    var body := TrimNewlines(block);
    MiddleSlice(content[..left] + "\n", body, "\n" + content[Index(content, end)..]);
    assert Spliced(content, left, Index(content, end), body)
        == content[..left] + "\n" + body + ("\n" + content[Index(content, end)..]);
  }

  /** Everything outside the region survives, and only the region's text changes. */
  lemma OutsideUntouched(content: string, begin: string, end: string, block: string)
    requires HasRegion(content, begin, end)
    ensures var updated := ReplaceManagedBlock(content, begin, end, block);
            var start, stop := Index(content, begin), Index(content, end) + |end|;
            updated[..start] == content[..start] &&
            |updated| >= |content| - stop &&
            updated[|updated| - (|content| - stop)..] == content[stop..]
  {
    var before, after := content[..Index(content, begin)], content[Index(content, end) + |end|..];
    var updated := before + Managed(begin, end, block) + after;
    assert updated[..|before|] == before;
    assert updated[|updated| - |after|..] == after;
  }

  /** The erroring version fails exactly where the total one does nothing for want of a region,
      and agrees with it everywhere else. */
  lemma StrictAgrees(content: string, begin: string, end: string, block: string)
    ensures var strict := ReplaceManagedBlockStrict(content, begin, end, block);
            strict == (if HasRegion(content, begin, end)
                       then Some(ReplaceManagedBlock(content, begin, end, block)) else None)
            && ReplaceManagedBlock(content, begin, end, block) == (if strict.Some? then strict.value else content)
  {
  }

  /** A marker missing from the content. */
  predicate Missing(content: string, begin: string, end: string) {
    !Contains(content, begin) || !Contains(content, end)
  }

  /** Both regions are present and one ends before the other starts. */
  predicate Disjoint(content: string, b1: string, e1: string, b2: string, e2: string) {
    && HasRegion(content, b1, e1) && HasRegion(content, b2, e2)
    && (Index(content, e1) + |e1| <= Index(content, b2) || Index(content, e2) + |e2| <= Index(content, b1))
  }

  ghost predicate FreeOf(block: string, b: string, e: string) {
    !Contains(TrimNewlines(block), b) && !Contains(TrimNewlines(block), e)
  }

  /** A marker that lies before (after) the synced region is first found where it was (shifted),
      and a marker that was missing stays missing. */
  lemma OtherIndex(content: string, begin: string, end: string, block: string, m: string)
    requires GoodMarkers(begin, end) && HasRegion(content, begin, end)
    requires m != "" && '\n' !in m && !Contains(TrimNewlines(block), m)
    requires var at := Index(content, m);
             at == -1 || at >= Index(content, end) + |end| || at + |m| <= Index(content, begin)
    ensures var updated := ReplaceManagedBlock(content, begin, end, block);
            var at := Index(content, m);
            Index(updated, m) == (if at == -1 || at + |m| <= Index(content, begin) then at
                                  else at + |updated| - |content|)
  {
    SyncIsSplice(content, begin, end, block);
    EndReachesPastBegin(content, begin, end);
    SplicedIndex(content, Index(content, begin) + |begin|, Index(content, end), TrimNewlines(block), m);
  }

  /** A region that misses a marker still misses it afterwards. */
  lemma StillMissing(content: string, b1: string, e1: string, block: string, b2: string, e2: string)
    requires GoodMarkers(b1, e1) && HasRegion(content, b1, e1)
    requires GoodMarkers(b2, e2) && FreeOf(block, b2, e2)
    requires Missing(content, b2, e2)
    ensures Missing(ReplaceManagedBlock(content, b1, e1, block), b2, e2)
  {
    OtherIndex(content, b1, e1, block, if Contains(content, b2) then e2 else b2);
  }

  /** A region clear of the synced one is still clear of it afterwards: it only moves as a whole. */
  lemma StillDisjoint(content: string, b1: string, e1: string, block: string, b2: string, e2: string)
    requires GoodMarkers(b1, e1) && GoodMarkers(b2, e2) && FreeOf(block, b2, e2) && FreeOf(block, b1, e1)
    requires Disjoint(content, b1, e1, b2, e2)
    ensures Disjoint(ReplaceManagedBlock(content, b1, e1, block), b1, e1, b2, e2)
  {
    EndReachesPastBegin(content, b2, e2);
    OtherIndex(content, b1, e1, block, b2);
    OtherIndex(content, b1, e1, block, e2);
    BeginAfterSync(content, b1, e1, block);
    EndAfterSync(content, b1, e1, block);
  }

  /** SyncManagedBlocks, for any two managed regions: the second is synced in the result of the first. */
  function SyncBoth(content: string, b1: string, e1: string, k1: string, b2: string, e2: string, k2: string): string {
    ReplaceManagedBlock(ReplaceManagedBlock(content, b1, e1, k1), b2, e2, k2)
  }

  /** A sync changes nothing exactly when the region already reads as the block would be written. */
  lemma SettledIff(content: string, begin: string, end: string, block: string)
    requires HasRegion(content, begin, end)
    ensures ReplaceManagedBlock(content, begin, end, block) == content
       <==> content[Index(content, begin)..Index(content, end) + |end|] == Managed(begin, end, block)
  {
    var from, to := Index(content, begin), Index(content, end) + |end|;
    var p, mid, q := content[..from], content[from..to], content[to..];
    var managed := Managed(begin, end, block);
    assert content == p + mid + q;
    if p + managed + q == content {
      assert |managed| == |mid|;
      assert (p + managed + q)[|p|..|p| + |managed|] == managed;
    }
  }

  /** A settled region stays settled when a region clear of it is synced. */
  lemma SettledStays(content: string, b1: string, e1: string, k1: string, b2: string, e2: string, k2: string)
    requires GoodMarkers(b1, e1) && GoodMarkers(b2, e2) && FreeOf(k2, b1, e1) && FreeOf(k2, b2, e2)
    requires Disjoint(content, b1, e1, b2, e2)
    requires ReplaceManagedBlock(content, b1, e1, k1) == content
    ensures var v := ReplaceManagedBlock(content, b2, e2, k2);
            ReplaceManagedBlock(v, b1, e1, k1) == v
  {
    var v := ReplaceManagedBlock(content, b2, e2, k2);
    EndReachesPastBegin(content, b1, e1);
    OtherIndex(content, b2, e2, k2, b1);
    OtherIndex(content, b2, e2, k2, e1);
    OutsideUntouched(content, b2, e2, k2);
    SettledMoves(content, b1, e1, k1, v, Index(content, b2), Index(content, e2) + |e2|);
  }

  /** A settled region that moved as a whole, in a text changed only elsewhere, is settled. */
  lemma SettledMoves(content: string, begin: string, end: string, block: string, v: string, start: nat, stop: nat)
    requires HasRegion(content, begin, end) && ReplaceManagedBlock(content, begin, end, block) == content
    requires start <= stop <= |content| && start <= |v| && |v| >= |content| - stop
    requires v[..start] == content[..start] && v[|v| - (|content| - stop)..] == content[stop..]
    requires var shift := if Index(content, end) + |end| <= start then 0 else |v| - |content|;
             (shift != 0 ==> Index(content, begin) >= stop) &&
             (Index(content, end) + |end| <= start || Index(content, begin) >= stop) &&
             Index(v, begin) == Index(content, begin) + shift && Index(v, end) == Index(content, end) + shift
    ensures ReplaceManagedBlock(v, begin, end, block) == v
  {
    SettledIff(content, begin, end, block);
    OutsideSlices(content, v, start, stop, Index(content, begin), Index(content, end) + |end|);
    SettledIff(v, begin, end, block);
  }

  /** Texts that agree before `start` and from `stop` on agree on every slice clear of the gap. */
  lemma OutsideSlices(s: string, v: string, start: nat, stop: nat, from: nat, to: nat)
    requires start <= |s| && start <= |v| && stop <= |s| && |v| >= |s| - stop
    requires v[..start] == s[..start] && v[|v| - (|s| - stop)..] == s[stop..]
    requires from <= to <= |s|
    ensures to <= start ==> v[from..to] == s[from..to]
    ensures from >= stop ==> v[from + |v| - |s|..to + |v| - |s|] == s[from..to]
  {
    if to <= start {
      SliceOfSlice(s, 0, start, from, to);
      SliceOfSlice(v, 0, start, from, to);
    }
    if from >= stop {
      SliceOfSlice(s, stop, |s|, from - stop, to - stop);
      SliceOfSlice(v, |v| - (|s| - stop), |v|, from - stop, to - stop);
    }
  }

  /** SyncManagedBlocks is idempotent when the regions are disjoint, or one of them misses a marker. */
  lemma SyncBothIdempotent(content: string, b1: string, e1: string, k1: string, b2: string, e2: string, k2: string)
    requires GoodMarkers(b1, e1) && GoodMarkers(b2, e2)
    requires FreeOf(k1, b1, e1) && FreeOf(k1, b2, e2) && FreeOf(k2, b1, e1) && FreeOf(k2, b2, e2)
    requires Disjoint(content, b1, e1, b2, e2) || Missing(content, b1, e1) || Missing(content, b2, e2)
    ensures var once := SyncBoth(content, b1, e1, k1, b2, e2, k2);
            SyncBoth(once, b1, e1, k1, b2, e2, k2) == once
  {
    var u := ReplaceManagedBlock(content, b1, e1, k1);
    var v := ReplaceManagedBlock(u, b2, e2, k2);
    SyncIdempotentIff(content, b1, e1, k1);
    SyncIdempotentIff(u, b2, e2, k2);
    if Disjoint(content, b1, e1, b2, e2) {
      StillDisjoint(content, b1, e1, k1, b2, e2);
      SettledStays(u, b1, e1, k1, b2, e2, k2);
    } else if Missing(content, b1, e1) {
      if HasRegion(u, b2, e2) {
        StillMissing(u, b2, e2, k2, b1, e1);
      }
    } else if HasRegion(content, b1, e1) {
      StillMissing(content, b1, e1, k1, b2, e2);
    }
    assert ReplaceManagedBlock(v, b1, e1, k1) == v;
  }

  /** The markers the repository uses satisfy every assumption made about markers above. */
  lemma RealMarkersAreGood()
    ensures GoodMarkers(BEGIN_CLI, END_CLI) && GoodMarkers(BEGIN_AUTHORING, END_AUTHORING)
  {
    EndDoesNotFit(BEGIN_CLI, END_CLI);
    EndDoesNotFit(BEGIN_AUTHORING, END_AUTHORING);
  }

  /** An end marker two characters shorter than begin would have to sit at one of three places. */
  lemma EndDoesNotFit(begin: string, end: string)
    requires |begin| == |end| + 2 && |end| > 6
    requires begin[5] != end[5] && end[0] !in [begin[1], begin[2]]
    ensures !Contains(begin, end)
  {
    forall i ensures !OccursAt(begin, end, i) {
      if 0 <= i <= 2 {
        assert begin[i..i + |end|][0] == begin[i] && begin[i..i + |end|][5] == begin[i + 5];
      }
    }
    IndexFirst(begin, end);
  }

  /** SyncManagedBlocks of the repository, for whatever text its two blocks hold. */
  function SyncManagedBlocks(content: string, cliBlock: string, authoringBlock: string): string {
    SyncBoth(content, BEGIN_CLI, END_CLI, cliBlock, BEGIN_AUTHORING, END_AUTHORING, authoringBlock)
  }

  lemma SyncManagedBlocksIdempotent(content: string, cliBlock: string, authoringBlock: string)
    requires FreeOf(cliBlock, BEGIN_CLI, END_CLI) && FreeOf(cliBlock, BEGIN_AUTHORING, END_AUTHORING)
    requires FreeOf(authoringBlock, BEGIN_CLI, END_CLI) && FreeOf(authoringBlock, BEGIN_AUTHORING, END_AUTHORING)
    requires Disjoint(content, BEGIN_CLI, END_CLI, BEGIN_AUTHORING, END_AUTHORING)
          || Missing(content, BEGIN_CLI, END_CLI) || Missing(content, BEGIN_AUTHORING, END_AUTHORING)
    ensures var once := SyncManagedBlocks(content, cliBlock, authoringBlock);
            SyncManagedBlocks(once, cliBlock, authoringBlock) == once
  {
    RealMarkersAreGood();
    SyncBothIdempotent(content, BEGIN_CLI, END_CLI, cliBlock, BEGIN_AUTHORING, END_AUTHORING, authoringBlock);
  }
}
