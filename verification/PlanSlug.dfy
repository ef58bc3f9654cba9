/** File-name slugs of plans: planSlug of internal/askcli/files.go. */
module PlanSlug {
  import opened Text

  const MAX_LENGTH := 48

  predicate IsAlnum(c: char) {
    'a' <= c <= 'z' || '0' <= c <= '9'
  }

  predicate IsDash(c: char) { c == '-' }

  /** At most 48 characters over [a-z0-9-], not empty, no leading, trailing or doubled dash. */
  predicate WellFormed(s: string) {
    0 < |s| <= MAX_LENGTH && Dashing(s) && s[|s| - 1] != '-'
  }

  /** Letters, digits and dashes; no leading and no doubled dash. */
  predicate Dashing(s: string) {
    && (forall i | 0 <= i < |s| :: IsAlnum(s[i]) || s[i] == '-')
    && (forall i | 1 <= i < |s| :: s[i] == '-' ==> s[i - 1] != '-')
    && (s != "" ==> s[0] != '-')
  }

  /** The letters and digits of a text, in order. */
  function Alnums(s: string): string {
    if s == "" then "" else Alnums(s[..|s| - 1]) + (if IsAlnum(s[|s| - 1]) then [s[|s| - 1]] else "")
  }

  /** Every run of other characters becomes one dash, except at the start. */
  function Dashed(s: string): string {
    if s == "" then ""
    else
      var out, c := Dashed(s[..|s| - 1]), s[|s| - 1];
      if IsAlnum(c) then out + [c]
      else if out != "" && out[|out| - 1] != '-' then out + "-"
      else out
  }

  function Shorten(s: string): string {
    var slug := Trim(s, IsDash);
    var cut := if |slug| > MAX_LENGTH then Trim(slug[..MAX_LENGTH], IsDash) else slug;
    if cut == "" then "plan" else cut
  }

  function Slug(value: string): string {
    Shorten(Dashed(ToLower(TrimSpace(value))))
  }

  method PlanSlug(value: string) returns (slug: string)
    ensures slug == Slug(value)
  {
    hide Trim, ToLower, TrimSpace;
    EmptyTrims();
    var lower := ToLower(TrimSpace(value));
    if lower == "" { return "plan"; }
    var out, lastDash := "", false;
    for i := 0 to |lower|
      invariant out == Dashed(lower[..i])
      invariant lastDash <==> out != "" && out[|out| - 1] == '-'
    {
      var r := lower[i];
      assert lower[..i + 1][..i] == lower[..i];
      if 'a' <= r <= 'z' {
        out, lastDash := out + [r], false;
      } else if '0' <= r <= '9' {
        out, lastDash := out + [r], false;
      } else if !lastDash && |out| > 0 {
        out, lastDash := out + "-", true;
      }
    }
    assert lower[..|lower|] == lower;
    slug := Trim(out, IsDash);
    if slug == "" { return "plan"; }
    if |slug| > MAX_LENGTH { slug := Trim(slug[..MAX_LENGTH], IsDash); }
    if slug == "" { return "plan"; }
  }

  lemma EmptyTrims()
    ensures Trim("", IsDash) == ""
  {
  }

  lemma {:induction false} DashedIsDashing(s: string)
    ensures Dashing(Dashed(s)) && Alnums(Dashed(s)) == Alnums(s)
  {
    if s != "" {
      var out := Dashed(s[..|s| - 1]);
      DashedIsDashing(s[..|s| - 1]);
      var r := Dashed(s);
      if r != out {
        assert r[..|r| - 1] == out;
      }
    }
  }

  lemma {:induction false} AlnumsPrefix(s: string, n: nat)
    requires n <= |s|
    ensures Alnums(s[..n]) <= Alnums(s)
  {
    if n == |s| {
      assert s[..n] == s;
    } else {
      AlnumsPrefix(s[..|s| - 1], n);
      assert s[..|s| - 1][..n] == s[..n];
    }
  }

  /** Trimming dashes off a text that starts with none cuts at most one dash at the end. */
  lemma TrimDashing(s: string)
    requires Dashing(s)
    ensures var r := Trim(s, IsDash);
            r <= s && Dashing(r) && Alnums(r) == Alnums(s) && (r != "" ==> r[|r| - 1] != '-') && (s != "" ==> r != "")
  {
    if s != "" && s[|s| - 1] == '-' {
      var t := s[..|s| - 1];
      assert Dashing(t) && t != "" && t[|t| - 1] != '-';
      assert TrimRight(t, IsDash) == t;
    }
  }

  /** Whatever the input, the slug is well formed. */
  lemma SlugIsWellFormed(value: string)
    ensures WellFormed(Slug(value)) && |Slug(value)| <= 48
  {
    hide Dashed, Trim, ToLower, TrimSpace;
    var s := Dashed(ToLower(TrimSpace(value)));
    DashedIsDashing(ToLower(TrimSpace(value)));
    TrimDashing(s);
    var slug := Trim(s, IsDash);
    if |slug| > MAX_LENGTH {
      TrimDashing(slug[..MAX_LENGTH]);
    }
    assert Dashing("plan");
  }

  /** The slug keeps the letters and digits of the lower-cased text in order, from the first on; all of
      them if they fit, and "plan" stands for a text without any. */
  lemma SlugKeepsAlnums(value: string)
    ensures var text := Alnums(ToLower(TrimSpace(value)));
            if text == "" then Slug(value) == "plan"
            else Alnums(Slug(value)) <= text &&
                 (|Trim(Dashed(ToLower(TrimSpace(value))), IsDash)| <= MAX_LENGTH ==> Alnums(Slug(value)) == text)
  {
    hide Dashed, Trim, ToLower, TrimSpace, Alnums;
    var lower := ToLower(TrimSpace(value));
    var s := Dashed(lower);
    DashedIsDashing(lower);
    TrimDashing(s);
    var slug := Trim(s, IsDash);
    if slug != "" {
      HasAlnum(slug);
      if |slug| > MAX_LENGTH {
        TrimDashing(slug[..MAX_LENGTH]);
        AlnumsPrefix(slug, MAX_LENGTH);
      }
    } else {
      EmptyHasNone();
    }
  }

  lemma HasAlnum(s: string)
    requires Dashing(s) && s != ""
    ensures Alnums(s) != ""
  {
    AlnumsPrefix(s, 1);
    assert s[..1] == [s[0]];
    assert Alnums([s[0]]) == Alnums([s[0]][..0]) + [s[0]];
  }

  lemma EmptyHasNone()
    ensures Alnums("") == ""
  {
  }

  lemma {:induction false} DashingIsDashed(s: string)
    requires Dashing(s)
    ensures Dashed(s) == s
  {
    if s != "" {
      DashingIsDashed(s[..|s| - 1]);
    }
  }

  lemma AlnumIsPlain(c: char)
    requires IsAlnum(c) || c == '-'
    ensures LowerRune(c) == c && !IsSpace(c)
  {
  }

  /** Well-formed slugs are the fixed points. */
  lemma WellFormedIsFixed(s: string)
    requires WellFormed(s)
    ensures Slug(s) == s
  {
    hide IsSpace, Trim, Dashed, ToLower, LowerRune;
    AlnumIsPlain(s[0]);
    AlnumIsPlain(s[|s| - 1]);
    TrimFixed(s, IsSpace);
    forall i | 0 <= i < |s| ensures LowerRune(s[i]) == s[i] { AlnumIsPlain(s[i]); }
    assert ToLower(s) == s;
    DashingIsDashed(s);
    TrimFixed(s, IsDash);
  }

  lemma SlugIdempotent(value: string)
    ensures Slug(Slug(value)) == Slug(value)
  {
    hide Slug;
    SlugIsWellFormed(value);
    WellFormedIsFixed(Slug(value));
  }

  // ---------------------------------------------------------------------------------------------
  // Words

  predicate IsWord(s: string) {
    s != "" && forall c | c in s :: IsAlnum(c)
  }

  predicate IsGap(s: string) {
    forall c | c in s :: !IsAlnum(c)
  }

  /** Words with a gap between each two. */
  function WithGaps(words: seq<string>, gaps: seq<string>): string
    requires |words| == |gaps| + 1
  {
    if gaps == [] then words[0]
    else WithGaps(words[..|words| - 1], gaps[..|gaps| - 1]) + gaps[|gaps| - 1] + words[|gaps|]
  }

  /** Words with a dash between each two. */
  function JoinDash(words: seq<string>): string {
    if words == [] then "" else if |words| == 1 then words[0]
    else JoinDash(words[..|words| - 1]) + "-" + words[|words| - 1]
  }

  lemma {:induction false} DashedWord(before: string, word: string)
    requires forall c | c in word :: IsAlnum(c)
    ensures Dashed(before + word) == Dashed(before) + word
  {
    if word == "" {
      assert before + word == before;
    } else {
      var n := |word| - 1;
      assert (before + word)[..|before| + n] == before + word[..n];
      DashedWord(before, word[..n]);
      assert Dashed(before) + word[..n] + [word[n]] == Dashed(before) + word;
    }
  }

  lemma {:induction false} DashedGap(before: string, gap: string)
    requires IsGap(gap)
    ensures var out := Dashed(before);
            Dashed(before + gap) == if gap != "" && out != "" && out[|out| - 1] != '-' then out + "-" else out
  {
    if gap == "" {
      assert before + gap == before;
    } else {
      var n := |gap| - 1;
      assert (before + gap)[..|before| + n] == before + gap[..n];
      DashedGap(before, gap[..n]);
    }
  }

  lemma {:induction false} DashedText(lead: string, words: seq<string>, gaps: seq<string>)
    requires |words| == |gaps| + 1 && IsGap(lead)
    requires (forall w | w in words :: IsWord(w)) && forall g | g in gaps :: g != "" && IsGap(g)
    ensures var r := JoinDash(words); Dashed(lead + WithGaps(words, gaps)) == r && r != "" && IsAlnum(r[|r| - 1])
  {
    hide Dashed, IsGap, IsWord;
    if gaps == [] {
      var word := words[0];
      assert word in words;
      OneWord(word);
      DashedOfNothing();
      assert "" + lead == lead;
      DashedGap("", lead);
      DashedWord(lead, word);
    } else {
      var n := |gaps| - 1;
      var init, front, gap, word := words[..n + 1], lead + WithGaps(words[..n + 1], gaps[..n]), gaps[n], words[n + 1];
      assert word in words && gap in gaps;
      assert (forall w | w in init :: w in words) && forall g | g in gaps[..n] :: g in gaps;
      OneWord(word);
      DashedText(lead, init, gaps[..n]);
      DashedGap(front, gap);
      DashedWord(front + gap, word);
      assert words[..|words| - 1] == init;
      assert lead + WithGaps(words, gaps) == front + gap + word;
    }
  }

  lemma OneWord(word: string)
    requires IsWord(word)
    ensures word != "" && IsAlnum(word[|word| - 1]) && forall c | c in word :: IsAlnum(c)
  {
    assert word[|word| - 1] in word;
  }

  lemma DashedOfNothing()
    ensures Dashed("") == ""
  {
  }

  /** A slug that is not cut is the lower-case words of the text with one dash between each two, whatever came
      between, before and after them. */
  lemma SlugOfWords(value: string, lead: string, words: seq<string>, gaps: seq<string>, trail: string)
    requires |words| == |gaps| + 1 && IsGap(lead) && IsGap(trail)
    requires (forall w | w in words :: IsWord(w)) && forall g | g in gaps :: g != "" && IsGap(g)
    requires ToLower(TrimSpace(value)) == lead + WithGaps(words, gaps) + trail
    requires |JoinDash(words)| <= 48
    ensures Slug(value) == JoinDash(words)
  {
    hide Dashed, Trim, ToLower, TrimSpace, JoinDash;
    var lower, r := ToLower(TrimSpace(value)), JoinDash(words);
    DashedText(lead, words, gaps);
    DashedGap(lead + WithGaps(words, gaps), trail);
    DashedIsDashing(lower);
    TrimDashing(Dashed(lower));
    if Dashed(lower) == r {
      TrimFixed(r, IsDash);
    } else {
      TrimOneDash(r);
    }
  }

  lemma TrimOneDash(s: string)
    requires s != "" && s[0] != '-' && s[|s| - 1] != '-'
    ensures Trim(s + "-", IsDash) == s
  {
    var t := s + "-";
    assert t[0] == s[0] && t[|t| - 1] == '-' && t[..|t| - 1] == s;
    assert TrimLeft(t, IsDash) == t && TrimRight(s, IsDash) == s;
  }
}
