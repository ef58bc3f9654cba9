/** Paged reading of a file: renderReadWindow of internal/askcli/author_runtime.go. */
module ReadWindow {
  /** strings.Split(content, "\n") */
  function Lines(content: string): (r: seq<string>)
    ensures r != []
  {
    if content == "" then [""]
    else
      var rest := Lines(content[1..]);
      if content[0] == '\n' then [""] + rest else [[content[0]] + rest[0]] + rest[1..]
  }

  /** strings.Join(lines, "\n") */
  function Unlines(lines: seq<string>): string {
    if |lines| == 0 then "" else if |lines| == 1 then lines[0] else lines[0] + "\n" + Unlines(lines[1..])
  }

  /** A window: the shown lines, each with its number, and the reported position. */
  datatype Window = Window(shown: seq<(nat, string)>, startLine: nat, endLine: nat, total: nat, truncated: bool)

  /** Offsets and limits come from the caller and may be any integers. */
  function ReadWindow(content: string, offset: int, limit: int): Window {
    var lines := Lines(content);
    if lines == [""] then Window([], 0, 0, 0, false)
    else
      var start := if offset > 0 then (if offset - 1 > |lines| then |lines| else offset - 1) else 0;
      var end := if limit > 0 && start + limit < |lines| then start + limit else |lines|;
      Window(Numbered(lines[start..end], start), start + 1, end, |lines|, end < |lines|)
  }

  function Numbered(lines: seq<string>, before: nat): (r: seq<(nat, string)>)
    ensures |r| == |lines| && forall i | 0 <= i < |lines| :: r[i] == (before + i + 1, lines[i])
  {
    seq(|lines|, i requires 0 <= i < |lines| => (before + i + 1, lines[i]))
  }

  /** Splitting into lines loses nothing. */
  lemma {:induction false} LinesRoundTrip(content: string)
    ensures Unlines(Lines(content)) == content
  {
    if content != "" {
      var rest := Lines(content[1..]);
      LinesRoundTrip(content[1..]);
      if content[0] == '\n' {
        assert ([""] + rest)[1..] == rest;
        assert content == "\n" + content[1..];
      } else {
        var l := [[content[0]] + rest[0]] + rest[1..];
        assert l[1..] == rest[1..];
        assert content == [content[0]] + content[1..];
      }
    }
  }

  lemma OneEmptyLine(content: string)
    ensures Lines(content) == [""] <==> content == ""
  {
    if Lines(content) == [""] { LinesRoundTrip(content); }
  }

  /** "Not truncated, from line 1 on" means every line of a nonempty file was shown, in order, so the
      snapshot the session then records as a full read is the content that was shown. */
  lemma FullReadShowsEverything(content: string, offset: int, limit: int)
    ensures var w := ReadWindow(content, offset, limit);
            !w.truncated && w.startLine == 1 <==>
              content != "" && w.shown == Numbered(Lines(content), 0)
  {
    OneEmptyLine(content);
    var w, lines := ReadWindow(content, offset, limit), Lines(content);
    if content != "" {
      assert lines[0..|lines|] == lines;
    }
  }

  /** What is shown is lines startLine to endLine of the file; only a file without text, or an offset
      past its end, shows nothing. */
  lemma WindowShowsItsRange(content: string, offset: int, limit: int)
    requires content != ""
    ensures var w, lines := ReadWindow(content, offset, limit), Lines(content);
            1 <= w.startLine <= w.endLine + 1 <= w.total + 1 && w.total == |lines| &&
            w.shown == Numbered(lines[w.startLine - 1..w.endLine], w.startLine - 1) &&
            (w.truncated <==> w.endLine < w.total) &&
            (w.shown == [] <==> offset > |lines|)
  {
    OneEmptyLine(content);
  }

  /** Reading on from the line after the last one shown, until a window is not truncated. */
  function ReadPages(content: string, offset: nat, limit: nat): seq<(nat, string)>
    requires limit > 0 && 1 <= offset <= |Lines(content)|
    decreases |Lines(content)| - offset
  {
    var w := ReadWindow(content, offset, limit);
    if w.truncated then w.shown + ReadPages(content, w.endLine + 1, limit) else w.shown
  }

  /** A page starts where it was asked to, and shows the lines up to its end. */
  lemma PageFacts(content: string, offset: nat, limit: nat)
    requires content != "" && limit > 0 && 1 <= offset <= |Lines(content)|
    ensures var w, lines := ReadWindow(content, offset, limit), Lines(content);
            offset <= w.endLine <= |lines| && (w.truncated <==> w.endLine < |lines|)
            && w.shown == Numbered(lines[offset - 1..w.endLine], offset - 1)
  {
    hide Lines;
    OneEmptyLine(content);
  }

  /** Paging through a nonempty file with a positive limit ends, and shows each of its lines exactly
      once, in order. */
  lemma {:induction false} PagesShowRest(content: string, offset: nat, limit: nat)
    requires content != "" && limit > 0 && 1 <= offset <= |Lines(content)|
    ensures ReadPages(content, offset, limit) == Numbered(Lines(content)[offset - 1..], offset - 1)
    decreases |Lines(content)| - offset
  {
    hide ReadWindow, Lines, Numbered;
    var w, lines := ReadWindow(content, offset, limit), Lines(content);
    PageFacts(content, offset, limit);
    if w.truncated {
      PagesShowRest(content, w.endLine + 1, limit);
      NumberedAppend(lines, offset - 1, w.endLine);
    } else {
      assert lines[offset - 1..w.endLine] == lines[offset - 1..];
    }
  }

  lemma NumberedAppend(lines: seq<string>, from: nat, mid: nat)
    requires from <= mid <= |lines|
    ensures Numbered(lines[from..mid], from) + Numbered(lines[mid..], mid) == Numbered(lines[from..], from)
  {
  }

  lemma PagingReadsTheFile(content: string, limit: nat)
    requires content != "" && limit > 0
    ensures ReadPages(content, 1, limit) == Numbered(Lines(content), 0)
    ensures Unlines(Lines(content)) == content
  {
    PagesShowRest(content, 1, limit);
    assert Lines(content)[0..] == Lines(content);
    LinesRoundTrip(content);
  }

  /** A window starts at the line asked for, or behind the last one if there is none of that number, and holds as many
      lines as asked for, or all that are left. */
  lemma WindowIsAsked(content: string, offset: int, limit: int)
    requires content != ""
    ensures var w, n := ReadWindow(content, offset, limit), |Lines(content)|;
            w.startLine == (if offset <= 1 then 1 else if offset <= n then offset else n + 1) &&
            var left := n - (w.startLine - 1);
            |w.shown| == if limit <= 0 || limit > left then left else limit
  {
    hide Lines;
    OneEmptyLine(content);
  }

  /** The whole file is shown exactly when it has text and the window is at least as large, from the start. */
  lemma WholeIff(content: string, offset: int, limit: int)
    ensures var w := ReadWindow(content, offset, limit);
            !w.truncated && w.startLine == 1 <==>
              content != "" && offset <= 1 && (limit <= 0 || limit >= |Lines(content)|)
  {
    hide Lines;
    OneEmptyLine(content);
  }
}
