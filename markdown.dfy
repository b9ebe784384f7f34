/** The markdown subset rendered by renderResponse in
    components/AIResponse.tsx: lines split on newlines, blank lines as
    breaks, every other line split around non-greedy `**...**` tokens, and
    each part classified as bold, bullet or plain text. */
module Markdown {
  import opened Wrappers
  import opened Strings

  /** What JavaScript's `String.prototype.trim` removes: the WhiteSpace
      characters (tab, vertical tab, form feed, the space separators and the
      byte order mark) and the LineTerminator characters. */
  predicate IsWhitespace(c: char)
  {
    || c == '\t' || c == '\U{000B}' || c == '\U{000C}' || c == ' '
    || c == '\U{00A0}' || c == '\U{FEFF}' || c == '\U{1680}'
    || ('\U{2000}' <= c && c <= '\U{200A}')
    || c == '\U{202F}' || c == '\U{205F}' || c == '\U{3000}'
    || IsLineTerminator(c)
  }

  /** The characters a regular-expression `.` does not match. */
  predicate IsLineTerminator(c: char)
  {
    c == '\n' || c == '\r' || c == '\U{2028}' || c == '\U{2029}'
  }

  /** Whitespace removed from the front of `s`. */
  function TrimStart(s: string): (r: string)
    ensures |r| <= |s| && r == s[|s| - |r|..]
    ensures forall k :: 0 <= k < |s| - |r| ==> IsWhitespace(s[k])
    ensures r == [] || !IsWhitespace(r[0])
  {
    if s != [] && IsWhitespace(s[0]) then TrimStart(s[1..]) else s
  }

  /** Whitespace removed from the back of `s`. */
  function TrimEnd(s: string): (r: string)
    ensures |r| <= |s| && r == s[..|r|]
    ensures forall k :: |r| <= k < |s| ==> IsWhitespace(s[k])
    ensures r == [] || !IsWhitespace(r[|r| - 1])
  {
    if s != [] && IsWhitespace(s[|s| - 1]) then TrimEnd(s[..|s| - 1]) else s
  }

  /** `String.prototype.trim`: whitespace removed from both ends, so what is
      left is empty or starts and ends with a character that is not
      whitespace. */
  function Trim(s: string): (r: string)
    ensures |r| <= |s|
    ensures r == [] || (!IsWhitespace(r[0]) && !IsWhitespace(r[|r| - 1]))
  {
    var t := TrimStart(s);
    var r := TrimEnd(t);
    assert r == [] || r[0] == t[0];
    r
  }

  /** `line.trim() === ''` holds exactly for the lines made of whitespace
      only, the empty line included. */
  lemma TrimBlank(line: string)
    ensures Trim(line) == "" <==> forall k :: 0 <= k < |line| ==> IsWhitespace(line[k])
  {
    var t := TrimStart(line);
    if t != [] {
      assert !IsWhitespace(line[|line| - |t|]);
      assert TrimEnd(t) != [] by {
        assert !IsWhitespace(t[0]);
      }
    } else if Trim(line) == "" {
      assert forall k :: 0 <= k < |line| ==> IsWhitespace(line[k]);
    }
  }

  /** `.*` can cover `line[k..c]`: no line terminator in it. */
  predicate Dotted(line: string, k: nat, c: nat)
    requires k <= c <= |line|
  {
    forall j :: k <= j < c ==> !IsLineTerminator(line[j])
  }

  /** The lazy close of a `**.*?**` match whose body starts at `k`: the first
      `**` from `k` on, provided no line terminator comes before it. */
  function CloseFrom(line: string, k: nat): (r: Option<nat>)
    requires k <= |line|
    ensures r.Some? ==> k <= r.value && r.value + 1 < |line|
    ensures r.Some? ==> line[r.value] == '*' && line[r.value + 1] == '*'
    ensures r.Some? ==> Dotted(line, k, r.value)
    ensures r.Some? ==> forall j :: k <= j < r.value ==> !(line[j] == '*' && line[j + 1] == '*')
    ensures r.None? ==> forall c :: k <= c && c + 1 < |line| && line[c] == '*' && line[c + 1] == '*' ==> !Dotted(line, k, c)
    decreases |line| - k
  {
    if k + 1 >= |line| then None
    else if line[k] == '*' && line[k + 1] == '*' then Some(k)
    else if IsLineTerminator(line[k]) then None
    else CloseFrom(line, k + 1)
  }

  /** The end of the match of `\*\*.*?\*\*` starting at `q`, if there is one. */
  function MatchAt(line: string, q: nat): (r: Option<nat>)
    requires q <= |line|
    ensures r.Some? ==> q + 4 <= r.value <= |line| && IsBoldToken(line[q..r.value])
    ensures r.None? ==> forall e :: q < e <= |line| ==> !IsBoldToken(line[q..e])
  {
    if q + 1 < |line| && line[q] == '*' && line[q + 1] == '*' then
      var close := CloseFrom(line, q + 2);
      if close.None? then
        NoBoldFrom(line, q);
        None
      else
        var c := close.value;
        assert line[q..c + 2][2..c + 2 - q - 2] == line[q + 2..c];
        Some(c + 2)
    else
      NoBoldFrom(line, q);
      None
  }

  /** No token of the bold pattern starts at `q` when `**` does not start
      there, or when it does but no lazy close follows it. */
  lemma NoBoldFrom(line: string, q: nat)
    requires q <= |line|
    requires !(q + 1 < |line| && line[q] == '*' && line[q + 1] == '*') || CloseFrom(line, q + 2).None?
    ensures forall e :: q < e <= |line| ==> !IsBoldToken(line[q..e])
  {
    forall e | q < e <= |line|
      ensures !IsBoldToken(line[q..e])
    {
      var t := line[q..e];
      if |t| >= 4 {
        assert t[0] == line[q] && t[1] == line[q + 1];
        assert t[|t| - 2] == line[e - 2] && t[|t| - 1] == line[e - 1];
        assert (forall j :: 2 <= j < |t| - 2 ==> !IsLineTerminator(t[j])) ==> Dotted(line, q + 2, e - 2) by {
          forall j | q + 2 <= j < e - 2
            ensures line[j] == t[j - q]
          {
          }
        }
      }
    }
  }

  /** A token the bold pattern matches: `**`, a body with no line terminator
      and no `**` inside it, then `**`. */
  predicate IsBoldToken(t: string)
  {
    && |t| >= 4
    && t[0] == '*' && t[1] == '*' && t[|t| - 2] == '*' && t[|t| - 1] == '*'
    && (forall j :: 2 <= j < |t| - 2 ==> !IsLineTerminator(t[j]))
    && (forall j :: 2 <= j < |t| - 2 ==> !(t[j] == '*' && t[j + 1] == '*'))
  }

  /** `line.split(/(\*\*.*?\*\*)/g)` from the position `p` after the last
      match, searching from `q`: a match at `q` closes the text since `p` and
      is kept as a part of its own (the capture group), and the search goes
      on after it; the text after the last match is the final part. */
  function Parts(line: string, p: nat, q: nat): (parts: seq<string>)
    requires p <= q <= |line|
    ensures |parts| % 2 == 1
    decreases |line| - q
  {
    if q == |line| then [line[p..]]
    else
      var m := MatchAt(line, q);
      if m.None? then Parts(line, p, q + 1)
      else
        var e := m.value;
        [line[p..q], line[q..e]] + Parts(line, e, e)
  }

  /** Every second part is a token of the bold pattern: the captured matches. */
  lemma {:induction false} PartsTokens(line: string, p: nat, q: nat)
    requires p <= q <= |line|
    ensures var parts := Parts(line, p, q);
      forall k :: 0 <= k < |parts| / 2 ==> IsBoldToken(parts[2 * k + 1])
    decreases |line| - q
  {
    if q < |line| {
      var m := MatchAt(line, q);
      if m.None? {
        PartsTokens(line, p, q + 1);
      } else {
        var e := m.value;
        var rest := Parts(line, e, e);
        PartsTokens(line, e, e);
        var parts := [line[p..q], line[q..e]] + rest;
        assert Parts(line, p, q) == parts;
        forall k | 0 <= k < |parts| / 2
          ensures IsBoldToken(parts[2 * k + 1])
        {
          if k == 0 {
            assert parts[1] == line[q..e];
          } else {
            assert parts[2 * k + 1] == rest[2 * (k - 1) + 1];
          }
        }
      }
    }
  }

  /** `line.split(/(\*\*.*?\*\*)/g)` of a whole line. */
  function LineParts(line: string): seq<string>
  {
    Parts(line, 0, 0)
  }

  /** The split keeps its capture group, so the parts put back together give
      the text they were cut from. */
  lemma {:induction false} PartsConcat(line: string, p: nat, q: nat)
    requires p <= q <= |line|
    ensures Concat(Parts(line, p, q)) == line[p..]
    decreases |line| - q
  {
    if q == |line| {
      assert Concat([line[p..]]) == Concat([]) + line[p..];
    } else {
      var m := MatchAt(line, q);
      if m.None? {
        PartsConcat(line, p, q + 1);
      } else {
        var e := m.value;
        var rest := Parts(line, e, e);
        PartsConcat(line, e, e);
        ConcatCons(line[p..q], [line[q..e]] + rest);
        ConcatCons(line[q..e], rest);
        assert [line[p..q], line[q..e]] + rest == [line[p..q]] + ([line[q..e]] + rest);
        assert line[q..e] + line[e..] == line[q..];
        assert line[p..q] + line[q..] == line[p..];
      }
    }
  }

  /** The first part is the text from `p` up to some position at or after
      `q`; when it is the only part it runs to the end of the line. */
  lemma {:induction false} PartsFirst(line: string, p: nat, q: nat)
    requires p <= q <= |line|
    ensures var parts := Parts(line, p, q);
      q <= p + |parts[0]| <= |line| && parts[0] == line[p..p + |parts[0]|]
    ensures var parts := Parts(line, p, q);
      |parts| == 1 ==> p + |parts[0]| == |line|
    decreases |line| - q
  {
    if q < |line| && MatchAt(line, q).None? {
      PartsFirst(line, p, q + 1);
      assert Parts(line, p, q) == Parts(line, p, q + 1);
    } else if q < |line| {
      var e := MatchAt(line, q).value;
      assert Parts(line, p, q)[0] == line[p..q];
    }
  }

  /** The pattern matches nowhere from `q` up to the end of the first part. */
  lemma {:induction false} PartsNoEarlierMatch(line: string, p: nat, q: nat, j: nat)
    requires p <= q <= |line|
    ensures q <= j < p + |Parts(line, p, q)[0]| && j < |line| ==> MatchAt(line, j).None?
    decreases |line| - q
  {
    if q < |line| && MatchAt(line, q).None? {
      assert Parts(line, p, q) == Parts(line, p, q + 1);
      PartsNoEarlierMatch(line, p, q + 1, j);
    } else if q < |line| {
      var e := MatchAt(line, q).value;
      assert Parts(line, p, q)[0] == line[p..q];
    }
  }

  /** Positions where the pattern does not match leave the split unchanged. */
  lemma {:induction false} PartsSkip(line: string, p: nat, q: nat, n: nat)
    requires p <= q <= n <= |line|
    requires forall j :: q <= j < n ==> MatchAt(line, j).None?
    ensures Parts(line, p, q) == Parts(line, p, n)
    decreases n - q
  {
    if q < n {
      assert MatchAt(line, q).None?;
      PartsSkip(line, p, q + 1, n);
    }
  }

  /** Where the pattern matches, the split from there has that match as its
      second part. */
  lemma PartsAtMatch(line: string, p: nat, n: nat)
    requires p <= n < |line| && MatchAt(line, n).Some?
    ensures |Parts(line, p, n)| > 1 && |Parts(line, p, n)[0]| == n - p
    ensures MatchAt(line, n) == Some(n + |Parts(line, p, n)[1]|)
  {
    var e := MatchAt(line, n).value;
    assert Parts(line, p, n) == [line[p..n], line[n..e]] + Parts(line, e, e);
  }

  /** When the split has more than one part, the pattern matches where the
      first part ends, and the match is the second part. */
  lemma {:induction false} PartsNextMatch(line: string, p: nat, q: nat, n: nat)
    requires p <= q <= |line|
    ensures var parts := Parts(line, p, q);
      |parts| > 1 && n == p + |parts[0]| ==>
        n < |line| && MatchAt(line, n) == Some(n + |parts[1]|)
    decreases |line| - q
  {
    var parts := Parts(line, p, q);
    if q < |line| && MatchAt(line, q).None? {
      PartsNextMatch(line, p, q + 1, n);
      var later := Parts(line, p, q + 1);
      assert parts == later;
      if |later| > 1 && n == p + |later[0]| {
        assert MatchAt(line, n) == Some(n + |later[1]|);
      }
    } else if q < |line| {
      var m := MatchAt(line, q).value;
      assert parts == [line[p..q], line[q..m]] + Parts(line, m, m);
      assert p + |parts[0]| == q && q + |parts[1]| == m;
    }
  }

  /** The split is leftmost: the first part runs from `p` up to the first
      position from `q` on where the bold pattern matches, no match starts
      before it, and the next part is exactly that match; with no match left
      the first part is the rest of the line. */
  lemma PartsLeftmost(line: string, p: nat, q: nat)
    requires p <= q <= |line|
    ensures var parts := Parts(line, p, q);
      p + |parts[0]| <= |line| && parts[0] == line[p..p + |parts[0]|]
    ensures var parts := Parts(line, p, q);
      forall j :: q <= j < p + |parts[0]| ==> MatchAt(line, j).None?
    ensures var parts := Parts(line, p, q);
      |parts| > 1 ==> MatchAt(line, p + |parts[0]|) == Some(p + |parts[0]| + |parts[1]|)
    ensures var parts := Parts(line, p, q);
      |parts| == 1 ==> p + |parts[0]| == |line|
  {
    var parts := Parts(line, p, q);
    PartsFirst(line, p, q);
    var n := p + |parts[0]|;
    forall j | q <= j < n
      ensures MatchAt(line, j).None?
    {
      PartsNoEarlierMatch(line, p, q, j);
    }
    PartsNextMatch(line, p, q, n);
  }

  /** After the first text and the first token, the split starts afresh where
      that token ends. */
  lemma {:induction false} PartsTail(line: string, p: nat, q: nat, e: nat)
    requires p <= q <= |line|
    ensures var parts := Parts(line, p, q);
      |parts| > 1 && e == p + |parts[0]| + |parts[1]| ==>
        e <= |line| && parts[2..] == Parts(line, e, e)
    decreases |line| - q
  {
    if q < |line| && MatchAt(line, q).None? {
      PartsTail(line, p, q + 1, e);
      assert Parts(line, p, q) == Parts(line, p, q + 1);
    } else if q < |line| {
      var m := MatchAt(line, q).value;
      var parts := Parts(line, p, q);
      assert parts == [line[p..q], line[q..m]] + Parts(line, m, m);
      assert p + |parts[0]| + |parts[1]| == m;
    }
  }

  /** The split of any line, blank or not: an odd number of parts, every
      second one a bold token, that put back together give the line. */
  lemma LinePartsRebuild(line: string)
    ensures |LineParts(line)| % 2 == 1
    ensures Concat(LineParts(line)) == line
    ensures forall k :: 0 <= k < |LineParts(line)| / 2 ==> IsBoldToken(LineParts(line)[2 * k + 1])
  {
    PartsConcat(line, 0, 0);
    PartsTokens(line, 0, 0);
    assert line[0..] == line;
  }

  /** A line with no `*` is one part: itself. */
  lemma {:induction false} PartsWithoutStars(line: string, p: nat, q: nat)
    requires p <= q <= |line|
    requires '*' !in line
    ensures Parts(line, p, q) == [line[p..]]
    decreases |line| - q
  {
    if q < |line| {
      assert line[q] != '*';
      PartsWithoutStars(line, p, q + 1);
    }
  }

  /** How one part is shown: a part that starts and ends with `**` in bold,
      without the two markers of each end (`part.slice(2, -2)`, which is
      empty for `**` and `***`); a part starting with `* ` as a bullet item
      without that marker; anything else as it is. */
  datatype Piece = Strong(text: string) | Bullet(text: string) | Plain(text: string)

  function RenderPart(part: string): (r: Piece)
    ensures IsBoldToken(part) ==> r == Strong(part[2..|part| - 2])
    ensures |part| >= 2 && part[..2] == "**" && part[|part| - 2..] == "**" ==>
      r == Strong(if |part| >= 4 then part[2..|part| - 2] else "")
    ensures |part| >= 2 && part[0] == '*' && part[1] == ' ' ==> r == Bullet(part[2..])
    ensures r.Plain? ==> r.text == part
    ensures r.Plain? <==> !(|part| >= 2 && part[0] == '*' && (part[1] == ' ' || (part[1] == '*' && part[|part| - 2] == '*' && part[|part| - 1] == '*')))
  {
    if |part| >= 2 && part[..2] == "**" && part[|part| - 2..] == "**" then
      Strong(if |part| >= 4 then part[2..|part| - 2] else "")
    else if |part| >= 2 && part[..2] == "* " then
      Bullet(part[2..])
    else
      Plain(part)
  }

  /** The text between the two markers of a bold token. */
  function Inner(t: string): (r: string)
    requires IsBoldToken(t)
    ensures "**" + r + "**" == t
  {
    t[2..|t| - 2]
  }

  /** One rendered line: a break or a paragraph of pieces. */
  datatype Node = Break | Paragraph(pieces: seq<Piece>)

  function RenderLine(line: string): (n: Node)
    ensures n == Break <==> forall k :: 0 <= k < |line| ==> IsWhitespace(line[k])
  {
    TrimBlank(line);
    if Trim(line) == "" then Break
    else Paragraph(RenderParts(LineParts(line)))
  }

  function RenderParts(parts: seq<string>): (pieces: seq<Piece>)
    ensures |pieces| == |parts|
    ensures forall k :: 0 <= k < |parts| ==> pieces[k] == RenderPart(parts[k])
  {
    seq(|parts|, k requires 0 <= k < |parts| => RenderPart(parts[k]))
  }

  /** renderResponse: one node per newline-separated line. */
  function Render(text: string): (nodes: seq<Node>)
    ensures |nodes| == |Split(text, '\n')|
    ensures forall k :: 0 <= k < |nodes| ==> nodes[k] == RenderLine(Split(text, '\n')[k])
  {
    var lines := Split(text, '\n');
    seq(|lines|, k requires 0 <= k < |lines| => RenderLine(lines[k]))
  }

  /** A paragraph line: its parts rebuild the line, there is an odd number of
      them, and every second one is a bold token shown in bold with its
      markers stripped. */
  lemma ParagraphShape(line: string)
    requires exists k :: 0 <= k < |line| && !IsWhitespace(line[k])
    ensures RenderLine(line).Paragraph?
    ensures Concat(LineParts(line)) == line
    ensures |RenderLine(line).pieces| == |LineParts(line)| && |LineParts(line)| % 2 == 1
    ensures forall k :: 0 <= k < |LineParts(line)| / 2 ==> IsBoldToken(LineParts(line)[2 * k + 1])
    ensures forall k :: 0 <= k < |LineParts(line)| / 2 ==>
      RenderLine(line).pieces[2 * k + 1] == Strong(Inner(LineParts(line)[2 * k + 1]))
  {
    LinePartsRebuild(line);
    var parts := LineParts(line);
    assert RenderLine(line) == Paragraph(RenderParts(parts));
  }

  /** A text with no newline is rendered as the single line it is. */
  lemma SingleLine(text: string)
    requires '\n' !in text
    ensures |Render(text)| == 1 && Render(text)[0] == RenderLine(text)
  {
    SplitPiece(text, '\n');
  }

  /** A concrete line holding one bold word: the split leaves an empty
      part on each side of it. */
  lemma BoldExampleParts()
    ensures LineParts("**hi**") == ["", "**hi**", ""]
  {
    var line := "**hi**";
    assert CloseFrom(line, 2) == Some(4);
    assert MatchAt(line, 0) == Some(6);
    assert |line| == 6 && line[0..6] == line && line[6..] == "";
    assert Parts(line, 6, 6) == [""];
  }

  /** The same line rendered: plain, bold without its markers, plain. */
  lemma BoldExample()
    ensures RenderLine("**hi**") == Paragraph([Plain(""), Strong("hi"), Plain("")])
  {
    BoldExampleParts();
    var line := "**hi**";
    assert !IsWhitespace(line[0]);
    assert RenderPart("") == Plain("");
    assert RenderPart(line) == Strong("hi");
  }
}
