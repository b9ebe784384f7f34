/** The "limited" mode of components/AIResponse.tsx: the sentence pattern
    `/[^.!?]+[.!?]+/g` written out as a scanner, and getLimitedResponse built
    on it. */
module ResponseText {
  import opened Strings

  predicate IsTerminator(c: char)
  {
    c == '.' || c == '!' || c == '?'
  }

  /** One match of the sentence pattern: `text[start..mid]` holds no
      terminator and `text[mid..end]` only terminators. */
  datatype Span = Span(start: nat, mid: nat, end: nat)

  /** `sp` is a match the global scan can produce: both runs non-empty and
      maximal, and the match starts at the beginning or right after a
      terminator. */
  ghost predicate IsMatch(text: string, sp: Span)
  {
    && sp.start < sp.mid < sp.end <= |text|
    && (forall k :: sp.start <= k < sp.mid ==> !IsTerminator(text[k]))
    && (forall k :: sp.mid <= k < sp.end ==> IsTerminator(text[k]))
    && (sp.end == |text| || !IsTerminator(text[sp.end]))
    && (sp.start == 0 || IsTerminator(text[sp.start - 1]))
  }

  /** From `p` on the pattern cannot match: no other character is directly
      followed by a terminator. */
  ghost predicate NoMatchFrom(text: string, p: nat)
  {
    forall k :: p <= k && k + 1 < |text| ==> IsTerminator(text[k]) || !IsTerminator(text[k + 1])
  }

  /** The end of the maximal run, starting at `p`, of terminators (when
      `terminators`) or of other characters. */
  function RunEnd(text: string, p: nat, terminators: bool): (q: nat)
    requires p <= |text|
    ensures p <= q <= |text|
    ensures forall k :: p <= k < q ==> IsTerminator(text[k]) == terminators
    ensures q == |text| || IsTerminator(text[q]) != terminators
    decreases |text| - p
  {
    if p == |text| || IsTerminator(text[p]) != terminators then p
    else RunEnd(text, p + 1, terminators)
  }

  function LastEnd(spans: seq<Span>, p: nat): nat
  {
    if spans == [] then p else spans[|spans| - 1].end
  }

  /** The global scan from `p`: skip terminators; at another character take
      the maximal run of such characters and then the maximal run of
      terminators; a final run with no terminator after it ends the scan. */
  function Scan(text: string, p: nat): (spans: seq<Span>)
    requires p <= |text|
    ensures forall k :: 0 <= k < |spans| ==> p <= spans[k].start < spans[k].mid < spans[k].end <= |text|
    decreases |text| - p
  {
    if p == |text| then []
    else if IsTerminator(text[p]) then Scan(text, p + 1)
    else
      var mid := RunEnd(text, p, false);
      if mid == |text| then []
      else
        var end := RunEnd(text, mid, true);
        [Span(p, mid, end)] + Scan(text, end)
  }

  /** The span the scan takes at a non-terminator `p` is a match. */
  lemma FirstSpanMatches(text: string, p: nat)
    requires p < |text| && !IsTerminator(text[p])
    requires p == 0 || IsTerminator(text[p - 1])
    requires RunEnd(text, p, false) < |text|
    ensures IsMatch(text, Span(p, RunEnd(text, p, false), RunEnd(text, RunEnd(text, p, false), true)))
  {
  }

  /** Every span of the scan is a match of the pattern. */
  lemma {:induction false} ScanMatches(text: string, p: nat)
    requires p <= |text|
    requires p == 0 || IsTerminator(text[p - 1])
    ensures forall k :: 0 <= k < |Scan(text, p)| ==> IsMatch(text, Scan(text, p)[k])
    decreases |text| - p
  {
    if p < |text| {
      if IsTerminator(text[p]) {
        ScanMatches(text, p + 1);
      } else {
        var mid := RunEnd(text, p, false);
        if mid < |text| {
          var end := RunEnd(text, mid, true);
          assert IsTerminator(text[end - 1]);
          ScanMatches(text, end);
          FirstSpanMatches(text, p);
          var spans := Scan(text, p);
          var rest := Scan(text, end);
          assert spans == [Span(p, mid, end)] + rest;
          forall k | 0 <= k < |spans|
            ensures IsMatch(text, spans[k])
          {
            if k > 0 {
              assert spans[k] == rest[k - 1];
            }
          }
        }
      }
    }
  }

  /** Only terminators come before the first match. */
  lemma {:induction false} ScanGap(text: string, p: nat)
    requires p <= |text|
    ensures Scan(text, p) != [] ==> forall k :: p <= k < Scan(text, p)[0].start ==> IsTerminator(text[k])
    decreases |text| - p
  {
    if p < |text| && IsTerminator(text[p]) {
      ScanGap(text, p + 1);
    }
  }

  /** The matches follow each other without a gap: each starts where the
      previous one ends. */
  lemma {:induction false} ScanAdjacent(text: string, p: nat)
    requires p <= |text|
    requires p == 0 || IsTerminator(text[p - 1])
    ensures forall k :: 0 <= k < |Scan(text, p)| - 1 ==> Scan(text, p)[k].end == Scan(text, p)[k + 1].start
    decreases |text| - p
  {
    if p < |text| {
      if IsTerminator(text[p]) {
        ScanAdjacent(text, p + 1);
      } else {
        var mid := RunEnd(text, p, false);
        if mid < |text| {
          var end := RunEnd(text, mid, true);
          ScanAdjacent(text, end);
          ScanGap(text, end);
          var spans := Scan(text, p);
          var rest := Scan(text, end);
          assert spans == [Span(p, mid, end)] + rest;
          if end < |text| {
            assert !IsTerminator(text[end]);
          }
          forall k | 0 <= k < |spans| - 1
            ensures spans[k].end == spans[k + 1].start
          {
            if k > 0 {
              assert spans[k] == rest[k - 1] && spans[k + 1] == rest[k];
            }
          }
        }
      }
    }
  }

  /** After the last match the pattern cannot match again. */
  lemma {:induction false} ScanComplete(text: string, p: nat)
    requires p <= |text|
    ensures NoMatchFrom(text, LastEnd(Scan(text, p), p))
    decreases |text| - p
  {
    if p < |text| {
      if IsTerminator(text[p]) {
        ScanComplete(text, p + 1);
      } else {
        var mid := RunEnd(text, p, false);
        if mid < |text| {
          var end := RunEnd(text, mid, true);
          ScanComplete(text, end);
          var rest := Scan(text, end);
          assert Scan(text, p) == [Span(p, mid, end)] + rest;
        }
      }
    }
  }

  /** `text.match(/[^.!?]+[.!?]+/g)`, with `[]` for JavaScript's `null`. */
  function Sentences(text: string): (r: seq<string>)
    ensures |r| == |Scan(text, 0)|
    ensures forall k :: 0 <= k < |r| ==>
      r[k] == text[Scan(text, 0)[k].start..Scan(text, 0)[k].end]
  {
    var spans := Scan(text, 0);
    seq(|spans|, k requires 0 <= k < |spans| => text[spans[k].start..spans[k].end])
  }

  /** Each sentence is a non-empty piece of the text ending in a terminator;
      the pieces follow each other without gaps or overlap. */
  lemma SentenceShape(text: string, k: nat)
    requires k < |Sentences(text)|
    ensures Sentences(text)[k] != []
    ensures IsTerminator(Sentences(text)[k][|Sentences(text)[k]| - 1])
    ensures k + 1 < |Sentences(text)| ==> Scan(text, 0)[k].end == Scan(text, 0)[k + 1].start
  {
    var spans := Scan(text, 0);
    ScanMatches(text, 0);
    ScanAdjacent(text, 0);
    var sp := spans[k];
    assert IsMatch(text, sp);
    var s := Sentences(text)[k];
    assert s == text[sp.start..sp.end];
    assert s[|s| - 1] == text[sp.end - 1];
    assert sp.mid <= sp.end - 1 < sp.end;
  }

  /** There is no sentence exactly when no character other than a terminator
      is directly followed by a terminator; in particular when the text has no
      terminator at all. */
  lemma NoSentencesIff(text: string)
    ensures Sentences(text) == [] <==> NoMatchFrom(text, 0)
  {
    var spans := Scan(text, 0);
    ScanMatches(text, 0);
    ScanComplete(text, 0);
    if spans != [] {
      var sp := spans[0];
      assert IsMatch(text, sp);
      var k := sp.mid - 1;
      assert !IsTerminator(text[k]) && IsTerminator(text[k + 1]);
      assert |Sentences(text)| > 0;
    }
  }

  const MaxSentences := 4

  /** The pieces getLimitedResponse joins: the first four sentences, or the
      whole text when there is none. */
  function Chosen(text: string): (r: seq<string>)
    ensures 1 <= |r| <= MaxSentences
    ensures Sentences(text) == [] ==> r == [text]
    ensures Sentences(text) != [] ==>
      |r| == Min(MaxSentences, |Sentences(text)|) && r == Sentences(text)[..|r|]
  {
    var sentences := Sentences(text);
    if sentences == [] then [text] else sentences[..Min(MaxSentences, |sentences|)]
  }

  /** `s.replace(/\n/g, ' ')`. */
  function ReplaceNewlines(s: string): (r: string)
    ensures |r| == |s|
    ensures forall k :: 0 <= k < |s| ==> r[k] == if s[k] == '\n' then ' ' else s[k]
    ensures '\n' !in r
  {
    if s == [] then "" else [if s[0] == '\n' then ' ' else s[0]] + ReplaceNewlines(s[1..])
  }

  /** A text without newlines is left as it is. */
  lemma ReplaceWithoutNewlines(s: string)
    requires '\n' !in s
    ensures ReplaceNewlines(s) == s
  {
    assert forall k :: 0 <= k < |s| ==> s[k] != '\n';
  }

  /** getLimitedResponse: the text itself when the mode is off; otherwise the
      chosen pieces joined by single spaces, with every newline turned into a
      space. */
  function LimitedResponse(text: string, limitToOneParagraph: bool): (r: string)
    ensures !limitToOneParagraph ==> r == text
    ensures limitToOneParagraph ==> '\n' !in r
    ensures limitToOneParagraph ==> |r| == |Join(Chosen(text), " ")|
    ensures limitToOneParagraph ==> forall k :: 0 <= k < |r| ==>
      r[k] == if Join(Chosen(text), " ")[k] == '\n' then ' ' else Join(Chosen(text), " ")[k]
  {
    if !limitToOneParagraph then text
    else ReplaceNewlines(Join(Chosen(text), " "))
  }

  /** The scan of a concrete response: two matches, the second one starting
      at the space after the first terminator. */
  lemma ExampleScan()
    ensures Scan("Hi. Yo.", 0) == [Span(0, 2, 3), Span(3, 6, 7)]
  {
    var text := "Hi. Yo.";
    assert RunEnd(text, 0, false) == 2;
    assert RunEnd(text, 2, true) == 3;
    assert RunEnd(text, 3, false) == 6;
    assert RunEnd(text, 6, true) == 7;
    assert Scan(text, 7) == [];
    assert Scan(text, 3) == [Span(3, 6, 7)];
  }

  lemma ExampleSentences()
    ensures Sentences("Hi. Yo.") == ["Hi.", " Yo."]
  {
    var text := "Hi. Yo.";
    ExampleScan();
    var r := Sentences(text);
    assert |r| == 2;
    assert r[0] == text[0..3] == "Hi.";
    assert r[1] == text[3..7] == " Yo.";
  }

  /** Each sentence keeps the space in front of it, so joining with a further
      space doubles it. */
  lemma DoubleSpaceExample()
    ensures LimitedResponse("Hi. Yo.", true) == "Hi.  Yo."
  {
    ExampleSentences();
    var chosen := Chosen("Hi. Yo.");
    assert chosen == ["Hi.", " Yo."];
    assert Join([" Yo."], " ") == " Yo.";
    var joined := Join(chosen, " ");
    assert joined == "Hi.  Yo.";
    assert '\n' !in joined;
    ReplaceWithoutNewlines(joined);
    assert LimitedResponse("Hi. Yo.", true) == ReplaceNewlines(joined);
  }
}
