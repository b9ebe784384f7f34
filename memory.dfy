/** The values of the conversation memory store (services/conversationMemory.ts)
    and the pure computations over its list of records: lookup by id, the
    feedback filters, the learning insights, the statistics, the stable
    most-recent-first ordering, the notes folded into the personality profile
    and the augmented system instruction. */
module Memory {
  import opened Wrappers
  import opened Strings

  datatype Feedback = Good | Bad | Neutral

  /** One stored exchange. Timestamps are milliseconds since the epoch; the
      three optional fields are absent until feedback is given. */
  datatype Record = Record(
    id: string,
    timestamp: int,
    prompt: string,
    response: string,
    feedback: Option<Feedback>,
    correctedResponse: Option<string>,
    learningNotes: Option<string>)

  datatype Profile = Profile(
    communicationStyle: seq<string>,
    preferences: seq<string>,
    dislikes: seq<string>,
    commonPhrases: seq<string>,
    lastUpdated: int)

  /** The profile a fresh store starts with: four empty lists, stamped now. */
  function EmptyProfile(now: int): (p: Profile)
    ensures p.communicationStyle == [] && p.preferences == []
    ensures p.dislikes == [] && p.commonPhrases == []
    ensures p.lastUpdated == now
  {
    Profile([], [], [], [], now)
  }

  /** A record as saveConversation creates it: no feedback yet. */
  function NewRecord(id: string, now: int, prompt: string, response: string): (r: Record)
    ensures r.id == id && r.timestamp == now
    ensures r.prompt == prompt && r.response == response
    ensures r.feedback.None? && r.correctedResponse.None? && r.learningNotes.None?
  {
    Record(id, now, prompt, response, None, None, None)
  }

  ghost predicate IdFresh(ms: seq<Record>, id: string)
  {
    forall j :: 0 <= j < |ms| ==> ms[j].id != id
  }

  ghost predicate DistinctIds(ms: seq<Record>)
  {
    forall i, j :: 0 <= i < j < |ms| ==> ms[i].id != ms[j].id
  }

  /** `memories.find(m => m.id === id)`, as the index of the first record
      carrying `id`. */
  function FindById(ms: seq<Record>, id: string): (r: Option<nat>)
    ensures r.Some? ==> r.value < |ms| && ms[r.value].id == id
    ensures r.Some? ==> forall j :: 0 <= j < r.value ==> ms[j].id != id
    ensures r.None? <==> IdFresh(ms, id)
  {
    if ms == [] then None
    else if ms[0].id == id then Some(0)
    else match FindById(ms[1..], id)
      case None => None
      case Some(k) => Some(k + 1)
  }

  /** The record with its three feedback fields overwritten, as addFeedback
      does to the record it finds; omitted arguments make the fields absent. */
  function WithFeedback(m: Record, fb: Feedback, corrected: Option<string>, notes: Option<string>): (r: Record)
    ensures r.id == m.id && r.timestamp == m.timestamp
    ensures r.prompt == m.prompt && r.response == m.response
    ensures r.feedback == Some(fb) && r.correctedResponse == corrected && r.learningNotes == notes
  {
    m.(feedback := Some(fb), correctedResponse := corrected, learningNotes := notes)
  }

  /** `memories.filter(m => m.feedback === fb)`. */
  function Rated(ms: seq<Record>, fb: Feedback): (r: seq<Record>)
    ensures |r| <= |ms|
    ensures forall k :: 0 <= k < |r| ==> r[k].feedback == Some(fb)
  {
    if ms == [] then []
    else (if ms[0].feedback == Some(fb) then [ms[0]] else []) + Rated(ms[1..], fb)
  }

  /** The filter keeps exactly the records with feedback `fb`. */
  lemma {:induction false} RatedMembers(ms: seq<Record>, fb: Feedback)
    ensures forall m :: m in Rated(ms, fb) <==> m in ms && m.feedback == Some(fb)
  {
    if ms != [] {
      RatedMembers(ms[1..], fb);
      assert ms == [ms[0]] + ms[1..];
    }
  }

  /** The filter keeps store order: filtering two runs of records gives the
      filtered first run followed by the filtered second. */
  lemma {:induction false} RatedAppend(a: seq<Record>, b: seq<Record>, fb: Feedback)
    ensures Rated(a + b, fb) == Rated(a, fb) + Rated(b, fb)
  {
    if a != [] {
      var h := if a[0].feedback == Some(fb) then [a[0]] else [];
      assert Rated(a + b, fb) == h + Rated(a[1..] + b, fb) by {
        assert (a + b)[1..] == a[1..] + b;
      }
      RatedAppend(a[1..], b, fb);
    } else {
      assert a + b == b;
    }
  }

  /** Nothing is deduplicated: a record with feedback `fb` is kept as many
      times as it occurs, and any other record not at all. */
  lemma {:induction false} RatedCount(ms: seq<Record>, fb: Feedback, m: Record)
    ensures multiset(Rated(ms, fb))[m] == if m.feedback == Some(fb) then multiset(ms)[m] else 0
  {
    if ms != [] {
      var h := if ms[0].feedback == Some(fb) then [ms[0]] else [];
      assert multiset(Rated(ms, fb)) == multiset(h) + multiset(Rated(ms[1..], fb));
      assert multiset(ms) == multiset([ms[0]]) + multiset(ms[1..]) by {
        assert ms == [ms[0]] + ms[1..];
      }
      RatedCount(ms[1..], fb, m);
    }
  }

  /** The index of the first record (in store order) that has feedback `fb`. */
  function FirstRated(ms: seq<Record>, fb: Feedback): (r: Option<nat>)
    ensures r.Some? ==> r.value < |ms| && ms[r.value].feedback == Some(fb)
    ensures r.Some? ==> forall j :: 0 <= j < r.value ==> ms[j].feedback != Some(fb)
    ensures r.None? <==> forall j :: 0 <= j < |ms| ==> ms[j].feedback != Some(fb)
  {
    if ms == [] then None
    else if ms[0].feedback == Some(fb) then Some(0)
    else match FirstRated(ms[1..], fb)
      case None => None
      case Some(k) => Some(k + 1)
  }

  /** The filtered list is non-empty exactly when some record has the
      feedback, and its head is the first such record. */
  lemma {:induction false} RatedHead(ms: seq<Record>, fb: Feedback)
    ensures Rated(ms, fb) != [] <==> FirstRated(ms, fb).Some?
    ensures Rated(ms, fb) != [] ==> Rated(ms, fb)[0] == ms[FirstRated(ms, fb).value]
  {
    if ms != [] && ms[0].feedback != Some(fb) {
      RatedHead(ms[1..], fb);
    }
  }

  // ---------------------------------------------------------------------
  // Learning insights (getLearningInsights)

  const ExcerptLength := 100
  const AvoidPrefix := "Avoid responses like: \""
  const GoodPrefix := "Good responses include: \""
  const InsightEnd := "...\""

  /** `s.substring(0, 100)`. */
  function Excerpt(s: string): (r: string)
    ensures |r| == Min(ExcerptLength, |s|)
    ensures r == s[..|r|]
  {
    s[..Min(ExcerptLength, |s|)]
  }

  /** `Avoid responses like: "<first 100 characters>..."`. */
  function AvoidInsight(response: string): (r: string)
    ensures |r| == |AvoidPrefix| + Min(ExcerptLength, |response|) + |InsightEnd|
    ensures r[..|AvoidPrefix|] == AvoidPrefix
    ensures r[|AvoidPrefix|..|r| - |InsightEnd|] == response[..Min(ExcerptLength, |response|)]
    ensures r[|r| - |InsightEnd|..] == InsightEnd
  {
    AvoidPrefix + Excerpt(response) + InsightEnd
  }

  /** `Good responses include: "<first 100 characters>..."`. */
  function GoodInsight(response: string): (r: string)
    ensures |r| == |GoodPrefix| + Min(ExcerptLength, |response|) + |InsightEnd|
    ensures r[..|GoodPrefix|] == GoodPrefix
    ensures r[|GoodPrefix|..|r| - |InsightEnd|] == response[..Min(ExcerptLength, |response|)]
    ensures r[|r| - |InsightEnd|..] == InsightEnd
  {
    GoodPrefix + Excerpt(response) + InsightEnd
  }

  /** getLearningInsights: an "Avoid" entry built from the first record rated
      bad, then a "Good" entry built from the first record rated good, each
      present only when such a record exists (store order, not recency). */
  function Insights(ms: seq<Record>): (r: seq<string>)
    ensures |r| == (if FirstRated(ms, Bad).Some? then 1 else 0) + (if FirstRated(ms, Good).Some? then 1 else 0)
    ensures FirstRated(ms, Bad).Some? ==> r[0] == AvoidInsight(ms[FirstRated(ms, Bad).value].response)
    ensures FirstRated(ms, Good).Some? ==> r[|r| - 1] == GoodInsight(ms[FirstRated(ms, Good).value].response)
  {
    var bad := Rated(ms, Bad);
    var good := Rated(ms, Good);
    RatedHead(ms, Bad);
    RatedHead(ms, Good);
    (if |bad| > 0 then [AvoidInsight(bad[0].response)] else [])
      + (if |good| > 0 then [GoodInsight(good[0].response)] else [])
  }

  /** At most two insights, and none exactly when no record is rated good or
      bad: neutral and unrated records are ignored. */
  lemma InsightsBounds(ms: seq<Record>)
    ensures |Insights(ms)| <= 2
    ensures Insights(ms) == [] <==>
      forall j :: 0 <= j < |ms| ==> ms[j].feedback.None? || ms[j].feedback == Some(Neutral)
  {
    if Insights(ms) == [] {
      assert FirstRated(ms, Bad).None? && FirstRated(ms, Good).None?;
      forall j | 0 <= j < |ms|
        ensures ms[j].feedback.None? || ms[j].feedback == Some(Neutral)
      {
        assert ms[j].feedback != Some(Good) && ms[j].feedback != Some(Bad);
        match ms[j].feedback
        case None =>
        case Some(f) => assert f != Good && f != Bad;
      }
    } else if FirstRated(ms, Bad).Some? {
      var i := FirstRated(ms, Bad).value;
      assert !(ms[i].feedback.None? || ms[i].feedback == Some(Neutral));
    } else {
      var i := FirstRated(ms, Good).value;
      assert !(ms[i].feedback.None? || ms[i].feedback == Some(Neutral));
    }
  }

  /** Every insight quotes the start of a stored response: the "Avoid" entry
      begins with the first 100 characters of a response rated bad. */
  lemma AvoidQuotesResponse(ms: seq<Record>)
    requires FirstRated(ms, Bad).Some?
    ensures exists j :: (0 <= j < |ms| && ms[j].feedback == Some(Bad) &&
      Insights(ms)[0] == AvoidPrefix + ms[j].response[..Min(ExcerptLength, |ms[j].response|)] + InsightEnd)
  {
    var j := FirstRated(ms, Bad).value;
    assert Insights(ms)[0] == AvoidPrefix + Excerpt(ms[j].response) + InsightEnd;
  }

  // ---------------------------------------------------------------------
  // Statistics (getStats)

  /** The statistics object; `learningRate` is a percentage, kept exact. */
  datatype Stats = Stats(totalConversations: nat, goodResponses: nat, badResponses: nat, learningRate: real)

  lemma {:induction false} RatedDisjoint(ms: seq<Record>)
    ensures |Rated(ms, Good)| + |Rated(ms, Bad)| <= |ms|
  {
    if ms != [] {
      RatedDisjoint(ms[1..]);
    }
  }

  /** getStats: the counts of all, good and bad records, and the share of good
      ones in percent, which is 0 for an empty store. */
  function GetStats(ms: seq<Record>): (s: Stats)
    ensures s.totalConversations == |ms|
    ensures s.goodResponses == |Rated(ms, Good)| && s.badResponses == |Rated(ms, Bad)|
    ensures s.goodResponses + s.badResponses <= s.totalConversations
    ensures s.totalConversations == 0 ==> s.learningRate == 0.0
    ensures s.learningRate == Rate(s.goodResponses, s.totalConversations)
    ensures 0.0 <= s.learningRate <= 100.0
  {
    var total := |ms|;
    var good := |Rated(ms, Good)|;
    var bad := |Rated(ms, Bad)|;
    RatedDisjoint(ms);
    RateBounds(good, total);
    Stats(total, good, bad, Rate(good, total))
  }

  /** `total > 0 ? (good / total) * 100 : 0`, exactly. */
  function Rate(good: nat, total: nat): (r: real)
    ensures total == 0 ==> r == 0.0
    ensures r >= 0.0
  {
    if total > 0 then
      var q := good as real / total as real;
      assert q >= 0.0;
      q * 100.0
    else 0.0
  }

  /** The rate is a percentage: 0 for an empty store, otherwise the share of
      good records times 100. */
  lemma RateBounds(good: nat, total: nat)
    requires good <= total
    ensures total == 0 ==> Rate(good, total) == 0.0
    ensures 0.0 <= Rate(good, total) <= 100.0
    ensures total > 0 ==> Rate(good, total) * (total as real) == 100.0 * (good as real)
  {
    if total > 0 {
      var q := good as real / total as real;
      assert q * (total as real) == good as real;
    }
  }

  // ---------------------------------------------------------------------
  // Most recent first (the stable sort in getRecentConversations)

  ghost predicate NewestFirst(s: seq<Record>)
  {
    forall i, j :: 0 <= i < j < |s| ==> s[i].timestamp >= s[j].timestamp
  }

  /** Inserts `m` into a newest-first list ahead of every record that is not
      newer than it, so that ties keep their original order. */
  function InsertNewest(m: Record, s: seq<Record>): (r: seq<Record>)
    ensures multiset(r) == multiset(s) + multiset{m}
    ensures |r| == |s| + 1
    ensures r[0] == m || (s != [] && r[0] == s[0])
  {
    if s == [] || s[0].timestamp <= m.timestamp then [m] + s
    else
      var rest := InsertNewest(m, s[1..]);
      assert s == [s[0]] + s[1..];
      [s[0]] + rest
  }

  /** The stored list after `sort((a, b) => b.timestamp - a.timestamp)`:
      newest first, and stable, as JavaScript's sort is. */
  function SortNewest(s: seq<Record>): (r: seq<Record>)
    ensures |r| == |s|
    ensures multiset(r) == multiset(s)
    ensures NewestFirst(r)
  {
    if s == [] then []
    else
      assert s == [s[0]] + s[1..];
      var rest := SortNewest(s[1..]);
      InsertSorted(s[0], rest);
      InsertNewest(s[0], rest)
  }

  lemma {:induction false} InsertMembers(m: Record, s: seq<Record>)
    ensures forall x :: x in InsertNewest(m, s) <==> x == m || x in s
  {
    if !(s == [] || s[0].timestamp <= m.timestamp) {
      InsertMembers(m, s[1..]);
      assert s == [s[0]] + s[1..];
    }
  }

  lemma {:induction false} InsertSorted(m: Record, s: seq<Record>)
    requires NewestFirst(s)
    ensures NewestFirst(InsertNewest(m, s))
  {
    if !(s == [] || s[0].timestamp <= m.timestamp) {
      var rest := InsertNewest(m, s[1..]);
      InsertSorted(m, s[1..]);
      InsertMembers(m, s[1..]);
      var r := [s[0]] + rest;
      forall j | 0 < j < |r| ensures r[0].timestamp >= r[j].timestamp {
        assert r[j] in rest;
      }
    }
  }

  /** The records stamped `t`, in list order. */
  function StampedAt(s: seq<Record>, t: int): seq<Record>
  {
    if s == [] then [] else (if s[0].timestamp == t then [s[0]] else []) + StampedAt(s[1..], t)
  }

  lemma {:induction false} InsertKeepsTies(m: Record, s: seq<Record>, t: int)
    ensures StampedAt(InsertNewest(m, s), t) ==
      (if m.timestamp == t then [m] else []) + StampedAt(s, t)
  {
    if s == [] || s[0].timestamp <= m.timestamp {
      var r := [m] + s;
      assert r[1..] == s;
    } else {
      var r := InsertNewest(m, s);
      var rest := InsertNewest(m, s[1..]);
      assert r == [s[0]] + rest;
      assert r[1..] == rest;
      InsertKeepsTies(m, s[1..], t);
      assert StampedAt(r, t) == (if s[0].timestamp == t then [s[0]] else []) + StampedAt(rest, t);
      assert StampedAt(s, t) == (if s[0].timestamp == t then [s[0]] else []) + StampedAt(s[1..], t);
      if m.timestamp == t {
        assert s[0].timestamp != t;
      }
    }
  }

  /** Stability: records with equal timestamps keep their relative order. */
  lemma {:induction false} SortNewestStable(s: seq<Record>, t: int)
    ensures StampedAt(SortNewest(s), t) == StampedAt(s, t)
  {
    if s != [] {
      SortNewestStable(s[1..], t);
      InsertKeepsTies(s[0], SortNewest(s[1..]), t);
    }
  }

  /** Sorting a list that is already newest first changes nothing, so a
      second call of getRecentConversations sees the order the first left. */
  lemma {:induction false} SortNewestSorted(s: seq<Record>)
    requires NewestFirst(s)
    ensures SortNewest(s) == s
  {
    if s != [] {
      assert NewestFirst(s[1..]);
      SortNewestSorted(s[1..]);
      assert s == [s[0]] + s[1..];
    }
  }

  /** `array.slice(0, end)`: the length of the prefix taken, following the
      JavaScript rule that a negative end counts back from the length. */
  function SliceEnd(len: nat, end: int): (k: nat)
    ensures k <= len
    ensures end >= 0 ==> k == Min(end, len)
    ensures end < 0 ==> k == if len + end > 0 then len + end else 0
  {
    if end >= 0 then Min(end, len)
    else if len + end > 0 then len + end
    else 0
  }

  /** What getRecentConversations(limit) leaves stored and returns: at most
      `limit` records, each at least as new as every record left out. */
  lemma RecentAreNewest(s: seq<Record>, limit: nat)
    ensures |SortNewest(s)[..SliceEnd(|s|, limit)]| == Min(limit, |s|)
    ensures NewestFirst(SortNewest(s)[..SliceEnd(|s|, limit)])
    ensures forall i, j :: 0 <= i < SliceEnd(|s|, limit) <= j < |s| ==>
      SortNewest(s)[i].timestamp >= SortNewest(s)[j].timestamp
  {
  }

  // ---------------------------------------------------------------------
  // Personality profile (updatePersonalityProfile)

  /** The notes a record contributes: its learning notes when present and
      non-empty (the source tests them for truthiness). */
  function NoteOf(m: Record): (r: seq<string>)
    ensures |r| <= 1
    ensures r != [] <==> m.learningNotes.Some? && m.learningNotes.value != ""
    ensures r != [] ==> r[0] == m.learningNotes.value
  {
    if m.learningNotes.Some? && m.learningNotes.value != "" then [m.learningNotes.value] else []
  }

  /** The notes of `rs`, in order, as the `forEach` pushes them. */
  function Notes(rs: seq<Record>): (r: seq<string>)
    ensures |r| <= |rs|
  {
    if rs == [] then [] else Notes(rs[..|rs| - 1]) + NoteOf(rs[|rs| - 1])
  }

  /** A string is among the notes exactly when it is the non-empty notes of
      one of the records. */
  lemma {:induction false} NotesMembership(rs: seq<Record>, n: string)
    ensures n in Notes(rs) <==>
      n != "" && exists i :: 0 <= i < |rs| && rs[i].learningNotes == Some(n)
  {
    if rs != [] {
      var init := rs[..|rs| - 1];
      NotesMembership(init, n);
      if n != "" && exists i :: 0 <= i < |rs| && rs[i].learningNotes == Some(n) {
        var i :| 0 <= i < |rs| && rs[i].learningNotes == Some(n);
        if i < |rs| - 1 {
          assert init[i] == rs[i];
        }
      }
      if n in Notes(init) {
        var i :| 0 <= i < |init| && init[i].learningNotes == Some(n);
        assert rs[i] == init[i];
      }
    }
  }

  /** Notes are collected record by record, in order: the notes of two runs of
      records are the notes of the first followed by those of the second. */
  lemma {:induction false} NotesAppend(a: seq<Record>, b: seq<Record>)
    ensures Notes(a + b) == Notes(a) + Notes(b)
  {
    if b == [] {
      assert a + b == a;
    } else {
      var init, last := b[..|b| - 1], b[|b| - 1];
      var ab := a + b;
      assert Notes(ab) == Notes(a + init) + NoteOf(last) by {
        assert ab[..|ab| - 1] == a + init;
      }
      NotesAppend(a, init);
    }
  }

  /** The number of records of `rs` whose learning notes are `n`. */
  function NotedCount(rs: seq<Record>, n: string): (c: nat)
    ensures c <= |rs|
  {
    if rs == [] then 0
    else NotedCount(rs[..|rs| - 1], n) + (if rs[|rs| - 1].learningNotes == Some(n) then 1 else 0)
  }

  /** Nothing is de-duplicated: a non-empty note occurs in the notes once per
      record that carries it. */
  lemma {:induction false} NotesCount(rs: seq<Record>, n: string)
    requires n != ""
    ensures multiset(Notes(rs))[n] == NotedCount(rs, n)
  {
    if rs != [] {
      NotesCount(rs[..|rs| - 1], n);
      var last := rs[|rs| - 1];
      assert multiset(Notes(rs)) == multiset(Notes(rs[..|rs| - 1])) + multiset(NoteOf(last));
    }
  }

  /** The profile after one updatePersonalityProfile: the notes of the bad
      records appended to `dislikes`, those of the good records to
      `preferences`, the two other lists untouched, the time stamped. */
  function Absorb(p: Profile, ms: seq<Record>, now: int): (r: Profile)
    ensures r.communicationStyle == p.communicationStyle && r.commonPhrases == p.commonPhrases
    ensures r.lastUpdated == now
    ensures |p.dislikes| <= |r.dislikes| && r.dislikes[..|p.dislikes|] == p.dislikes
    ensures |p.preferences| <= |r.preferences| && r.preferences[..|p.preferences|] == p.preferences
  {
    p.(dislikes := p.dislikes + Notes(Rated(ms, Bad)),
       preferences := p.preferences + Notes(Rated(ms, Good)),
       lastUpdated := now)
  }

  /** Nothing is deduplicated: every absorb adds each qualifying note again,
      and a note lands in `dislikes` exactly when a bad record carries it. */
  lemma AbsorbGrows(p: Profile, ms: seq<Record>, now: int, n: string)
    ensures multiset(Absorb(p, ms, now).dislikes) == multiset(p.dislikes) + multiset(Notes(Rated(ms, Bad)))
    ensures multiset(Absorb(p, ms, now).preferences) == multiset(p.preferences) + multiset(Notes(Rated(ms, Good)))
    ensures n in Absorb(p, ms, now).dislikes <==> (n in p.dislikes ||
      (n != "" && exists i :: 0 <= i < |ms| && ms[i].feedback == Some(Bad) && ms[i].learningNotes == Some(n)))
    ensures n in Absorb(p, ms, now).preferences <==> (n in p.preferences ||
      (n != "" && exists i :: 0 <= i < |ms| && ms[i].feedback == Some(Good) && ms[i].learningNotes == Some(n)))
    ensures |Absorb(p, ms, now).dislikes| <= |p.dislikes| + |ms|
  {
    RatedNotes(ms, Bad, n);
    RatedNotes(ms, Good, n);
  }

  lemma RatedNotes(ms: seq<Record>, fb: Feedback, n: string)
    ensures n in Notes(Rated(ms, fb)) <==>
      n != "" && exists i :: 0 <= i < |ms| && ms[i].feedback == Some(fb) && ms[i].learningNotes == Some(n)
  {
    var rs := Rated(ms, fb);
    NotesMembership(rs, n);
    RatedMembers(ms, fb);
    if n in Notes(rs) {
      var k :| 0 <= k < |rs| && rs[k].learningNotes == Some(n);
      assert rs[k] in rs;
      var i :| 0 <= i < |ms| && ms[i] == rs[k];
    }
    if n != "" && exists i :: 0 <= i < |ms| && ms[i].feedback == Some(fb) && ms[i].learningNotes == Some(n) {
      var i :| 0 <= i < |ms| && ms[i].feedback == Some(fb) && ms[i].learningNotes == Some(n);
      assert ms[i] in ms;
      var k :| 0 <= k < |rs| && rs[k] == ms[i];
    }
  }

  // ---------------------------------------------------------------------
  // The augmented system instruction (getEnhancedSystemInstruction)

  const ContextLimit := 5
  const LearningHeader := "\n\n**Learning from Previous Conversations:**"
  const ContextHeader := "\n\n**Recent Conversation Context:**"
  const GoodMarker := " (This response was good)"
  const BadMarker := " (This response was not good - avoid similar responses)"

  const ItemPrefix := "\n- "
  const AskedPrefix := "\n- User asked: \""

  /** One bullet of the learning section: a new line, a dash, the insight. */
  function InsightLine(insight: string): (r: string)
    ensures |r| == |ItemPrefix| + |insight|
    ensures r[..|ItemPrefix|] == ItemPrefix && r[|ItemPrefix|..] == insight
  {
    ItemPrefix + insight
  }

  /** The annotation of a context line: only good and bad records get one. */
  function Marker(fb: Option<Feedback>): (r: string)
    ensures r == "" <==> fb != Some(Good) && fb != Some(Bad)
    ensures fb == Some(Good) ==> r == GoodMarker
    ensures fb == Some(Bad) ==> r == BadMarker
  {
    match fb
    case Some(Good) => GoodMarker
    case Some(Bad) => BadMarker
    case _ => ""
  }

  function AskedLine(m: Record): string
  {
    AskedPrefix + m.prompt + "\""
  }

  function ContextLine(m: Record): string
  {
    AskedLine(m) + Marker(m.feedback)
  }

  /** One bullet of the context section: the prompt, quoted. */
  lemma AskedLineShape(m: Record)
    ensures var r := AskedLine(m);
      |r| == |AskedPrefix| + |m.prompt| + 1 &&
      r[..|AskedPrefix|] == AskedPrefix &&
      r[|AskedPrefix|..|r| - 1] == m.prompt && r[|r| - 1] == '"'
  {
  }

  /** A context line is the quoted prompt, annotated only when the record was
      rated good or bad. */
  lemma ContextLineShape(m: Record)
    ensures var r, a := ContextLine(m), AskedLine(m);
      |a| <= |r| && r[..|a|] == a &&
      (|r| == |a| <==> m.feedback != Some(Good) && m.feedback != Some(Bad)) &&
      (m.feedback == Some(Good) ==> r[|a|..] == GoodMarker) &&
      (m.feedback == Some(Bad) ==> r[|a|..] == BadMarker)
  {
  }

  function InsightLines(insights: seq<string>): (r: seq<string>)
    ensures |r| == |insights|
    ensures forall k :: 0 <= k < |r| ==> r[k] == InsightLine(insights[k])
  {
    seq(|insights|, k requires 0 <= k < |insights| => InsightLine(insights[k]))
  }

  function ContextLines(recent: seq<Record>): (r: seq<string>)
    ensures |r| == |recent|
    ensures forall k :: 0 <= k < |r| ==> r[k] == ContextLine(recent[k])
  {
    seq(|recent|, k requires 0 <= k < |recent| => ContextLine(recent[k]))
  }

  /** The learning section: empty without insights, otherwise the header and
      one line per insight. */
  function LearningSection(insights: seq<string>): (r: string)
    ensures r == "" <==> insights == []
    ensures insights != [] ==> |LearningHeader| <= |r| && r[..|LearningHeader|] == LearningHeader
  {
    if insights == [] then "" else LearningHeader + Concat(InsightLines(insights))
  }

  /** The context section: empty without records, otherwise the header and
      one "User asked" line per record. */
  function ContextSection(recent: seq<Record>): (r: string)
    ensures r == "" <==> recent == []
    ensures recent != [] ==> |ContextHeader| <= |r| && r[..|ContextHeader|] == ContextHeader
  {
    if recent == [] then "" else ContextHeader + Concat(ContextLines(recent))
  }

  /** The instruction as getEnhancedSystemInstruction builds it: the base
      text, then the learning section, then the context section. */
  function Instruction(base: string, insights: seq<string>, recent: seq<Record>): (r: string)
    ensures |r| == |base| + |LearningSection(insights)| + |ContextSection(recent)|
    ensures r[..|base|] == base
    ensures r[|base|..|base| + |LearningSection(insights)|] == LearningSection(insights)
    ensures r[|base| + |LearningSection(insights)|..] == ContextSection(recent)
  {
    var learning := LearningSection(insights);
    var r := base + learning + ContextSection(recent);
    assert r == base + (learning + ContextSection(recent));
    r
  }

  /** Line `k` of a section sits in that section just after the header and the
      lines before it. */
  lemma LearningSectionHasLine(insights: seq<string>, k: nat)
    requires k < |insights|
    ensures var o := |LearningHeader| + |Concat(InsightLines(insights)[..k])|;
      o + |InsightLine(insights[k])| <= |LearningSection(insights)| &&
      LearningSection(insights)[o..o + |InsightLine(insights[k])|] == InsightLine(insights[k])
  {
    assert LearningSection(insights) == LearningHeader + Concat(InsightLines(insights));
    HeadedConcatHasPart(LearningHeader, InsightLines(insights), k);
  }

  lemma ContextSectionHasLine(recent: seq<Record>, k: nat)
    requires k < |recent|
    ensures var o := |ContextHeader| + |Concat(ContextLines(recent)[..k])|;
      o + |ContextLine(recent[k])| <= |ContextSection(recent)| &&
      ContextSection(recent)[o..o + |ContextLine(recent[k])|] == ContextLine(recent[k])
  {
    assert ContextSection(recent) == ContextHeader + Concat(ContextLines(recent));
    HeadedConcatHasPart(ContextHeader, ContextLines(recent), k);
  }
}
