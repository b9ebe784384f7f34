/** The stateful conversation memory service (class ConversationMemoryService
    of services/conversationMemory.ts). The record list and the personality
    profile are fields that the methods reassign; `persisted` is a ghost
    snapshot of what the last write to browser storage held. Ids and clock
    readings are parameters. */
module MemoryStore {
  import opened Wrappers
  import opened Strings
  import opened Memory

  /** The two blobs saveToStorage writes. */
  datatype Snapshot = Snapshot(memories: seq<Record>, profile: Profile)

  class ConversationMemoryService {
    var memories: seq<Record>
    var profile: Profile
    ghost var persisted: Option<Snapshot>

    /** The constructor runs loadFromStorage: each stored blob that is present
        replaces the empty default; nothing is written back. */
    constructor (storedMemories: Option<seq<Record>>, storedProfile: Option<Profile>, now: int)
      ensures memories == storedMemories.GetOr([])
      ensures profile == storedProfile.GetOr(EmptyProfile(now))
      ensures persisted == None
    {
      memories := storedMemories.GetOr([]);
      profile := storedProfile.GetOr(EmptyProfile(now));
      persisted := None;
    }

    /** saveToStorage: the record list and the profile are written whole. */
    method SaveToStorage()
      modifies this`persisted
      ensures persisted == Some(Snapshot(memories, profile))
    {
      persisted := Some(Snapshot(memories, profile));
    }

    /** saveConversation: exactly one record, without feedback, is appended;
        the profile is untouched and the new list is persisted. When `id` is
        fresh, a later lookup by `id` finds the new record, and distinct ids
        stay distinct. */
    method SaveConversation(prompt: string, response: string, id: string, now: int) returns (newId: string)
      modifies this
      ensures newId == id
      ensures memories == old(memories) + [NewRecord(id, now, prompt, response)]
      ensures profile == old(profile)
      ensures persisted == Some(Snapshot(memories, profile))
      ensures IdFresh(old(memories), id) ==> FindById(memories, id) == Some(|old(memories)|)
      ensures IdFresh(old(memories), id) && DistinctIds(old(memories)) ==> DistinctIds(memories)
    {
      var memory := NewRecord(id, now, prompt, response);
      memories := memories + [memory];
      SaveToStorage();
      newId := memory.id;
      if IdFresh(old(memories), id) {
        assert memories[..|memories| - 1] == old(memories);
        FindAppended(old(memories), memory);
      }
    }

    /** addFeedback: a miss changes nothing; a hit overwrites the three
        feedback fields of the first record with that id, keeps every other
        record and the list length, and re-derives the profile. */
    method AddFeedback(id: string, fb: Feedback, corrected: Option<string>, notes: Option<string>, now: int)
      modifies this
      ensures FindById(old(memories), id).None? ==>
        memories == old(memories) && profile == old(profile) && persisted == old(persisted)
      ensures FindById(old(memories), id).Some? ==>
        var i := FindById(old(memories), id).value;
        memories == old(memories)[i := WithFeedback(old(memories)[i], fb, corrected, notes)]
      ensures FindById(old(memories), id).Some? ==>
        profile == Absorb(old(profile), memories, now) && persisted == Some(Snapshot(memories, profile))
    {
      var found := FindById(memories, id);
      if found.Some? {
        var i := found.value;
        memories := memories[i := WithFeedback(memories[i], fb, corrected, notes)];
        SaveToStorage();
        UpdatePersonalityProfile(now);
      }
    }

    /** updatePersonalityProfile: the notes of the bad records are pushed onto
        `dislikes` and those of the good records onto `preferences`, in list
        order and without deduplication; the other two lists stay. */
    method UpdatePersonalityProfile(now: int)
      modifies this
      ensures memories == old(memories)
      ensures profile == Absorb(old(profile), memories, now)
      ensures persisted == Some(Snapshot(memories, profile))
    {
      var bad := Rated(memories, Bad);
      var good := Rated(memories, Good);
      var dislikes := profile.dislikes;
      var i := 0;
      while i < |bad|
        invariant 0 <= i <= |bad|
        invariant memories == old(memories) && profile == old(profile)
        invariant dislikes == old(profile).dislikes + Notes(bad[..i])
      {
        var m := bad[i];
        ghost var before := dislikes;
        if m.learningNotes.Some? && m.learningNotes.value != "" {
          dislikes := dislikes + [m.learningNotes.value];
        }
        i := i + 1;
        NotesStep(old(profile).dislikes, bad, i, before, m);
      }
      assert bad[..|bad|] == bad;
      var preferences := profile.preferences;
      var j := 0;
      while j < |good|
        invariant 0 <= j <= |good|
        invariant memories == old(memories) && profile == old(profile)
        invariant preferences == old(profile).preferences + Notes(good[..j])
      {
        var m := good[j];
        ghost var before := preferences;
        if m.learningNotes.Some? && m.learningNotes.value != "" {
          preferences := preferences + [m.learningNotes.value];
        }
        j := j + 1;
        NotesStep(old(profile).preferences, good, j, before, m);
      }
      assert good[..|good|] == good;
      profile := profile.(dislikes := dislikes, preferences := preferences, lastUpdated := now);
      SaveToStorage();
    }

    /** getRecentConversations: the stored list itself is sorted newest first
        (stably, and without being persisted) and the first `limit` records,
        in the sense of `slice(0, limit)`, are returned; `limit` is 10 when
        the caller gives none. */
    method GetRecentConversations(limit: int := 10) returns (recent: seq<Record>)
      modifies this
      ensures memories == SortNewest(old(memories))
      ensures recent == memories[..SliceEnd(|memories|, limit)]
      ensures profile == old(profile) && persisted == old(persisted)
    {
      memories := SortNewest(memories);
      recent := memories[..SliceEnd(|memories|, limit)];
    }

    /** getLearningInsights over the current store order. */
    method GetLearningInsights() returns (insights: seq<string>)
      ensures insights == Insights(memories)
      ensures |insights| <= 2
    {
      insights := Insights(memories);
      InsightsBounds(memories);
    }

    /** getStats over the current store. */
    method GetStats() returns (s: Stats)
      ensures s == Memory.GetStats(memories)
      ensures s.goodResponses + s.badResponses <= s.totalConversations
    {
      s := Memory.GetStats(memories);
    }

    /** getEnhancedSystemInstruction: the insights are taken from the store
        order before the sort that fetching the five most recent records
        performs; the text is the base followed by the two sections. */
    method GetEnhancedSystemInstruction(base: string) returns (r: string)
      modifies this
      ensures memories == SortNewest(old(memories))
      ensures profile == old(profile) && persisted == old(persisted)
      ensures r == Instruction(base, Insights(old(memories)), memories[..Min(ContextLimit, |memories|)])
    {
      var insights := GetLearningInsights();
      var recent := GetRecentConversations(ContextLimit);
      r := AppendLearning(base, insights);
      r := AppendContext(r, recent);
    }
  }

  /** The learning block of getEnhancedSystemInstruction: the header, then one
      `+=` per insight. */
  method AppendLearning(text: string, insights: seq<string>) returns (r: string)
    ensures r == text + LearningSection(insights)
  {
    r := text;
    if |insights| > 0 {
      r := r + LearningHeader;
      ghost var lines := InsightLines(insights);
      var i := 0;
      while i < |insights|
        invariant 0 <= i <= |insights|
        invariant r == text + LearningHeader + Concat(lines[..i])
      {
        r := r + InsightLine(insights[i]);
        ConcatStep(text + LearningHeader, lines, i);
        i := i + 1;
      }
      assert lines[..|insights|] == lines;
      AppendAssoc(text, LearningHeader, Concat(lines));
    }
  }

  /** The context block of getEnhancedSystemInstruction: the header, then per
      record its "User asked" line and, for a good or bad record, the marker. */
  method AppendContext(text: string, recent: seq<Record>) returns (r: string)
    ensures r == text + ContextSection(recent)
  {
    r := text;
    if |recent| > 0 {
      r := r + ContextHeader;
      ghost var lines := ContextLines(recent);
      var i := 0;
      while i < |recent|
        invariant 0 <= i <= |recent|
        invariant r == text + ContextHeader + Concat(lines[..i])
      {
        var m := recent[i];
        ghost var before := r;
        r := r + AskedLine(m);
        if m.feedback == Some(Good) {
          r := r + GoodMarker;
        } else if m.feedback == Some(Bad) {
          r := r + BadMarker;
        }
        AppendAssoc(before, AskedLine(m), Marker(m.feedback));
        ConcatStep(text + ContextHeader, lines, i);
        i := i + 1;
      }
      assert lines[..|recent|] == lines;
      AppendAssoc(text, ContextHeader, Concat(lines));
    }
  }

  lemma AppendAssoc<T>(a: seq<T>, b: seq<T>, c: seq<T>)
    ensures a + b + c == a + (b + c)
  {
  }

  /** One pass of a `forEach` that pushes notes. */
  lemma NotesStep(start: seq<string>, rs: seq<Record>, i: nat, acc: seq<string>, m: Record)
    requires 0 < i <= |rs| && m == rs[i - 1] && acc == start + Notes(rs[..i - 1])
    ensures m.learningNotes.Some? && m.learningNotes.value != "" ==>
      acc + [m.learningNotes.value] == start + Notes(rs[..i])
    ensures !(m.learningNotes.Some? && m.learningNotes.value != "") ==>
      acc == start + Notes(rs[..i])
  {
    assert rs[..i][..i - 1] == rs[..i - 1];
    AppendAssoc(start, Notes(rs[..i - 1]), NoteOf(m));
  }

  /** One pass of a `+=` loop: appending part `i` to the text built from the
      parts before it gives the text built from one more part. */
  lemma ConcatStep(start: string, lines: seq<string>, i: nat)
    requires i < |lines|
    ensures start + Concat(lines[..i]) + lines[i] == start + Concat(lines[..i + 1])
  {
    assert lines[..i + 1][..i] == lines[..i];
    AppendAssoc(start, Concat(lines[..i]), lines[i]);
  }

  /** What a hit of addFeedback does to the list: the length stays, the
      record found carries the new feedback fields, every other record is as
      it was, and since ids are kept every lookup by id finds what it found
      before. */
  lemma FeedbackTouchesOne(ms: seq<Record>, i: nat, fb: Feedback, corrected: Option<string>, notes: Option<string>, x: string)
    requires i < |ms|
    ensures |ms[i := WithFeedback(ms[i], fb, corrected, notes)]| == |ms|
    ensures ms[i := WithFeedback(ms[i], fb, corrected, notes)][i] == WithFeedback(ms[i], fb, corrected, notes)
    ensures forall j :: 0 <= j < |ms| && j != i ==> ms[i := WithFeedback(ms[i], fb, corrected, notes)][j] == ms[j]
    ensures FindById(ms[i := WithFeedback(ms[i], fb, corrected, notes)], x) == FindById(ms, x)
  {
  }

  lemma FindAppended(ms: seq<Record>, m: Record)
    requires IdFresh(ms, m.id)
    ensures FindById(ms + [m], m.id) == Some(|ms|)
  {
    var r := FindById(ms + [m], m.id);
    assert (ms + [m])[|ms|].id == m.id;
  }

  /** A client exchange: one bad rating with notes
      yields an insight quoting the response and one disliked note. */
  method ScenarioBadFeedback()
  {
    var store := new ConversationMemoryService(None, None, 0);
    var id := store.SaveConversation("Tell me about yourself", "I'm Tony...", "k1", 1);
    store.AddFeedback(id, Bad, Some("Say less formally"), Some("be casual"), 2);
    var insights := store.GetLearningInsights();
    assert store.memories[0].feedback == Some(Bad);
    assert insights == [AvoidInsight("I'm Tony...")];
    assert store.profile.dislikes == ["be casual"];
    store.AddFeedback("missing", Good, None, None, 3);
    assert store.profile.dislikes == ["be casual"];
  }
}
