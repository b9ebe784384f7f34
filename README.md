# Conversation memory and response shaping, in Dafny

This project models the client-side logic of a persona chat widget. It has
two parts.

- **The conversation memory store** (`services/conversationMemory.ts`) is a
  class that holds a list of conversation records and a personality
  profile. It can:
  - append a record;
  - attach feedback to the record with a given id, and re-derive the
    profile from the notes of the rated records;
  - return the most recent records;
  - derive at most two "insights" from the first bad and the first good
    record;
  - count good and bad records;
  - build the system instruction sent to the model: the base text, then a
    learning section, then the recent conversation context.
- **Response shaping** (`components/AIResponse.tsx`) has three parts:
  - the optional "limited" mode keeps the first four sentences matched by
    `/[^.!?]+[.!?]+/g`, joins them with spaces and turns newlines into spaces;
  - the typewriter reveals the limited text one character per interval
    tick;
  - a small markdown renderer splits the text into lines, turns blank lines
    into breaks, and splits the other lines around non-greedy `**…**`
    tokens.

Modules:

- `Wrappers` (`wrappers.dfy`): `Option`.
- `Strings` (`strings.dfy`): concatenation, `join` and `split`, with their
  round trips.
- `Memory` (`memory.dfy`): the record, profile and statistics values, and
  every pure computation of the store. This includes the stable
  newest-first sort, the note folding and the instruction text.
- `MemoryStore` (`memory_store.dfy`): class `ConversationMemoryService`. Its
  fields are `memories` and `profile`, and its methods reassign them. The
  ghost field `persisted` is the last snapshot written to browser storage.
  The two `forEach` loops of the profile update and the two `+=` loops of
  the instruction are `while` loops, each proved against the function that
  specifies it.
- `ResponseText` (`response_text.dfy`): the sentence regular expression,
  written as an explicit scanner, and `getLimitedResponse`.
- `Markdown` (`markdown.dfy`): `trim`, the split of a line around bold
  tokens (JavaScript `split` keeps a captured separator), and the
  classification of each part.
- `Typewriter` (`typewriter.dfy`): class `Reveal`. It holds the state the
  effect and its interval change: `limited`, `displayed`, `typing`, the
  counter `i`, and whether the interval is set.

JavaScript behaviour is modelled explicitly:

- Truthiness: empty learning notes are skipped, and an empty limited text
  starts no reveal.
- `Array.prototype.sort` is stable.
- `slice(0, limit)` with a negative `limit` counts back from the end.
- `substring(0, 100)` keeps at most 100 characters.
- `part.slice(2, -2)` is empty for `**` and `***`.
- A regular-expression `.` does not match `\n`, `\r`, U+2028 or U+2029.
- `trim` removes the JavaScript WhiteSpace and LineTerminator characters.

Three behaviours of the code are easy to misread; the model follows the
code.

- `getRecentConversations` sorts the stored array in place
  (`services/conversationMemory.ts:61-62`), so it changes the store's order.
  The new order is not written to storage.
  `getEnhancedSystemInstruction` computes its insights before that sort, so
  they use the old store order.
- The profile is not recomputed from scratch. Each update appends the notes
  of every rated record to the lists already there.
  `AbsorbGrows` states this growth exactly.
  `NotesAppend` states that notes keep list order, and `NotesCount` that
  none is deduplicated.
- A sentence match starts right after the previous terminator, so it keeps
  the space in front of it. Joining with `' '` therefore gives two spaces
  between sentences, not one, as `DoubleSpaceExample` shows.

## Model

| member | source | states |
|---|---|---|
| Memory.FindById | services/conversationMemory.ts:49 | the index found is the first record carrying the id; there is none exactly when no record has that id |
| Memory.EmptyProfile | services/conversationMemory.ts:21-27 | the profile a store starts with: the four lists empty and `lastUpdated` the current time |
| Memory.NewRecord | services/conversationMemory.ts:35-40 | the record saveConversation stores: its id, time, prompt and response, with no feedback, corrected response or notes |
| Memory.WithFeedback | services/conversationMemory.ts:50-53 | feedback, corrected response and notes are overwritten (absent when omitted); id, timestamp, prompt and response are kept |
| Memory.Rated | services/conversationMemory.ts:68-69 | `filter` by a rating: never longer than the list, and every record kept carries that rating |
| Memory.RatedAppend | services/conversationMemory.ts:68-69 | `filter` keeps store order: the filter of `a + b` is the filter of `a` followed by that of `b` |
| Memory.RatedCount | services/conversationMemory.ts:68-69 | `filter` does not deduplicate: a record with the rating is kept as many times as it occurs, any other record not at all |
| Memory.RatedMembers | services/conversationMemory.ts:68-69 | the filter keeps exactly the records with the given feedback |
| Memory.FirstRated | services/conversationMemory.ts:73-78 | the first index with the given feedback, or none exactly when no record has it |
| Memory.RatedHead | services/conversationMemory.ts:73-78 | the filtered list is non-empty iff such a record exists, and its head is the first one in store order |
| Memory.Excerpt | services/conversationMemory.ts:74 | `substring(0, 100)`: a prefix of length min(100, length) |
| Memory.AvoidInsight | services/conversationMemory.ts:74 | the text `Avoid responses like: "`, then the first min(100, length) characters of the response, then `..."` |
| Memory.GoodInsight | services/conversationMemory.ts:78 | the text `Good responses include: "`, then the first min(100, length) characters of the response, then `..."` |
| Memory.Insights | services/conversationMemory.ts:67-82 | one entry per kind of rating present; the first is the "Avoid" text of the first bad record, the last the "Good" text of the first good record |
| Memory.InsightsBounds | services/conversationMemory.ts:67-82 | at most two insights; none exactly when every record is unrated or neutral |
| Memory.AvoidQuotesResponse | services/conversationMemory.ts:73-75 | the "Avoid" entry quotes the first 100 characters of a response rated bad, followed by `..."` |
| Memory.RatedDisjoint | services/conversationMemory.ts:166-168 | good + bad <= total |
| Memory.GetStats | services/conversationMemory.ts:165-176 | total is the list length, the counts are those of the filters, good + bad <= total, the rate is 0 for an empty store and lies in [0, 100] |
| Memory.Rate | services/conversationMemory.ts:174 | the rate is 0 when there are no records and is never negative |
| Memory.RateBounds | services/conversationMemory.ts:174 | the rate is 0 when total is 0, lies in [0, 100], and rate times total is 100 times good |
| Memory.InsertNewest | services/conversationMemory.ts:62 | inserting a record keeps every other record (as a multiset) and adds one |
| Memory.InsertMembers | services/conversationMemory.ts:62 | a record is in the result iff it is the inserted one or was in the list |
| Memory.InsertSorted | services/conversationMemory.ts:62 | inserting into a newest-first list keeps it newest first |
| Memory.SortNewest | services/conversationMemory.ts:62 | the result is a permutation of the list in non-increasing timestamp order |
| Memory.InsertKeepsTies | services/conversationMemory.ts:62 | inserting keeps the order among records with equal timestamps |
| Memory.SortNewestStable | services/conversationMemory.ts:62 | the sort is stable: the records with any given timestamp stay in their original order |
| Memory.SortNewestSorted | services/conversationMemory.ts:62 | sorting a newest-first list changes nothing, so sorting twice gives the same result as sorting once |
| Memory.SliceEnd | services/conversationMemory.ts:63 | `slice(0, end)` takes min(end, length) records, or length + end (at least 0) for a negative end |
| Memory.RecentAreNewest | services/conversationMemory.ts:60-64 | the prefix returned has min(limit, length) records, is newest first, and no record left out is newer than one returned |
| Memory.NoteOf | services/conversationMemory.ts:91-93 | a record contributes its notes iff they are present and non-empty |
| Memory.NotesMembership | services/conversationMemory.ts:90-100 | a string is pushed iff it is the non-empty notes of one of the records |
| Memory.Notes | services/conversationMemory.ts:90-100 | at most one note is pushed per record |
| Memory.RatedNotes | services/conversationMemory.ts:86-100 | a note is among those of the records rated `fb` iff some record with that rating carries it |
| Memory.NotesAppend | services/conversationMemory.ts:90-100 | notes are pushed record by record in list order: the notes of `a + b` are those of `a` followed by those of `b` |
| Memory.NotedCount | services/conversationMemory.ts:90-100 | the number of records carrying a given note is at most the number of records |
| Memory.NotesCount | services/conversationMemory.ts:90-100 | nothing is deduplicated: a non-empty note occurs among the notes once per record that carries it |
| Memory.Absorb | services/conversationMemory.ts:85-104 | the communication style and common phrases are kept, the time is stamped, and the old dislikes and preferences stay as prefixes of the new lists |
| Memory.AbsorbGrows | services/conversationMemory.ts:85-104 | dislikes and preferences grow, as multisets, by exactly the notes of the bad and good records, with no deduplication; membership iff; a length bound |
| Memory.Marker | services/conversationMemory.ts:124-128 | only good and bad records get a marker, with the two texts of the source |
| Memory.InsightLine | services/conversationMemory.ts:116 | a learning line is a new line, `- `, and then the insight, whole |
| Memory.AskedLineShape | services/conversationMemory.ts:123 | a context line begins with a new line, `- User asked: "`, the prompt, whole, and a closing `"` |
| Memory.ContextLineShape | services/conversationMemory.ts:123-128 | a context line is the quoted prompt, followed by the good marker for a good record, the bad marker for a bad one, and nothing for any other record |
| Memory.LearningSection | services/conversationMemory.ts:113-118 | empty iff there are no insights; otherwise it starts with the learning header |
| Memory.ContextSection | services/conversationMemory.ts:120-130 | empty iff there are no records; otherwise it starts with the context header |
| Memory.Instruction | services/conversationMemory.ts:107-133 | the base text, followed by the learning section and then the context section, each whole and in that order |
| Memory.LearningSectionHasLine | services/conversationMemory.ts:113-118 | every insight's line appears in the learning section, after the header and the lines before it |
| Memory.ContextSectionHasLine | services/conversationMemory.ts:120-130 | every record's "User asked" line (with its marker) appears in the context section, after the header and the lines before it |
| MemoryStore.ConversationMemoryService.constructor | services/conversationMemory.ts:141-158 | each stored blob that is present replaces the empty default; nothing is written |
| MemoryStore.ConversationMemoryService.SaveToStorage | services/conversationMemory.ts:136-139 | the whole list and profile are written as one snapshot |
| MemoryStore.ConversationMemoryService.SaveConversation | services/conversationMemory.ts:34-45 | exactly one record without feedback is appended; the profile is untouched; the new state is persisted; with a fresh id, a lookup finds the new record and distinct ids stay distinct |
| MemoryStore.ConversationMemoryService.AddFeedback | services/conversationMemory.ts:48-57 | a miss changes nothing, not even storage; a hit replaces only the first record with that id by its rated copy, re-derives the profile and persists |
| MemoryStore.ConversationMemoryService.UpdatePersonalityProfile | services/conversationMemory.ts:85-104 | the record list is untouched; the profile becomes the old one with all the notes of the bad and good records appended, in list order, and a new timestamp; this state is persisted |
| MemoryStore.ConversationMemoryService.GetRecentConversations | services/conversationMemory.ts:60-64 | the stored list becomes its stable newest-first sort (not persisted), and the result is its `slice(0, limit)` prefix, with `limit` 10 by default |
| MemoryStore.ConversationMemoryService.GetLearningInsights | services/conversationMemory.ts:67-82 | the insights of the current store order, at most two |
| MemoryStore.ConversationMemoryService.GetStats | services/conversationMemory.ts:165-176 | the statistics of the current list, good + bad <= total |
| MemoryStore.ConversationMemoryService.GetEnhancedSystemInstruction | services/conversationMemory.ts:107-133 | the text is the base, then the learning section of the insights taken before the sort, then the context section of the first five records after it; the list is left sorted |
| MemoryStore.AppendLearning | services/conversationMemory.ts:113-118 | the `+=` loop appends exactly the learning section |
| MemoryStore.AppendContext | services/conversationMemory.ts:120-130 | the `+=` loop, with its good/bad branches, appends exactly the context section |
| MemoryStore.FeedbackTouchesOne | services/conversationMemory.ts:49-53 | overwriting the record found keeps the length and every other record, and every lookup by id finds what it found before |
| MemoryStore.FindAppended | services/conversationMemory.ts:36-42 | a record appended with a fresh id is found at the end |
| Strings.Split | components/AIResponse.tsx:52 | at least one piece; no piece holds the separator; one more piece than separators |
| Strings.Join | components/AIResponse.tsx:23 | `join`: the empty list gives "" and a one-element list gives its element, with no separator |
| Strings.JoinLength | components/AIResponse.tsx:23 | a non-empty list joins to the length of its elements plus one separator between each neighbouring pair |
| Strings.JoinSplit | components/AIResponse.tsx:52 | joining the pieces of `split` with the separator gives back the text |
| Strings.SplitJoin | components/AIResponse.tsx:52 | splitting a join of separator-free pieces gives back the pieces |
| ResponseText.RunEnd | components/AIResponse.tsx:22 | the end of the maximal run of terminators, or of other characters |
| ResponseText.Scan | components/AIResponse.tsx:22 | every scanned span lies within the text, at or after the start |
| ResponseText.FirstSpanMatches | components/AIResponse.tsx:22 | at a character other than a terminator, the span taken is a match of the pattern |
| ResponseText.ScanMatches | components/AIResponse.tsx:22 | every span is a match: a maximal non-empty run of other characters, then a maximal non-empty run of terminators |
| ResponseText.ScanGap | components/AIResponse.tsx:22 | only terminators come before the first match |
| ResponseText.ScanAdjacent | components/AIResponse.tsx:22 | each match starts where the previous one ends: left to right, no overlap |
| ResponseText.ScanComplete | components/AIResponse.tsx:22 | after the last match no other character is directly followed by a terminator, so the pattern matches no more |
| ResponseText.Sentences | components/AIResponse.tsx:22 | one sentence per match, each the text of its span |
| ResponseText.SentenceShape | components/AIResponse.tsx:22 | each sentence is non-empty, ends in `.`, `!` or `?`, and is followed directly by the next one |
| ResponseText.NoSentencesIff | components/AIResponse.tsx:22 | there is no match iff no character other than a terminator is directly followed by one |
| ResponseText.Chosen | components/AIResponse.tsx:22-23 | the first min(4, n) sentences, or the whole text when nothing matches |
| ResponseText.ReplaceNewlines | components/AIResponse.tsx:23 | every `\n` becomes a space and nothing else changes |
| ResponseText.ReplaceWithoutNewlines | components/AIResponse.tsx:23 | a text without newlines is unchanged |
| ResponseText.LimitedResponse | components/AIResponse.tsx:19-24 | with the mode off, the text unchanged; with it on, the chosen sentences joined by single spaces with newlines turned into spaces, so no newline remains |
| ResponseText.ExampleScan | components/AIResponse.tsx:22 | the scan of `Hi. Yo.` gives two adjacent matches |
| ResponseText.ExampleSentences | components/AIResponse.tsx:22 | the matches of `Hi. Yo.` are `Hi.` and ` Yo.` |
| ResponseText.DoubleSpaceExample | components/AIResponse.tsx:22-23 | the limited form of `Hi. Yo.` is `Hi.  Yo.`, with two spaces |
| Markdown.TrimStart | components/AIResponse.tsx:53 | only leading whitespace is removed, all of it |
| Markdown.TrimEnd | components/AIResponse.tsx:53 | only trailing whitespace is removed, all of it |
| Markdown.Trim | components/AIResponse.tsx:53 | no longer than the line, and empty or starting and ending with a character that is not whitespace |
| Markdown.TrimBlank | components/AIResponse.tsx:53 | `trim()` is empty iff the line is all whitespace |
| Markdown.CloseFrom | components/AIResponse.tsx:54 | the lazy close is the first `**` from the body start, with no line terminator or earlier `**` before it; if there is none, every later `**` has a line terminator before it |
| Markdown.NoBoldFrom | components/AIResponse.tsx:54 | without an opening `**`, or without a lazy close after it, no bold token starts at that position |
| Markdown.MatchAt | components/AIResponse.tsx:54 | a match is a bold token of length at least 4; with no match, no prefix of the rest of the line from that position is a bold token |
| Markdown.Parts | components/AIResponse.tsx:54 | an odd number of parts |
| Markdown.PartsTokens | components/AIResponse.tsx:54 | every second part is a bold token |
| Markdown.LinePartsRebuild | components/AIResponse.tsx:54 | for every line: an odd number of parts that concatenate back to the line, every second one a bold token |
| Markdown.PartsFirst | components/AIResponse.tsx:54 | the first part is the text from the start up to a position at or after the search point; a lone part runs to the end of the line |
| Markdown.PartsNoEarlierMatch | components/AIResponse.tsx:54 | the pattern matches nowhere between the search point and the end of the first part |
| Markdown.PartsSkip | components/AIResponse.tsx:54 | positions where the pattern does not match leave the split unchanged |
| Markdown.PartsAtMatch | components/AIResponse.tsx:54 | where the pattern matches, the first part of the split ends exactly there and the second part is that match |
| Markdown.PartsNextMatch | components/AIResponse.tsx:54 | when the split has a second part, the pattern matches exactly where the first part ends, and the match is that second part |
| Markdown.PartsLeftmost | components/AIResponse.tsx:54 | the split is leftmost and lazy: the first part is a slice of the line up to the first position where the pattern matches, no match starts before it, the second part is exactly that match, and a lone part runs to the end of the line |
| Markdown.PartsTail | components/AIResponse.tsx:54 | after the first text and the first token, the rest of the split is the split of the line started afresh where that token ends |
| Markdown.PartsConcat | components/AIResponse.tsx:54 | the parts concatenate back to the line |
| Markdown.PartsWithoutStars | components/AIResponse.tsx:54 | a line without `*` is a single part |
| Markdown.RenderPart | components/AIResponse.tsx:57-64 | any part that starts and ends with `**` is shown bold, as `slice(2, -2)`, which is empty for `**` and `***`; a bold token is shown bold without its markers; a `* ` part is a bullet without its marker; a part is plain, and unchanged, exactly when it neither starts with `* ` nor starts and ends with `**` |
| Markdown.Inner | components/AIResponse.tsx:59 | the markers around the text of a bold token restore the token |
| Markdown.RenderLine | components/AIResponse.tsx:53-67 | a line is a break iff it is all whitespace |
| Markdown.RenderParts | components/AIResponse.tsx:57-65 | one piece per part, in order |
| Markdown.Render | components/AIResponse.tsx:51-69 | one node per newline-separated line |
| Markdown.ParagraphShape | components/AIResponse.tsx:53-65 | a line that is not blank is a paragraph whose parts rebuild it; there is an odd number of parts, and every second one is a bold token shown as its inner text |
| Markdown.SingleLine | components/AIResponse.tsx:52 | a text without newlines is one line |
| Markdown.BoldExampleParts | components/AIResponse.tsx:54 | `**hi**` splits into an empty part, the token, and an empty part |
| Markdown.BoldExample | components/AIResponse.tsx:54-64 | `**hi**` renders as plain "", bold `hi`, plain "" |
| Typewriter.Frames | components/AIResponse.tsx:36-46 | one frame per remaining character and one more for the tick that ends the reveal |
| Typewriter.FramesArePrefixes | components/AIResponse.tsx:36-46 | the values shown are prefixes, each one character longer than the last, up to the whole text, which is shown once more on the final tick |
| Typewriter.Reveal.constructor | components/AIResponse.tsx:15-16 | nothing is shown and nothing is typing |
| Typewriter.Reveal.Start | components/AIResponse.tsx:26-35 | limited is getLimitedResponse of the response; an empty one shows "" and starts no reveal; otherwise typing starts at 0 with "" shown |
| Typewriter.Reveal.Tick | components/AIResponse.tsx:37-45 | at the end the interval stops, typing ends and the whole text shows; before it, `i` grows by exactly one and the prefix of length `i` shows; the invariant `i <= |limited|` is kept |
| Typewriter.Reveal.RunToEnd | components/AIResponse.tsx:36-46 | ticking to the end shows exactly the frames from the current counter, and leaves the whole text shown with typing off and the counter at the text length; when no reveal is running nothing is shown and the counter is kept |

## Left out

- Browser storage and JSON are not modelled. `persisted` is a ghost snapshot
  of the two blobs after each write. The model does not capture that
  `JSON.parse` throws on malformed data, or that timestamps come back from
  a string.
- `generateId` (`Date.now` and `Math.random`) and `new Date()` are replaced
  by parameters. The code promises no unique ids, so uniqueness appears
  only as a condition inside contracts.
- Memory.Rate: `learningRate` is an exact rational, with no floating-point
  rounding.
- Strings are sequences of Unicode characters, not UTF-16 code units. So
  `substring(0, 100)` and `length` count characters, not code units.
- MemoryStore.ConversationMemoryService.GetRecentConversations: the array
  returned is a copy. The model does not capture that in JavaScript it
  shares its record objects with the store.
- The 18 ms `setInterval` timing, the cleanup on unmount, and the
  interleaving of ticks with a new response are not modelled. Ticks are
  method calls, and a new response is a call of `Start`.
- The JSX and CSS output is not modelled. A rendered line is a `Node` of
  `Piece`s.
- These files are not part of this model:
  - `services/geminiService.ts`, the network client;
  - the `App.tsx` submit handler;
  - the UI components;
  - `constants.ts`.
