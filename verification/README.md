# Verified model of the AI candidate paths of this input method

The repository adds two things to the Mozc converter. A **reranker** sends the candidates of the last
segment to a local daemon and moves the answer to the front. An **asynchronous rewriter** shows candidates
that a language model has produced in the background and that a cache holds. This project models both in
Dafny and proves what they are built for: never lose or invent a candidate, keep Mozc's order on any trouble,
and never show an answer that belongs to another reading or that has expired. Where the code falls short of
that, the model says exactly when.

## How the model is laid out

| files | what they model |
|---|---|
| `Text`, `Utf8`, `ContextClip`, `ReadingShape` | the hand-written UTF-8 coder, the text cleaner and the normalised reading: every pass is a loop over the text, proved against a matcher and one substitution function |
| `PyRegex`, `PyContext` | the regular expressions of the daemon under backtracking, leftmost-greedy semantics, and the daemon's cleaner |
| `PatternMeaning`, `SpaceSqueeze`, `CleanAgreement`, `LinkPass`, `MarkPasses`, `MarkAgreement`, `CleanLimits`, `CleanShape`, `Subsequence` | both cleaners compute the same, and where that ends; what the result looks like |
| `Guard`, `GuardAgreement`, `Ranking`, `Daemon`, `Reorder`, `Degrade`, `RerankRewriter`, `HookInput`, `FailSafe` | the guard, the margin gate and the ranking, the daemon's `rerank`, the in-place reordering, the degrade tiers, the whole call and what it asks, and runs of calls |
| `Json`, `Request`, `Find`, `HookResponse`, `ResponseText`, `ResponseRoundTrip`, `EndToEnd`, `FieldNames` | the two printer and parser pairs between client and daemon, the whole way from one to the other and back, and requests whose candidates are field names |
| `Cache`, `Worker`, `WorkerStats`, `AiRewriter`, `AsyncSystem`, `AsyncRuns` | the bounded cache with time to live, the bounded queue and its thread, the rewriter, and all interleavings of them |
| `Config`, `ConfigText`, `ConfigValues`, `ConfigRoundTrip`, `ConfigAbsent` | the configuration file: where a key leads in its text, what the readers make of what stands there, the round trip, and absent keys |

C++ objects whose methods change fields are classes with those fields; their methods state the new state as a
function of the old one, and the theorems are about that function. Loops are loops. Concurrency is a
transition system over atomic steps: a step is the code between two points at which another thread can be
seen. The clock, the daemon and the backend are parameters, so a theorem holds for every value they can take.
In the text modules bytes and code points are integers; in the JSON, cache and configuration modules a
`char` stands for one byte.

## What was found

- The two cleaners agree on all plain texts exactly for the bounds from zero up: for a negative one Python
  drops characters from the front and C++ does not (`CleanLimits.CleanersAgreeForBound`). An empty link is
  removed by one and kept by the other (`CleanLimits.CleanersDifferOnEmptyLink`); their link passes differ
  exactly when the scan meets a link with an empty label or a leading pipe (`LinkPass.LinkPassesAgree`), and
  their edit passes when a mark has an unusual space or letter (`MarkAgreement.EditPassesAgree`). The
  heading regex splits a run of four or more equals signs, the C++ scanner never does; the later passes hide
  the difference.
- The margin gate and the daemon rank differently exactly when a surface that the daemon calls junk wins by
  the margin (`Ranking.RankingsAgree`, `Ranking.KatakanaWins`). Their `overwritten` flags differ in one more
  case, when the best surface repeats the first one (`Ranking.FlagsAgree`).
- The client looks for a field of the answer by its quoted name and the next colon. When a surface shows the
  name, that is the first colon inside a later surface, or, without one, the colon of `rerank_top1`. A list
  that holds `rerank_top1` and no colon behind it is therefore read correctly, one with `a:b` behind it is
  not (`ResponseRoundTrip.RoundTrip`, `FieldNames.FieldNameIsSent`). The list itself is always exact, so the
  order of the daemon is lost only when the flag and the final choice read as a junk overwrite, which does
  happen (`EndToEnd.EndToEnd`, `FieldNames.FieldNameKeepsOrder`).
- The cache keeps within its bound exactly when the bound is at least one (`Cache.BoundHoldsExactly`): a bound
  of zero keeps the entry put last (`Cache.ZeroKeepsTheLast`), and a negative one is cast to a huge number and
  never evicts (`Cache.NegativeNeverEvicts`).
- Stop turns the flag off without the queue's lock, so the worker can take one more request: the one whose
  check had passed (`Worker.OneMoreExactly`, `Worker.StopBetween`).
- With the context in the cache key, an answer for one reading can be shown for another exactly when one
  reading is the other with a bar and more behind it (`AsyncSystem.MixUpExactly`).
- A configuration string that is the key of a line further down makes the parser read the line after the
  string; when the key is that of the very next line, this is the right one
  (`ConfigRoundTrip.KeyAsValue`, `ConfigRoundTrip.NextKeyIsHarmless`).

## Model

| member | source | states |
|---|---|---|
| `Utf8.Utf8ToU32` | mozc_compat/context_clip.cc:23-53 | the decoding loop computes Decode, unit by unit, skipping a byte where no unit begins |
| `Utf8.U32ToUtf8` | mozc_compat/context_clip.cc:55-76 | the encoding loop computes Encode |
| `Utf8.DecodeEncode` | mozc_compat/context_clip.cc:23-76 | decoding undoes encoding for all code points below 0x200000 |
| `Utf8.EncodeDecodeExact` | mozc_compat/context_clip.cc:23-76 | encoding undoes decoding exactly on the bytes made of canonical units (surrogates and 21-bit values included) |
| `Utf8.EncodeDecodeWellFormed` | mozc_compat/context_clip.cc:23-76 | in particular on every text well formed under section 4 of RFC 3629 |
| `Utf8.RepairIdempotent` | mozc_compat/context_clip.cc:23-76 | on arbitrary bytes, decoding and encoding a second time changes nothing |
| `Utf8.EncodePreservesOrder` | mozc_compat/context_clip.cc:55-76 | byte order of two encodings is code-point order of the texts, in both directions (section 1 of RFC 3629) |
| `Utf8.StrayOctetDropped` | mozc_compat/context_clip.cc:23-53 | an octet that begins no unit is dropped and the text behind it is read unharmed |
| `ContextClip.StripWikiEdit` | mozc_compat/context_clip.cc:132-166 | the scanner replaces leftmost edit marks as Substitute does with the matcher EditMark |
| `ContextClip.StripWikiHeading` | mozc_compat/context_clip.cc:169-202 | the same for headings; a failed look-ahead copies one character |
| `ContextClip.StripWikiLink` | mozc_compat/context_clip.cc:205-229 | the same for links, keeping the label |
| `ContextClip.StripWikiRef` | mozc_compat/context_clip.cc:232-276 | the same for numbered references and ref tags |
| `ContextClip.StripEqRun` | mozc_compat/context_clip.cc:279-298 | the same for runs of two or more equals signs |
| `ContextClip.StripBullets` | mozc_compat/context_clip.cc:305-331 | the bullet scanner replaces each run between boundaries, keeping the space before it |
| `ContextClip.CollapseSpaces` | mozc_compat/context_clip.cc:333-358 | one space for each run of space-like characters, none at either end |
| `ContextClip.BreaksToSpaces` | mozc_compat/context_clip.cc:368-372 | CR, LF and TAB become spaces |
| `ContextClip.CutSentence` | mozc_compat/context_clip.cc:383-398 | what follows the last sentence end, without leading spaces |
| `ContextClip.CleanContext` | mozc_compat/context_clip.cc:362-403 | the whole cleaner, on bytes, is Encode of CleanU32 of the decoded text |
| `ContextClip.ClipContextPrev` | mozc_compat/context_clip.cc:405-416 | cleaning of the text before a code-point position |
| `ContextClip.NormalizeReading` | mozc_compat/context_clip.cc:418-439 | katakana becomes hiragana, everything else stays, on the repaired text |
| `ContextClip.NormalizeReadingIdempotent` | mozc_compat/context_clip.cc:418-439 | normalising twice is normalising once |
| `ReadingShape.CharByChar` | mozc_compat/context_clip.cc:418-439 | on any bytes, character by character: full-width ASCII, the ideographic space and katakana change as they should, everything else stays |
| `ReadingShape.NoVariantLeft` | mozc_compat/context_clip.cc:418-439 | none of these is left |
| `ReadingShape.StaysExactly` | mozc_compat/context_clip.cc:418-439 | a text comes back unchanged if and only if it has none of them |
| `ReadingShape.HiraganaStays` | mozc_compat/context_clip.cc:418-439 | in particular hiragana and ASCII |
| `ReadingShape.KatakanaFolds` | mozc_compat/context_clip.cc:432-435 | the encoding of katakana comes back as that of the hiragana 0x60 below |
| `ReadingShape.NothingToShift` | runtime/rerank_daemon.py:78-83 | the daemon's katakana step changes nothing in what the client sends |
| `ReadingShape.ShiftIsNormalisation` | runtime/rerank_daemon.py:82-82 | and is the client's step, apart from what NFKC does |
| `PatternMeaning.MatchHeading` | runtime/rerank_daemon.py:43-43 | a backtracking leftmost-greedy match of the heading regex at any position is PyHeading there |
| `PatternMeaning.MatchBullet` | runtime/rerank_daemon.py:46-46 | the same for the bullet regex with its look-ahead |
| `PatternMeaning.SubHeading` | runtime/rerank_daemon.py:64-64 | re.sub with the heading regex is the substitution by PyHeading |
| `PatternMeaning.SubBullets` | runtime/rerank_daemon.py:68-68 | re.sub with the bullet regex, from any position |
| `PatternMeaning.SubEqRun` | runtime/rerank_daemon.py:67-67 | re.sub with the equals-run regex is what the C++ scanner computes |
| `PatternMeaning.SubSpaces` | runtime/rerank_daemon.py:69-69 | re.sub with the space regex squeezes runs |
| `PatternMeaning.SubWithoutBrackets` | runtime/rerank_daemon.py:63-66 | without [ and < the edit, link and reference regexes change nothing |
| `PyContext.SameClasses` | runtime/rerank_daemon.py:41-48 | the bracketed classes of the patterns are the character classes of the scanners |
| `SpaceSqueeze.SqueezeRuled` | mozc_compat/context_clip.cc:169-202 | squeezing spaces before or after the equals passes gives the same |
| `SpaceSqueeze.SqueezeBullets` | mozc_compat/context_clip.cc:305-331 | and so it does around the bullet pass |
| `SpaceSqueeze.HeadingSqueeze` | mozc_compat/context_clip.cc:169-202 | a heading is found at the same place in the squeezed text, and leaves the same rest |
| `CleanAgreement.CppRuled` | mozc_compat/context_clip.cc:169-298 | C++ headings then equals runs: every maximal run of two or more becomes one space, with the heading it opens |
| `CleanAgreement.PyRuled` | runtime/rerank_daemon.py:64-67 | Python headings then equals runs come to the same function, although the regex splits one long run |
| `CleanAgreement.BulletsAgree` | runtime/rerank_daemon.py:68-68 | the two bullet passes agree after squeezing, although the regex eats the preceding space |
| `CleanAgreement.BreaksAgree` | runtime/rerank_daemon.py:60-61 | the two treatments of line breaks agree after squeezing |
| `CleanAgreement.ScannedAgree` | mozc_compat/context_clip.cc:362-382 | all passes together agree after squeezing on plain texts |
| `CleanAgreement.CleanersAgree` | runtime/rerank_daemon.py:57-75 | on every plain text the C++ and the Python cleaner agree if and only if max_chars >= 0 or the C++ result is empty |
| `CleanAgreement.CleanersAgreeOnBytes` | runtime/rerank_daemon.py:57-75 | the same on well-formed UTF-8 bytes |
| `CleanLimits.CleanersAgreeForBound` | runtime/rerank_daemon.py:57-75 | for a given max_chars the two cleaners agree on all plain texts if and only if max_chars >= 0 |
| `CleanLimits.CleanersDifferOnEmptyLink` | runtime/rerank_daemon.py:44-75 | an empty link is why plainness is needed: for every bound from zero up the C++ cleaner makes nothing of it, the Python cleaner keeps it |
| `LinkPass.MatchLink` | runtime/rerank_daemon.py:44-44 | a backtracking match of the link regex at any position, with the span of its group |
| `LinkPass.SubLink` | runtime/rerank_daemon.py:65-65 | re.sub with the link regex and its group, on every text |
| `LinkPass.LinkHere` | mozc_compat/context_clip.cc:205-229 | the scanner and the regex take the same link with the same label, unless the label is empty or a pipe stands first |
| `LinkPass.LinkPassesAgree` | runtime/rerank_daemon.py:65-65 | on every text the two link passes agree if and only if the scan meets no link whose label is empty or begins with a pipe |
| `MarkPasses.MatchEdit` | runtime/rerank_daemon.py:42-42 | a backtracking match of the edit regex at any position |
| `MarkPasses.SubEdit` | runtime/rerank_daemon.py:62-62 | re.sub with the edit regex, on every text |
| `MarkPasses.MatchRef` | runtime/rerank_daemon.py:45-45 | a backtracking match of the reference regex, numbers and tags, at any position |
| `MarkPasses.SubRef` | runtime/rerank_daemon.py:66-66 | re.sub with the reference regex, on every text |
| `MarkAgreement.EditHere` | mozc_compat/context_clip.cc:132-166 | the scanner takes an edit mark of the regex if and only if it has no space that only Python knows and no letter that it takes for an i |
| `MarkAgreement.EditPassesAgree` | runtime/rerank_daemon.py:62-62 | on every text the two edit passes agree if and only if the regex meets no other mark |
| `MarkAgreement.NumberHere` | mozc_compat/context_clip.cc:237-248 | the scanner takes a numbered reference of the regex if and only if its digits are ASCII |
| `MarkAgreement.TagHere` | mozc_compat/context_clip.cc:249-271 | the scanner takes a tagged reference of the regex if and only if a greater sign, a space or a slash ends its name |
| `MarkAgreement.RefPassesAgree` | runtime/rerank_daemon.py:66-66 | the two reference passes agree on every text in which the regex meets no other reference |
| `MarkAgreement.NumberPassesAgree` | runtime/rerank_daemon.py:66-66 | on texts without tags, if and only if it meets none |
| `CleanShape.CleanContextShape` | mozc_compat/context_clip.cc:362-403 | on any bytes: length bound, no sentence end, no break, no adjacent spaces or equals signs, no trailing space, and the ink is a subsequence of the input's |
| `CleanShape.CleanIsSubsequence` | mozc_compat/context_clip.cc:362-403 | the cleaner invents and reorders no visible character |
| `CleanShape.CleanTidy` | mozc_compat/context_clip.cc:362-403 | the shape on code points |
| `CleanShape.CleanAgain` | mozc_compat/context_clip.cc:362-403 | on unmarked texts a second cleaning only drops a leading space and a third changes nothing |
| `CleanShape.CleanContextAgain` | runtime/rerank_daemon.py:170-170 | the same on bytes, as when the daemon cleans what the client has cleaned |
| `Guard.NextCodepoint` | mozc_compat/rerank_guard.cc:25-57 | one step of the guard's own UTF-8 reader |
| `Guard.CpsEncode` | mozc_compat/rerank_guard.cc:25-57 | the guard's reader recovers every encoded text |
| `Guard.ReadersAgree` | mozc_compat/rerank_guard.cc:25-57 | on canonical bytes the guard's reader and the cleaner's decoder agree |
| `Guard.StrayOctet` | mozc_compat/rerank_guard.cc:50-54 | one octet too many costs one replacement character, and the text behind it is read unharmed |
| `Guard.Utf8CodepointLength` | mozc_compat/rerank_guard.cc:110-118 | the number of units read |
| `Guard.HasLinguisticContent` | mozc_compat/rerank_guard.cc:120-130 | true exactly when some unit is a letter, kana or kanji |
| `Guard.ContextEmptyOrSymbol` | mozc_compat/rerank_guard.cc:132-150 | true exactly when none is |
| `Guard.IsJunkSurface` | mozc_compat/rerank_guard.cc:152-180 | empty, old kanji, all half-width block, or nothing but katakana and blanks |
| `Guard.JunkAgrees` | runtime/rerank_daemon.py:101-115 | C++ junk is Python junk; the converse holds without unusual spaces, and a difference needs one beside kana |
| `Guard.SameJunkClasses` | runtime/rerank_daemon.py:101-115 | the lists and ranges of the daemon's check are those of the client's |
| `Guard.TableSorted` | mozc_compat/rerank_guard.cc:182-190 | a table sorted by code point is sorted by bytes, as the binary search needs |
| `Guard.IsEligibleReading` | mozc_compat/rerank_guard.cc:182-190 | the strcmp binary search finds a reading, cut at its first NUL, exactly when the table holds it |
| `Guard.EligibilityExact` | mozc_compat/rerank_guard.cc:182-190 | that is membership of the whole reading if and only if it has no NUL or its cut is not in the table |
| `Guard.RerankSkipReason` | mozc_compat/rerank_guard.cc:202-217 | the guard's decision, in the order of its tests |
| `Guard.LetThroughExactly` | mozc_compat/rerank_guard.cc:202-217 | a reading without NUL passes the guard if and only if it has three characters, the context has a letter, kana or kanji, and, when strict, the reading is one of the words; and which reason is given otherwise |
| `Guard.EmptyContextSkips` | mozc_compat/rerank_guard.cc:202-217 | with guards on an empty context always skips |
| `GuardAgreement.SameScripts` | runtime/rerank_daemon.py:86-98 | apart from Latin letters and what Python calls a letter, client and daemon count the same characters |
| `GuardAgreement.GuardsAgree` | runtime/rerank_daemon.py:118-127 | when they call the same characters letters, the daemon passes over a request exactly when the client's guard without its table does |
| `GuardAgreement.DaemonSkipsLikeTheClient` | runtime/rerank_daemon.py:168-178 | also behind the daemon's own cleaning and normalising of what the client sends |
| `Ranking.RankingUnique` | mozc_compat/rerank_margin.h:75-78 | a permutation by falling score with ties in place is unique |
| `Ranking.StableSort` | mozc_compat/rerank_margin.h:70-78 | the stable sort yields that ranking |
| `Ranking.SortedReverseRanks` | runtime/rerank_daemon.py:194-194 | sorted(reverse=True) yields it too |
| `Ranking.ArgMax` | mozc_compat/rerank_margin.h:25-33 | the first of the greatest scores |
| `Ranking.ApplyMargin` | mozc_compat/rerank_margin.h:35-65 | the margin gate, with its refusals |
| `Ranking.GateExactly` | mozc_compat/rerank_margin.h:45-65 | wherever Mozc's candidate stands, the best one replaces it if and only if it is another surface and ahead by tau |
| `Ranking.GateWithoutMozc` | mozc_compat/rerank_margin.h:38-56 | without Mozc's candidate nothing is replaced |
| `Ranking.RankedSurfaces` | mozc_compat/rerank_margin.h:68-87 | the final choice, then the others by rank |
| `Ranking.RankingsAgree` | runtime/rerank_daemon.py:187-197 | C++ and Python agree on the final choice and the whole list if and only if the best candidate does not win by the margin, is the first surface, or is no junk to the daemon; on the reranker's own choice always |
| `Ranking.KatakanaWins` | runtime/rerank_daemon.py:190-194 | two candidates on which they differ: a katakana one wins by the margin |
| `Ranking.FlagsAgree` | runtime/rerank_daemon.py:192-206 | exactly when the two overwritten flags agree: they differ on a repeated best surface or a junk one |
| `Ranking.RankedContents` | mozc_compat/rerank_margin.h:68-87 | the ranked list holds the final choice once and every other surface as often as it was offered |
| `Degrade.TimeoutBlock` | mozc_compat/rerank_rewriter.cc:404-413 | the tier and the counters after k failures in a row |
| `Degrade.SuccessBlock` | mozc_compat/rerank_rewriter.cc:415-424 | the tier and the counters after k successes in a row |
| `Degrade.RunBlocks` | mozc_compat/rerank_rewriter.cc:404-424 | each maximal block of k moves the tier by k div 5, clamped at 4 and 0 |
| `Degrade.TierClosedForm` | mozc_compat/rerank_rewriter.cc:404-424 | the same for every sequence of outcomes from the start, with the bound on failures |
| `Degrade.FailuresPayForTiers` | mozc_compat/rerank_rewriter.cc:404-424 | 5 * tier + consecutive timeouts never grows by more than the failures |
| `Reorder.Segment.MoveCandidate` | mozc_compat/rerank_rewriter.cc:713-737 | the move that ReorderSegment asks for (Mozc's own segment is not part of the repository) |
| `Reorder.FindCandidate` | mozc_compat/rerank_rewriter.cc:723-731 | the first candidate with the value at or behind the target |
| `Reorder.ReorderSegment` | mozc_compat/rerank_rewriter.cc:713-737 | the in-place loop computes Reordered and returns whether the values changed |
| `Reorder.ReorderedPermutes` | mozc_compat/rerank_rewriter.cc:713-737 | for any ranked list the result is a permutation |
| `Reorder.ReorderedOwnHead` | mozc_compat/rerank_rewriter.cc:485-491 | ranking the head as it is changes nothing |
| `Reorder.ReorderedFront` | mozc_compat/rerank_rewriter.cc:713-737 | when ranked is a sub-multiset of the first n values: the front is ranked, the other head candidates keep their order, the tail stays |
| `RerankRewriter.RerankRewriter.constructor` | mozc_compat/rerank_rewriter.cc:303-303 | the counters start at zero, without a pending log |
| `RerankRewriter.RerankRewriter.NoteTimeout` | mozc_compat/rerank_rewriter.cc:404-413 | the counters move as AfterTimeout says |
| `RerankRewriter.RerankRewriter.NoteSuccess` | mozc_compat/rerank_rewriter.cc:415-424 | the counters move as AfterSuccess says |
| `RerankRewriter.RerankRewriter.CallHookWithTimeout` | mozc_compat/rerank_rewriter.cc:602-625 | one outcome of the hook, noted once |
| `RerankRewriter.RerankRewriter.CollectNBest` | mozc_compat/rerank_rewriter.cc:485-491 | the first candidates up to the effective cap |
| `RerankRewriter.RerankRewriter.CollectTops` | mozc_compat/rerank_rewriter.cc:497-510 | the tops of the segments, run together |
| `RerankRewriter.RerankRewriter.CollectContext` | mozc_compat/rerank_rewriter.cc:493-514 | surrounding text or history, the preceding segments, cleaned to the effective length |
| `RerankRewriter.RerankRewriter.AskAndReorder` | mozc_compat/rerank_rewriter.cc:536-566 | a failure or an empty answer changes nothing; otherwise the checked answer reorders the segment and is logged |
| `RerankRewriter.RerankRewriter.Rerank` | mozc_compat/rerank_rewriter.cc:515-566 | the guard in front of it: a skip is logged and nothing else happens |
| `RerankRewriter.RerankRewriter.RewriteLast` | mozc_compat/rerank_rewriter.cc:473-566 | the work on the last segment |
| `RerankRewriter.RerankRewriter.Rewrite` | mozc_compat/rerank_rewriter.cc:460-567 | the whole state after one call is Rewritten of the state before; only the last segment may change |
| `RerankRewriter.StateAfter` | mozc_compat/rerank_rewriter.cc:602-625 | the counters change exactly by the outcome of the hook call, if there was one |
| `HookInput.ContextSent` | mozc_compat/rerank_rewriter.cc:493-514 | the context is cleaned out of the application's text, or of the history's tops when there is none, followed by the tops of the other segments in their order |
| `HookInput.TidyCleaned` | mozc_compat/rerank_rewriter.cc:434-443 | of a tidy text the last characters stay: as many as configured, 20 at tier 2, none from tier 3 on |
| `HookInput.ContextEndsWithTop` | mozc_compat/rerank_rewriter.cc:505-513 | so the context ends with the top of the segment before the last |
| `HookInput.SurfacesSent` | mozc_compat/rerank_rewriter.cc:485-491 | the first surfaces of the last segment, at most 15 from tier 1 on |
| `HookInput.HookIsAsked` | mozc_compat/rerank_rewriter.cc:460-540 | when the hook is called, and with what: stated by the segments and the words of the table |
| `HookInput.AskedIsEligible` | mozc_compat/rerank_guard.cc:213-216 | under the strict guard, on any bytes, only readings of the table are asked for |
| `FailSafe.RewriteFailSafe` | mozc_compat/rerank_rewriter.cc:460-567 | whatever the hook answers: a permutation, and true exactly when the values changed |
| `FailSafe.TroubleKeepsOrder` | mozc_compat/rerank_rewriter.cc:466-551 | disabled, degraded, skipped, failed, empty or junk: the order stays and the result is false |
| `FailSafe.AnswerMovesOnlyTheHead` | mozc_compat/rerank_rewriter.cc:553-553 | an answer made of the offered surfaces is put on top of the head and leaves the rest in order |
| `Daemon.AnswerIsDrawn` | runtime/rerank_daemon.py:168-207 | over every path of rerank, empty candidates, cap, refusal and guard skip included: the list is made of offered surfaces, none more often than offered, the final choice first, and no choice is empty |
| `Daemon.NeverJunk` | runtime/rerank_daemon.py:193-194 | rerank never overwrites with what the client's guard calls junk |
| `Daemon.SkippedAnswer` | runtime/rerank_daemon.py:171-186 | on the skip path the first non-empty candidates come back in their order, as many as the cap allows |
| `Daemon.RefusedExactly` | runtime/rerank_daemon.py:169-191 | an answer has no candidates exactly when the request is unreadable, has no reading or no candidate, or cannot be scored |
| `FailSafe.DaemonDecides` | runtime/rerank_daemon.py:168-228 | with rerank behind the hook, whatever it answers: without candidates the order stays, otherwise its list comes out on the head with its final choice first |
| `FailSafe.LogTellsTheOutcome` | mozc_compat/rerank_rewriter.cc:521-564 | what is logged names the request, the surface that comes out on top, and no junk overwrite |
| `FailSafe.RunFollowsOutcomes` | mozc_compat/rerank_rewriter.cc:460-567 | in any run of calls the counters follow the outcomes of the hook calls |
| `FailSafe.LastTierAbsorbs` | mozc_compat/rerank_rewriter.cc:434-448 | from tier 3 with guards on, or tier 4 without, no call ever asks the hook again and the counters stand still |
| `FailSafe.DeadDaemonBound` | mozc_compat/rerank_rewriter.cc:404-448 | if every call fails, at most 15 hook calls are made in any run, 20 with guards off |
| `FailSafe.RunTier` | mozc_compat/rerank_rewriter.cc:404-424 | the closed form of the tier over whole runs of Rewrite |
| `Json.EscapeJson` | mozc_compat/rerank_rewriter.cc:739-776 | the escaping loop computes Escape |
| `Json.ParseEscaped` | mozc_compat/rerank_rewriter.cc:739-776 | a reader of section 7 of RFC 8259 recovers every printed string |
| `Json.EscapeHasNoControl` | mozc_compat/rerank_rewriter.cc:739-776 | no control byte is printed |
| `Request.RenderItems` | mozc_compat/rerank_rewriter.cc:659-664 | the list, item by item |
| `Request.RenderRequest` | mozc_compat/rerank_rewriter.cc:657-666 | the rendering loop computes RequestLine |
| `Request.RequestIsOneLine` | runtime/rerank_daemon.py:213-216 | the request has exactly one newline, its last byte |
| `Request.RequestRoundTrip` | mozc_compat/rerank_rewriter.cc:657-666 | parsing the request as JSON returns reading, context and n-best unchanged, for all byte strings |
| `HookResponse.FindString` | mozc_compat/rerank_rewriter.cc:803-803 | std::string::find |
| `HookResponse.SkipWhites` | mozc_compat/rerank_rewriter.cc:812-816 | the white space loop |
| `HookResponse.SkipSeparatorRun` | mozc_compat/rerank_rewriter.cc:901-905 | the separator loop |
| `HookResponse.ReadItem` | mozc_compat/rerank_rewriter.cc:912-927 | one item of the list, up to its closing quotation mark |
| `HookResponse.ExtractJsonString` | mozc_compat/rerank_rewriter.cc:800-856 | the index-advancing reader computes ExtractString |
| `HookResponse.ExtractJsonBool` | mozc_compat/rerank_rewriter.cc:858-884 | the same for the flag |
| `HookResponse.ExtractJsonStringArray` | mozc_compat/rerank_rewriter.cc:886-930 | the same for the list |
| `HookResponse.ParseHookResponse` | mozc_compat/rerank_rewriter.cc:932-947 | the assembled result, with its defaults |
| `HookResponse.ScanStringExact` | mozc_compat/rerank_rewriter.cc:800-856 | a printed string is recovered exactly when its only control bytes are LF, CR and TAB |
| `HookResponse.ScanItemExact` | mozc_compat/rerank_rewriter.cc:886-930 | a printed list item is recovered exactly when it has no control byte |
| `HookResponse.SpacingIsIgnored` | mozc_compat/rerank_rewriter.cc:811-816 | white space behind the colon makes no difference |
| `HookResponse.ListSpacingIsIgnored` | mozc_compat/rerank_rewriter.cc:901-905 | nor does white space between the items of the list |
| `Find.FirstOccurrence` | mozc_compat/rerank_rewriter.cc:803-810 | behind a prefix that does not show it, a text is found where it stands |
| `ResponseText.KeyFound` | mozc_compat/rerank_rewriter.cc:802-806 | in compact JSON a quoted key is first found at the end of the first literal that equals it or ends in a quotation mark and it |
| `ResponseText.ColonFound` | mozc_compat/rerank_rewriter.cc:807-810 | the first colon of a piece of JSON, inside a literal or outside |
| `ResponseText.FieldBehind` | mozc_compat/rerank_rewriter.cc:802-811 | so the extractors read on behind the first colon after that literal, whatever stands between |
| `ResponseRoundTrip.AnswerReceived` | mozc_compat/rerank_rewriter.cc:932-947 | for all surfaces without control bytes: the list is exact, and each field is what its search lands on: its own value, that of rerank_top1, which is the first field behind the list, or what stands behind a colon inside a surface, which is nothing or a piece of punctuation |
| `ResponseRoundTrip.RoundTrip` | mozc_compat/rerank_rewriter.cc:932-947 | what is received is what was sent if and only if for each of the three fields the search lands on its own value or on a place that reads the same; where it lands is a function of the surfaces alone |
| `ResponseRoundTrip.FieldNameAsSurface` | mozc_compat/rerank_rewriter.cc:803-810 | an answer for which it is not: the list holds rerank_top1 and a:b, and the reranker's choice arrives empty |
| `EndToEnd.AskedIsSent` | runtime/rerank_daemon.py:216-216 | the fields that the daemon takes from the request line are those that were sent |
| `EndToEnd.RefusalIsNone` | runtime/rerank_daemon.py:173-225 | an answer without candidates, with or without the name of an exception, is no answer to the client |
| `EndToEnd.ExchangeIs` | mozc_compat/rerank_rewriter.cc:657-711 | request printed, parsed, answered, printed and read: the outcome is the list of rerank and what its fields read as |
| `EndToEnd.EndToEnd` | mozc_compat/rerank_rewriter.cc:460-567 | over the wire the head takes the order of rerank, its final choice first, unless the answer has no candidates or its fields read as a junk overwrite; then nothing changes |
| `EndToEnd.NoFieldNameNoJunk` | mozc_compat/rerank_rewriter.cc:543-551 | they never do when no surface shows the names of those two fields |
| `FieldNames.FieldNameKeepsOrder` | mozc_compat/rerank_rewriter.cc:460-567 | a request at which it happens, with the guard on or off: rerank ranks the third candidate before the second and overwrites nothing, and the rewriter keeps its order |
| `FieldNames.FieldNameIsSent` | runtime/rerank_daemon.py:168-207 | a request that rerank answers with rerank_top1 a:b, and whose outcome at the client has an empty one |
| `Cache.AICandidateCache.constructor` | src/ai/ai_candidate_cache.cc:12-14 | an empty cache with an empty history |
| `Cache.AICandidateCache.Get` | src/ai/ai_candidate_cache.cc:16-35 | the unexpired entry of the key, which is the latest put since the last clear; hits and misses |
| `Cache.AICandidateCache.Contains` | src/ai/ai_candidate_cache.cc:86-95 | whether Get would find it |
| `Cache.AICandidateCache.Put` | src/ai/ai_candidate_cache.cc:37-66 | prune when full, evict an oldest entry when still full, store; never more entries than the bound |
| `Cache.AICandidateCache.Clear` | src/ai/ai_candidate_cache.cc:68-71 | nothing is left |
| `Cache.AICandidateCache.Prune` | src/ai/ai_candidate_cache.cc:73-84 | exactly the expired entries go |
| `Cache.AICandidateCache.EvictOldest` | src/ai/ai_candidate_cache.cc:124-143 | one entry of the least creation time goes |
| `Cache.AICandidateCache.EraseExpired` | src/ai/ai_candidate_cache.cc:45-51 | the erase-while-iterating loop leaves the live entries |
| `Cache.AICandidateCache.ResetStats` | src/ai/ai_candidate_cache.cc:118-122 | both counters are zero |
| `Cache.StoreIsFaithful` | src/ai/ai_candidate_cache.cc:16-66 | in every reachable state each entry is that of the latest put of its key |
| `Cache.GetIsLatestPut` | src/ai/ai_candidate_cache.cc:16-35 | so what Get returns is the latest put, not older than the time to live |
| `Cache.GetFindsLatestPut` | src/ai/ai_candidate_cache.cc:16-35 | and conversely: a put that EntrySurvives speaks of is found exactly until its time to live is over |
| `Cache.JustPutIsFound` | src/ai/ai_candidate_cache.cc:37-66 | by every bound, what was put last is found exactly until its time to live is over |
| `Cache.SizeIsBounded` | src/ai/ai_candidate_cache.cc:42-56 | in every reachable state at most max_entries entries, with the cast to size_t, and at most one for a bound of zero |
| `Cache.BoundHoldsExactly` | src/ai/ai_candidate_cache.cc:42-56 | for 32-bit max_entries every reachable cache holds at most max_entries entries if and only if max_entries >= 1 |
| `Cache.ZeroKeepsTheLast` | src/ai/ai_candidate_cache.cc:42-65 | with a bound of zero the entry put last is the only one |
| `Cache.NegativeNeverEvicts` | src/ai/ai_candidate_cache.cc:42-84 | with a negative bound, for all histories shorter than the cast bound, exactly those keys are there that were put since the last clear and that no explicit Prune has seen expired |
| `Cache.EntrySurvives` | src/ai/ai_candidate_cache.cc:37-66 | with strictly increasing times an entry outlives the next max_entries - 1 puts unless it is seen expired or cleared |
| `Cache.OnlyTheLastPutsStay` | src/ai/ai_candidate_cache.cc:37-66 | and not one more: after max_entries puts of different keys the cache holds exactly those |
| `Worker.AIWorker.constructor` | src/ai/ai_worker.cc:20-22 | the initial state |
| `Worker.AIWorker.Start` | src/ai/ai_worker.cc:28-38 | one atomic step each: the new state is After of the old one and the invariant holds |
| `Worker.AIWorker.StopSignal` | src/ai/ai_worker.cc:40-48 | Stop up to the join |
| `Worker.AIWorker.StopReturn` | src/ai/ai_worker.cc:50-53 | the end of Stop |
| `Worker.AIWorker.EnqueueRequest` | src/ai/ai_worker.cc:55-66 | under the lock, the drop loop removes one request at most, then the request is pushed |
| `Worker.AIWorker.DropOldest` | src/ai/ai_worker.cc:58-62 | one turn of that loop |
| `Worker.AIWorker.WarmUp` | src/ai/ai_worker.cc:124-154 | the ready flag follows the initialisation |
| `Worker.AIWorker.Check` | src/ai/ai_worker.cc:93-106 | the loop up to the load of the flag under the lock: the thread ends or goes on |
| `Worker.AIWorker.Take` | src/ai/ai_worker.cc:108-114 | the rest of the critical section: nothing, or take the front |
| `Worker.AIWorker.Discard` | src/ai/ai_worker.cc:117-119 | a request taken before the backend is ready is thrown away |
| `Worker.AIWorker.CountResult` | src/ai/ai_worker.cc:156-182 | an answer is counted once as processed and as succeeded or failed |
| `Worker.AIWorker.AddToStats` | src/ai/ai_worker.cc:168-182 | one answer more, and its latency |
| `Worker.AIWorker.StoreResult` | src/ai/ai_worker.cc:184-193 | only a successful non-empty answer is put into the cache, under the request's cache key |
| `Worker.StepKeeps` | src/ai/ai_worker.cc:28-194 | every step from every state keeps the invariant on queue, fates, work, counters and control |
| `Worker.RequestsAddUp` | src/ai/ai_worker.cc:55-122 | over all interleavings: the pending requests are the last ones enqueued, at most ten; enqueued = pending + dropped + taken; taken = processed + discarded + the one in hand; processed in order and never twice; the ten newest are never dropped |
| `Worker.RunExtends` | src/ai/ai_worker.cc:55-122 | no step rewrites history |
| `Worker.NothingAfterStop` | src/ai/ai_worker.cc:40-53 | until the next Start: once the flag is off at most the one request is taken whose check had passed, at most one is processed, and neither happens once Stop has returned |
| `Worker.OneMoreExactly` | src/ai/ai_worker.cc:104-114 | with the flag off, some run takes one more request if and only if the worker has passed its check and the queue is not empty |
| `Worker.StopBetween` | src/ai/ai_worker.cc:40-114 | a run from the start in which the flag goes off between the check and the take, and the request is taken |
| `WorkerStats.StatsAddUp` | src/ai/ai_worker.cc:156-183 | over every run the statistics are those of its answers: processed, succeeded, failed, the sum of the latencies; and the dropped requests |
| `WorkerStats.ReadyExactly` | src/ai/ai_worker.cc:124-135 | the backend is ready if and only if an initialisation has succeeded |
| `WorkerStats.AnsweredOnceReady` | src/ai/ai_worker.cc:116-120 | before that nothing is answered, after it nothing is thrown away |
| `AiRewriter.AIRewriter.GetCacheKey` | src/rewriter/ai_rewriter.cc:194-212 | the reading, with the last context item when configured |
| `AiRewriter.AIRewriter.IsDuplicate` | src/rewriter/ai_rewriter.cc:310-326 | whether the value is shown already |
| `AiRewriter.AIRewriter.InsertCandidates` | src/rewriter/ai_rewriter.cc:267-308 | the loop appends Added and counts it |
| `AiRewriter.AddedIsFit` | src/rewriter/ai_rewriter.cc:278-299 | at most three values, each offered, new, non-empty, of at most 60 bytes, none twice; none left out while there is room |
| `AiRewriter.AddedKeepsOrder` | src/rewriter/ai_rewriter.cc:278-299 | in the order in which they were offered |
| `AiRewriter.AppendedAre` | src/rewriter/ai_rewriter.cc:289-293 | the candidates stay, and each new one spells its value and carries the description |
| `AiRewriter.AIRewriter.UpdateContext` | src/rewriter/ai_rewriter.cc:328-348 | the last five tops are remembered |
| `AiRewriter.AIRewriter.GetExistingCandidates` | src/rewriter/ai_rewriter.cc:221-239 | the first five values |
| `AiRewriter.AIRewriter.RequestAICandidates` | src/rewriter/ai_rewriter.cc:241-265 | the request that is enqueued |
| `AiRewriter.AIRewriter.EnsureInitialized` | src/rewriter/ai_rewriter.cc:145-192 | nothing when initialised or after three failures; else a new cache and, if the backend can be made, a new worker that is started |
| `AiRewriter.AIRewriter.LookUp` | src/rewriter/ai_rewriter.cc:90-104 | the cached candidates under the key, and a hit or a miss more |
| `AiRewriter.AIRewriter.Rewrite` | src/rewriter/ai_rewriter.cc:47-123 | a call without interruption, the first ones included: a hit is shown and nothing asked, a miss leaves the candidates alone and asks when the backend is ready; the counters; other segments and the cached entries stay |
| `AiRewriter.AIRewriter.RewriteSegment` | src/rewriter/ai_rewriter.cc:81-119 | its steps from the initialisation on |
| `AiRewriter.AIRewriter.ShowOrAsk` | src/rewriter/ai_rewriter.cc:84-119 | its steps from the lookup to the context, with the counters |
| `AsyncSystem.LookFits` | src/ai/ai_candidate_cache.cc:16-35 | what a thread looks up was stored by the latest put, not too long ago |
| `AsyncSystem.SystemStep` | src/rewriter/ai_rewriter.cc:47-123 | every step of every thread, of the worker and of the clock keeps the invariant of the whole system |
| `AsyncSystem.ShownWasGenerated` | src/rewriter/ai_rewriter.cc:90-116 | in every interleaving, what is added comes from a successful answer to a request that was enqueued, whose put was the latest of the key when the cache was asked |
| `AsyncSystem.KeysCollideExactly` | src/rewriter/ai_rewriter.cc:194-212 | two readings can have the same cache key if and only if they are equal or, with the context in the key, one is the other with a bar and more behind it |
| `AsyncSystem.ShownIsForItsReading` | src/rewriter/ai_rewriter.cc:90-116 | what is added was generated for the reading of the segment, unless a request was enqueued for a different reading that can have the same key |
| `AsyncSystem.MixUpExactly` | src/rewriter/ai_rewriter.cc:90-116 | some run of the system adds an answer generated for one reading to a segment with another if and only if the context is in the key and one reading is the other with a bar and more behind it |
| `AsyncSystem.CallIsARun` | src/rewriter/ai_rewriter.cc:84-119 | an uninterrupted call is one of the interleavings, and does there what the class method promises |
| `AsyncRuns.ContextIsLastFive` | src/rewriter/ai_rewriter.cc:328-348 | in every run the context is the last five tops remembered since it was cleared |
| `AsyncRuns.RunsRemember` | src/rewriter/ai_rewriter.cc:328-348 | every run has such tops |
| `AsyncRuns.KeyNamesLastTop` | src/rewriter/ai_rewriter.cc:194-212 | the key of a call is the reading, with a bar and the last of these tops when configured |
| `AsyncRuns.CopiesLastTops` | src/rewriter/ai_rewriter.cc:255-261 | a request copies the last five tops of that moment |
| `AsyncRuns.SendsWhatWasBuilt` | src/rewriter/ai_rewriter.cc:249-264 | and is enqueued last with the reading, the key, the first five values and those tops |
| `AsyncRuns.LookHits` | src/ai/ai_candidate_cache.cc:16-35 | in every run, a lookup of a surviving put within its time to live is a hit with its values |
| `AsyncRuns.NextCallShows` | src/rewriter/ai_rewriter.cc:106-116 | what is put is added by the next call with its key, if that comes within the time to live |
| `AsyncRuns.EveryAnswerIsPut` | src/ai/ai_worker.cc:185-193 | in every run each successful answer with candidates is put once, in order; only the last one may still be in the worker's hands |
| `Config.SkipChars` | src/ai/ai_config.cc:285-287 | the skipping loop of GetInt |
| `Config.CollectChars` | src/ai/ai_config.cc:289-292 | the collecting loop of GetInt |
| `Config.GetInt` | src/ai/ai_config.cc:275-300 | the method computes ReadInt |
| `Config.NumberAt` | src/ai/ai_config.cc:284-299 | the part of GetInt from the colon on |
| `ConfigText.ClearUpTo` | src/ai/ai_config.cc:256-260 | before its own line a key occurs only in a string that equals it |
| `ConfigText.KeyLeadsTo` | src/ai/ai_config.cc:256-264 | whatever strings without quotation marks stand in the file: behind the first occurrence of key j the first colon is that of line j, or that of the line after the first string above it that equals the key |
| `ConfigValues.StoiDecimal` | src/ai/ai_config.cc:295-299 | every 32-bit integer is printed and read back unchanged |
| `ConfigValues.NumberEndsWithDigits` | src/ai/ai_config.cc:289-299 | minus signs behind the digits do not change the number |
| `ConfigValues.StringRead` | src/ai/ai_config.cc:257-273 | what GetString makes of the line that it reaches: its string, or for another kind of value the key of the line behind it |
| `ConfigValues.NumberRead` | src/ai/ai_config.cc:275-300 | what GetInt makes of any printed value |
| `ConfigValues.BoolRead` | src/ai/ai_config.cc:302-325 | what GetBool makes of any printed value |
| `ConfigRoundTrip.EntryReads` | src/ai/ai_config.cc:205-325 | every key is read as the line that it leads to |
| `ConfigRoundTrip.RoundTrip` | src/ai/ai_config.cc:135-254 | for every configuration Parse(Serialize(c)) = c if and only if no string holds a quotation mark and each key leads to its own line or to one that reads as the same value |
| `ConfigRoundTrip.KeyAsValue` | src/ai/ai_config.cc:256-273 | a whole family for which it fails: the endpoint of Ollama is the key of a line below the next, with another model there |
| `ConfigRoundTrip.NextKeyIsHarmless` | src/ai/ai_config.cc:256-273 | when the endpoint of Ollama is the key of the next line, that key is found in the endpoint, and both fields are still read back |
| `ConfigAbsent.NoKeyIsDefaults` | src/ai/ai_config.cc:135-203 | a text that shows no key is the default configuration |
| `ConfigAbsent.PartialFile` | src/ai/ai_config.cc:256-325 | in a file with some of the keys, those are read as their lines say and the others have their defaults |
| `ConfigAbsent.UnknownNames` | src/ai/ai_config.cc:141-154 | any other backend name selects the compatible backend |

## Left out

- Sockets, processes, temporary files, environment variables, logs and the clock: the hook, the backend's answers and the times are parameters.
- Wall-clock timeouts and the destruction of futures: "timed out or failed" is one outcome.
- The ONNX model and its tokenizer: scores are arbitrary reals, without rounding and without NaN.
- ResponseRoundTrip.AnswerReceived: surfaces of the list with control bytes, and others than LF, CR and TAB in the two choices, are excluded, because the extractors do not decode all escapes; ScanStringExact and ScanItemExact say exactly which strings they recover.
- EndToEnd.ExchangeIs: surfaces with control bytes are excluded for the same reason. Python decodes a request line before it parses it, the model decodes the strings behind the parser; what stands between them is ASCII. An exception name is printable and not a field name.
- Daemon.AnswerIsDrawn: the NFKC step, isalpha and the scores are parameters; scorers that return another number of scores than candidates count as raising an exception. The ping request is left out.
- CleanAgreement.CleanersAgree: texts with [ or < are excluded; for them the edit, link and reference passes are compared one by one. Unicode spaces other than the ideographic one are excluded, because the bullet pattern counts them as spaces and the scanner does not.
- MarkAgreement.RefPassesAgree: on texts with tags only this direction is stated, because behind a tag that only the regex takes the scanner may take another one that reaches further.
- PyContext approximates the word characters of `\b` outside ASCII by every code point from U+00AA on that is no space, and lists the decimal digits of Unicode 15.
- Guard.JunkAgrees: Python's isspace is modelled by its list of code points.
- The literal table of eligible readings: any table sorted by code point, without NUL, is a parameter.
- 32-bit overflow of sizes, counters and indices, except the cast of the cache bound and the range of configuration integers.
- Mozc's own Segment, Segments and move_candidate are not part of the repository; the model states what it takes move_candidate to do.
- RerankRewriter.RerankRewriter.Rewrite: requires the segments of one conversion to be different objects, as Segments guarantees, and a positive candidate cap, which LoadConfigFromEnv and LoadPolicyFile ensure.
- Finish, Clear and AppendConversionLog of the reranker, LoadPolicyFile and ParseDaemonAddr: log output and settings.
- A test of the worker's ready flag that succeeds and what follows it are one step; the flag is never reset.
- Start racing with Stop: one controlling thread calls both. The worker's queue and its flags are sequentially consistent.
- AsyncSystem.ShownIsForItsReading: the cache and the worker exist from the start; a thread inside Rewrite before the worker is started sees an empty cache and a backend that is not ready. A second initialisation after a failed one, which replaces the cache under other threads, is not among the interleavings.
- AiRewriter.AIRewriter.Rewrite: no other thread comes in between and none holds a lock; the interleavings are those of AsyncSystem, which uses the same functions. Of the failures of initialisation only the missing backend is modelled, not exceptions.
- Worker.AIWorker.EnqueueRequest: is called when the worker thread does not hold the queue's lock; a thread that finds it held waits.
- GetStats of cache and worker: averages in floating point or integer division.
- The Ollama, OpenAI, Groq and mock backends, the logger, the installers and the integration scripts; mozc_compat/ai_rewriter.cc repeats src/rewriter/ai_rewriter.cc and is modelled once.
