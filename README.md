# CardsStudy review engine in Dafny

A model of the study core of CardsStudy, a Kotlin flashcard app for Android. It covers:

- the four card kinds and their `CardType` tags (`Card.kt`);
- the decoder that turns stored card documents into cards, shared by the study screen and the card list;
- the four "Salvar" validators of the card-creation dialogs (`CardListActivity.kt`);
- the study screen (`StudyActivity.kt`), which loads the due cards, shuffles them and walks a cursor over them. Each card is judged by its kind's check, the two counters are updated and the card is rescheduled by the level-to-minutes table. After the last card a session record is requested and the summary is reached;
- the cloze pattern `\[\[(.*?)]]`, used to extract, mask and reveal spans;
- the accuracy percentage of the summary screen, of the session history rows and of the analytics screen, with its per-location grouping and location filter.

Modules, one or more per source file:

| module | file | models |
|---|---|---|
| `Wrappers` | wrappers.dfy | `Option` |
| `Text` | text.dfy | Kotlin's `trim()`, `equals(ignoreCase = true)`, `split(',')`, integer printing |
| `Cards` | cards.dfy | `Card.kt` |
| `Srs` | srs.dfy | `updateCardSrs` and the level update of `handleAnswer` |
| `Shuffle` | shuffle.dfy | `shuffled()` as the Fisher–Yates pass of `java.util.Collections.shuffle`, driven by a sequence of random draws |
| `Evaluator` | evaluator.dfy | the answer checks of the four `display*Card` functions |
| `Cloze` | cloze.dfy | the cloze pattern, its `find()` loop and both `replace` calls |
| `Decoding` | decoding.dfy | the `type`-tag decoder of both `loadCards` functions and the due-card query |
| `Validation` | validation.dfy | the four `showAdd*Dialog` handlers |
| `Stats` | stats.dfy | `StudySession` and the shared percentage formula |
| `Summary` | summary.dfy | `SummaryActivity.onCreate` |
| `SessionRows` | session_rows.dfy | `SessionAdapter.onBindViewHolder` |
| `Analytics` | analytics.dfy | `AnalyticsActivity`, a class over its fields |
| `Study` | study.dfy | `StudyActivity`, a class over its fields |

Design of the study screen:

- The Kotlin fields become fields of the class `Study.StudyActivity`. Each listener becomes a method:
  - `LoadCards`
  - `GoToNextCard`
  - `DisplayCard`
  - `HandleAnswer`
  - `CheckClicked`
  - `OptionClicked`
  - `NextClicked`
  - `SaveStudySession`
- The session part of the fields is mirrored by the value `StudyState`. It is specified by the functions `Load`, `Advance`, `Answer`, `Abort` and `Finish`.
- `Invariant` ties the state to a ghost answer log: the shuffled deck, each verdict and its time. Every method keeps it.
- Mutating `card.srsLevel` and `card.nextReview` becomes replacing the card under the cursor in `allCards`.
- The Firestore `.set(card)` and `.add(session)` requests are appended to `cardWrites` and `sessionWrites`. Their outcomes are not modelled. The summary is reached on success and on failure alike, and the model takes it as reached as soon as the session record is requested.

Time is in integer minutes. `Date()` and `Calendar.getInstance()` become the parameter `now`.

## Model

| member | source | states |
|---|---|---|
| Text.Trim | app/src/main/java/com/example/cardsstudy/StudyActivity.kt:237 | the trimmed text, when not empty, neither starts nor ends with whitespace (Kotlin's `isWhitespace` set) |
| Text.TrimCutsWhitespace | app/src/main/java/com/example/cardsstudy/StudyActivity.kt:237 | trimming removes whitespace only, and only at the two ends |
| Text.TrimUnique | app/src/main/java/com/example/cardsstudy/StudyActivity.kt:237 | any infix that has only whitespace outside it and no whitespace at its own ends is the trimmed text |
| Text.TrimIdempotent | app/src/main/java/com/example/cardsstudy/CardListActivity.kt:202-207 | trimming twice equals trimming once |
| Text.TrimPadded | app/src/main/java/com/example/cardsstudy/StudyActivity.kt:237 | whitespace added at either end does not change the trimmed text |
| Text.LowerChar | app/src/main/java/com/example/cardsstudy/StudyActivity.kt:238 | the per-character fold maps A..Z to a..z, leaves alone every character that is neither an ASCII nor a Latin-1 capital (and the sign ×), and never yields an ASCII capital |
| Text.EqualsIgnoreCaseIsFoldEquality | app/src/main/java/com/example/cardsstudy/StudyActivity.kt:238 | case-insensitive equality holds iff both folded strings are equal |
| Text.EqualsIgnoreCaseIsEquivalence | app/src/main/java/com/example/cardsstudy/StudyActivity.kt:284 | case-insensitive equality is reflexive, symmetric and transitive |
| Text.Split | app/src/main/java/com/example/cardsstudy/CardListActivity.kt:230 | `split(',')` yields one piece more than there are commas, and no piece holds a comma |
| Text.JoinSplit | app/src/main/java/com/example/cardsstudy/CardListActivity.kt:230 | joining the pieces with commas rebuilds the string, so empty pieces are kept |
| Text.IntToString | app/src/main/java/com/example/cardsstudy/SummaryActivity.kt:31-32 | the printed form of a number is non-empty and starts with '-' exactly for negative numbers |
| Text.ParseIntToString | app/src/main/java/com/example/cardsstudy/SummaryActivity.kt:31-32 | the printed form of a number reads back as that number |
| Text.IntToStringInjective | app/src/main/java/com/example/cardsstudy/SessionAdapter.kt:36 | different numbers print differently |
| Cards.ValueOf | app/src/main/java/com/example/cardsstudy/StudyActivity.kt:104 | `CardType.valueOf` accepts only the exact name of a constant and returns that constant |
| Cards.TagsAreExactlyFour | app/src/main/java/com/example/cardsstudy/Card.kt:18-23 | there are exactly four tags, `valueOf` accepts exactly their four names, and each name parses to its own tag |
| Cards.InitTag | app/src/main/java/com/example/cardsstudy/Card.kt:26-64 | each payload kind gets its own tag and no other: FrontBack to FRONT_BACK, MultipleChoice to MULTIPLE_CHOICE, TypeAnswer to TYPE_ANSWER, Cloze to CLOZE |
| Cards.NewCard | app/src/main/java/com/example/cardsstudy/Card.kt:8-15 | a new card has id "", level 0, its creation time as next review, and the tag of its payload |
| Cards.DefaultVariant | app/src/main/java/com/example/cardsstudy/Card.kt:26-64 | the no-argument payload of each kind has empty strings, no image URL and empty distractor and answer lists |
| Cards.NewCardIsDue | app/src/main/java/com/example/cardsstudy/Card.kt:13-14 | a new card has level 0 and already passes the due filter `nextReview <= now` |
| Srs.IntervalMinutes | app/src/main/java/com/example/cardsstudy/StudyActivity.kt:200-209 | the table is 0→1, 1→5, 2→10, 3→60, 4→180 minutes, and every other level gets the last value, 180 |
| Srs.IntervalMonotonic | app/src/main/java/com/example/cardsstudy/StudyActivity.kt:201-209 | for levels that are not negative, a higher level never waits less |
| Srs.NextLevel | app/src/main/java/com/example/cardsstudy/StudyActivity.kt:182-190 | a correct answer raises the level by exactly one, and a wrong one resets it to 0 |
| Srs.Reviewed | app/src/main/java/com/example/cardsstudy/StudyActivity.kt:181-211 | the next review is `now` plus the interval of the already updated level; id, tag and payload are kept |
| Srs.ReviewSchedule | app/src/main/java/com/example/cardsstudy/StudyActivity.kt:199-211 | a wrong answer is due again in 1 minute; a correct answer from level 3 or higher waits 180 minutes; a correct answer from a lower level waits the table value of the next level |
| Srs.CorrectWaitsAtLeastAsLong | app/src/main/java/com/example/cardsstudy/StudyActivity.kt:199-211 | a correct answer never schedules earlier than a wrong one, and neither leaves the card due at `now` |
| Shuffle.Shuffled | app/src/main/java/com/example/cardsstudy/StudyActivity.kt:113 | the shuffled list has the same length and the same multiset of elements, whatever the draws |
| Shuffle.ShuffledKeepsElements | app/src/main/java/com/example/cardsstudy/StudyActivity.kt:254 | an element is in the shuffled list iff it is in the original, with the same multiplicity |
| Shuffle.IdentityDraws | app/src/main/java/com/example/cardsstudy/StudyActivity.kt:113 | there are draws that leave the list in its own order |
| Evaluator.ToastText | app/src/main/java/com/example/cardsstudy/StudyActivity.kt:185-189 | the given message is shown, or else "Correto!" or "Incorreto!" by the verdict |
| Evaluator.FrontBackCheck | app/src/main/java/com/example/cardsstudy/StudyActivity.kt:236-243 | correct iff the trimmed input folds to the untrimmed back; the message is "Correto!", or otherwise quotes the back |
| Evaluator.TypeAnswerCheck | app/src/main/java/com/example/cardsstudy/StudyActivity.kt:282-289 | it throws (`first()` on an empty list) exactly when there are no acceptable answers; otherwise it is correct iff some acceptable answer equals the trimmed input ignoring case; a wrong answer quotes the first acceptable answer |
| Evaluator.ClozeCheck | app/src/main/java/com/example/cardsstudy/StudyActivity.kt:314-317 | correct iff some extracted span equals the trimmed input ignoring case; the message is "Correto!" or "Incorreto!" |
| Evaluator.Options | app/src/main/java/com/example/cardsstudy/StudyActivity.kt:254 | the options are a permutation of distractors ++ [correctAnswer] |
| Evaluator.ShownOptions | app/src/main/java/com/example/cardsstudy/StudyActivity.kt:256-272 | the buttons show the first min(4, n) options, in order |
| Evaluator.OptionCheck | app/src/main/java/com/example/cardsstudy/StudyActivity.kt:261-263 | an option is correct iff its text equals the correct answer exactly; no message is passed |
| Evaluator.FrontBackAcceptsPaddedAnswer | app/src/main/java/com/example/cardsstudy/StudyActivity.kt:237-238 | for a trimmed back, typing it (in any Latin-1 case) padded with whitespace is accepted |
| Evaluator.UntrimmedBackNeverMatches | app/src/main/java/com/example/cardsstudy/StudyActivity.kt:237-238 | a back ending in whitespace can never be matched, since only the input is trimmed |
| Evaluator.ChoiceIsCaseSensitive | app/src/main/java/com/example/cardsstudy/StudyActivity.kt:262 | "paris" is rejected as an option for "Paris", though the front/back check accepts it |
| Evaluator.ShownOptionsHoldAnswer | app/src/main/java/com/example/cardsstudy/StudyActivity.kt:254-259 | with at most three distractors every option gets a button, so the correct answer is always shown |
| Evaluator.HiddenAnswerWithFourDistractors | app/src/main/java/com/example/cardsstudy/StudyActivity.kt:254-259 | with four distractors some draws leave the correct answer without a button |
| Evaluator.ClozeAcceptsSpan | app/src/main/java/com/example/cardsstudy/StudyActivity.kt:315-316 | typing a trimmed span, padded with whitespace, is accepted |
| Evaluator.ClozeWithoutSpansRejects | app/src/main/java/com/example/cardsstudy/StudyActivity.kt:297-316 | a text without `[[` has no spans, so every input is rejected |
| Evaluator.TypeAnswerAcceptsListed | app/src/main/java/com/example/cardsstudy/StudyActivity.kt:283-288 | an input that trims to a listed trimmed answer is judged correct with no message |
| Cloze.CloseFrom | app/src/main/java/com/example/cardsstudy/StudyActivity.kt:297 | the lazy `(.*?)]]` stops at the first `]]`, and no line terminator comes before it; when it fails, every `]]` after the start has a line terminator before it |
| Cloze.MatchesAtIsPattern | app/src/main/java/com/example/cardsstudy/StudyActivity.kt:297 | the pattern matches at a position iff `[[` opens there and some later `]]` is reached without crossing a line terminator |
| Cloze.FindFrom | app/src/main/java/com/example/cardsstudy/StudyActivity.kt:297-299 | a match found from p opens with `[[` at or after p and closes with `]]` inside the text |
| Cloze.FindFromIsLeftmost | app/src/main/java/com/example/cardsstudy/StudyActivity.kt:297-299 | `find()` returns the leftmost position where the pattern matches, with its lazy close; when it finds nothing, no position matches |
| Cloze.ExtractAnswers | app/src/main/java/com/example/cardsstudy/StudyActivity.kt:297-301 | the `while (matcher.find())` loop yields the span answers left to right, as many as there are placeholders |
| Cloze.ClozeRoundTrip | app/src/main/java/com/example/cardsstudy/StudyActivity.kt:297-305 | the pieces rebuild the text when each answer is wrapped back in `[[`/`]]`; answers and placeholders are as many; the revealed text is the original less four marker characters per answer; the question is the revealed text with each answer traded for the five characters of `[...]` |
| Cloze.AnswersAreLazy | app/src/main/java/com/example/cardsstudy/StudyActivity.kt:297 | no extracted answer contains `]]` or a line terminator |
| Cloze.NoSpans | app/src/main/java/com/example/cardsstudy/StudyActivity.kt:297-305 | a text without `[[` has no answers, and mask and reveal leave it unchanged |
| Decoding.Payload | app/src/main/java/com/example/cardsstudy/StudyActivity.kt:104-109 | `toObject` of the tag's data class reads each declared field, or its constructor default, and always yields a payload of that tag |
| Decoding.Decode | app/src/main/java/com/example/cardsstudy/StudyActivity.kt:102-111 | a document yields a card iff its tag (FRONT_BACK when absent) names a constant; the card takes the document id, the tag, and the stored level and review time or their defaults 0 and `now` |
| Decoding.DecodeAllIndices | app/src/main/java/com/example/cardsstudy/CardListActivity.kt:302-320 | the decoded cards are exactly the decodable documents, decoded, in document order |
| Decoding.DecodeDocuments | app/src/main/java/com/example/cardsstudy/StudyActivity.kt:100-112 | the for loop that fills `cardList` yields the decoded list |
| Decoding.MissingTagIsFrontBack | app/src/main/java/com/example/cardsstudy/CardListActivity.kt:304 | a document without a `type` decodes as a front/back card |
| Decoding.KeptIffKnownTag | app/src/main/java/com/example/cardsstudy/CardListActivity.kt:304-315 | a document is kept iff its tag is one of the four names |
| Decoding.UnknownTagLeavesNothing | app/src/main/java/com/example/cardsstudy/CardListActivity.kt:312-315 | a document tagged "BASIC", which names no constant, is dropped |
| Decoding.TagOnlyDocumentGivesDefaults | app/src/main/java/com/example/cardsstudy/Card.kt:11-14 | a document holding only its tag decodes to the default card of that kind, with the document id |
| Decoding.DecodeEncode | app/src/main/java/com/example/cardsstudy/StudyActivity.kt:213-215 | a card written back by `.set(card)` decodes again to the same card |
| Decoding.DueDocuments | app/src/main/java/com/example/cardsstudy/StudyActivity.kt:90-92 | the query keeps exactly the documents that have a `nextReview` at most `now`, and nothing else |
| Decoding.DueDocumentsDecodeDue | app/src/main/java/com/example/cardsstudy/StudyActivity.kt:88-91 | every card decoded from the query result is due |
| Validation.ValidateFrontBack | app/src/main/java/com/example/cardsstudy/CardListActivity.kt:159-165 | rejected iff the trimmed back is empty, or the trimmed front is empty and no image is selected; otherwise the trimmed texts are saved |
| Validation.KeptField | app/src/main/java/com/example/cardsstudy/CardListActivity.kt:205-207 | a distractor field contributes its trimmed text iff that text is not empty |
| Validation.Distractors | app/src/main/java/com/example/cardsstudy/CardListActivity.kt:204-208 | the distractors are the kept fields in field order, at most three |
| Validation.ValidateMultipleChoice | app/src/main/java/com/example/cardsstudy/CardListActivity.kt:202-213 | accepted iff the trimmed question and correct answer are not empty and some distractor field is not blank |
| Validation.AcceptableAnswers | app/src/main/java/com/example/cardsstudy/CardListActivity.kt:230 | one acceptable answer per comma-separated piece, each trimmed; never an empty list |
| Validation.ValidateTypeAnswer | app/src/main/java/com/example/cardsstudy/CardListActivity.kt:227-234 | accepted iff the trimmed prompt and answers string are not empty |
| Validation.ValidateClozeAsWritten | app/src/main/java/com/example/cardsstudy/CardListActivity.kt:247-252 | accepted iff the trimmed text is not empty and contains `[[` and `]]`, anywhere |
| Validation.ValidateCloze | app/src/main/java/com/example/cardsstudy/CardListActivity.kt:247-252 | accepted iff the trimmed text holds at least one span |
| Validation.SavedFrontBackIsAnswerable | app/src/main/java/com/example/cardsstudy/CardListActivity.kt:159-165 | typing the back of a saved front/back card is judged correct |
| Validation.SavedChoiceDistractors | app/src/main/java/com/example/cardsstudy/CardListActivity.kt:204-210 | a saved multiple-choice card has one to three distractors, each non-empty and trimmed |
| Validation.SavedChoiceShowsAnswer | app/src/main/java/com/example/cardsstudy/CardListActivity.kt:204-210 | a saved multiple-choice card always shows its correct answer, whatever the shuffle |
| Validation.SavedTypeAnswerIsAnswerable | app/src/main/java/com/example/cardsstudy/CardListActivity.kt:228-231 | a saved type-answer card never makes its check throw, and typing any acceptable answer is accepted |
| Validation.EmptyPiecesKept | app/src/main/java/com/example/cardsstudy/CardListActivity.kt:230 | "a,,b" gives the answers "a", "" and "b", and that card accepts a blank input |
| Validation.ClozeAsWrittenAcceptsNoSpan | app/src/main/java/com/example/cardsstudy/CardListActivity.kt:247-249 | "]] [[" is accepted although it has no span, so its card rejects every answer |
| Validation.ClozeAcceptedHasSpan | app/src/main/java/com/example/cardsstudy/CardListActivity.kt:247-251 | every text the corrected check accepts has a span, and the as-written check accepts it too |
| Stats.Percentage | app/src/main/java/com/example/cardsstudy/AnalyticsActivity.kt:125 | 0 for a total that is not positive, otherwise the p with p × total = correct × 100 |
| Stats.PercentageBounds | app/src/main/java/com/example/cardsstudy/AnalyticsActivity.kt:125-127 | with counts that are not negative the percentage lies in [0, 100]; it is 100 iff nothing is wrong and something is right; it is 0 iff nothing is right |
| Stats.PercentageMonotonic | app/src/main/java/com/example/cardsstudy/SummaryActivity.kt:24-28 | more correct answers out of the same total never lower the percentage |
| Stats.TruncateToInt | app/src/main/java/com/example/cardsstudy/AnalyticsActivity.kt:127 | `toInt()` rounds toward zero |
| Stats.TruncatedPercentageBounds | app/src/main/java/com/example/cardsstudy/AnalyticsActivity.kt:125-127 | the progress bar value lies in [0, 100] |
| Summary.CountExtra | app/src/main/java/com/example/cardsstudy/SummaryActivity.kt:20-21 | a missing count extra reads as 0 |
| Summary.Summarize | app/src/main/java/com/example/cardsstudy/SummaryActivity.kt:20-32 | total = correct + incorrect, the percentage of the two counts, and the texts "Acertos: n" and "Erros: n" |
| Summary.SummaryShowsReceivedCounts | app/src/main/java/com/example/cardsstudy/SummaryActivity.kt:31-32 | the counts read back from the two texts are the counts received |
| Summary.MissingExtrasShowZero | app/src/main/java/com/example/cardsstudy/SummaryActivity.kt:20-28 | without extras the screen shows 0, 0, total 0 and 0 percent |
| Summary.SummaryPercentageBounds | app/src/main/java/com/example/cardsstudy/SummaryActivity.kt:22-28 | with counts that are not negative the summary percentage lies in [0, 100] |
| SessionRows.DateText | app/src/main/java/com/example/cardsstudy/SessionAdapter.kt:32 | without a timestamp the row shows "Data indisponível", otherwise the formatted timestamp |
| SessionRows.BindRow | app/src/main/java/com/example/cardsstudy/SessionAdapter.kt:28-41 | the row's date, "Baralho: " + deck name, score text, and the percentage of correct over correct + incorrect |
| SessionRows.ScoreTextShowsCounts | app/src/main/java/com/example/cardsstudy/SessionAdapter.kt:36 | the score text contains both counts |
| SessionRows.ScoreTextInjective | app/src/main/java/com/example/cardsstudy/SessionAdapter.kt:36 | the score text determines both counts |
| SessionRows.RowAgreesWithSummary | app/src/main/java/com/example/cardsstudy/SessionAdapter.kt:38-39 | a row and the summary screen give the same percentage for the same counts |
| SessionRows.RowPercentageBounds | app/src/main/java/com/example/cardsstudy/SessionAdapter.kt:38-39 | with counts that are not negative the row percentage lies in [0, 100] |
| Analytics.Sum | app/src/main/java/com/example/cardsstudy/AnalyticsActivity.kt:121-122 | `sumOf` of a non-negative selector is not negative |
| Analytics.SumAppend | app/src/main/java/com/example/cardsstudy/AnalyticsActivity.kt:121-122 | the sum over two lists is the sum of their sums |
| Analytics.CardsAreCorrectPlusIncorrect | app/src/main/java/com/example/cardsstudy/AnalyticsActivity.kt:134-135 | summing correct + incorrect per session equals the correct total plus the incorrect total |
| Analytics.OverallOf | app/src/main/java/com/example/cardsstudy/AnalyticsActivity.kt:120-127 | the totals are the sums over the sessions; the percentage is of those totals; the bar is its truncation |
| Analytics.OverallBounds | app/src/main/java/com/example/cardsstudy/AnalyticsActivity.kt:120-127 | with counts that are not negative the overall percentage and the bar value lie in [0, 100] |
| Analytics.AtLocation | app/src/main/java/com/example/cardsstudy/AnalyticsActivity.kt:105 | the filter keeps only sessions of that location name, drawn from the list |
| Analytics.AtLocationMembers | app/src/main/java/com/example/cardsstudy/AnalyticsActivity.kt:105 | a session is kept iff it is in the list and has that location name |
| Analytics.SpinnerNames | app/src/main/java/com/example/cardsstudy/AnalyticsActivity.kt:92-93 | "Todos os Locais" and then each saved location's name, in order |
| Analytics.SelectionFilters | app/src/main/java/com/example/cardsstudy/AnalyticsActivity.kt:100-106 | position 0 selects every session; any other position selects exactly the sessions at that entry's location |
| Analytics.GroupKeys | app/src/main/java/com/example/cardsstudy/AnalyticsActivity.kt:132 | the group keys have no repeats, and every session's location is among them |
| Analytics.GroupKeysInFirstOccurrenceOrder | app/src/main/java/com/example/cardsstudy/AnalyticsActivity.kt:132 | the keys, and so the bars, come in the order of each location's first session, as `groupBy`'s LinkedHashMap keeps them |
| Analytics.GroupKeysOccur | app/src/main/java/com/example/cardsstudy/AnalyticsActivity.kt:132 | every key is the location of some session, so no group is empty |
| Analytics.GroupPercentageOfCounts | app/src/main/java/com/example/cardsstudy/AnalyticsActivity.kt:133-137 | a group's percentage is its correct total over its correct plus incorrect totals |
| Analytics.GroupsPartition | app/src/main/java/com/example/cardsstudy/AnalyticsActivity.kt:132-135 | summed over the groups, a count gives the total over all sessions, so each session is in exactly one bar |
| Analytics.Label | app/src/main/java/com/example/cardsstudy/AnalyticsActivity.kt:143 | the label is the location name, or "Geral" for the empty name |
| Analytics.ChartEntries | app/src/main/java/com/example/cardsstudy/AnalyticsActivity.kt:139-142 | one bar per group, at index j with the group's percentage |
| Analytics.ChartLabels | app/src/main/java/com/example/cardsstudy/AnalyticsActivity.kt:139-144 | one label per group, in the order of the bars |
| Analytics.BuildChart | app/src/main/java/com/example/cardsstudy/AnalyticsActivity.kt:139-144 | the `forEachIndexed` loop builds exactly the chart's bars and labels |
| Analytics.ChartComplete | app/src/main/java/com/example/cardsstudy/AnalyticsActivity.kt:139-144 | once the loop has covered every key, its bars and labels are the chart's |
| Analytics.GroupBounds | app/src/main/java/com/example/cardsstudy/AnalyticsActivity.kt:133-137 | with counts that are not negative a group's percentage lies in [0, 100] |
| Analytics.ChartBounds | app/src/main/java/com/example/cardsstudy/AnalyticsActivity.kt:133-142 | with counts that are not negative every bar lies in [0, 100] |
| Analytics.AnalyticsActivity.constructor | app/src/main/java/com/example/cardsstudy/AnalyticsActivity.kt:39-40 | the screen starts with no sessions and no locations |
| Analytics.AnalyticsActivity.ProcessAndDisplayAnalytics | app/src/main/java/com/example/cardsstudy/AnalyticsActivity.kt:113-118 | the overall bar follows the given sessions, and the chart always shows all of the user's sessions |
| Analytics.AnalyticsActivity.LoadInitialData | app/src/main/java/com/example/cardsstudy/AnalyticsActivity.kt:72-89 | with a user and both queries answered the fields, the spinner, the bar and the chart are set; otherwise nothing changes |
| Analytics.AnalyticsActivity.OnItemSelected | app/src/main/java/com/example/cardsstudy/AnalyticsActivity.kt:100-108 | the overall bar shows the selected sessions while the chart keeps all of them |
| Study.CardViewShows | app/src/main/java/com/example/cardsstudy/StudyActivity.kt:226-312 | each card kind's view: front and back; the question with at most four buttons, each showing an option and, with at most three distractors, one showing the correct answer; the prompt; the masked cloze text and the revealed one |
| Study.ChoiceButtons | app/src/main/java/com/example/cardsstudy/StudyActivity.kt:254-259 | every button shows the correct answer or a distractor, and with at most three distractors one of them shows the correct answer |
| Study.AnswerEffect | app/src/main/java/com/example/cardsstudy/StudyActivity.kt:181-211 | an answer raises the counter of its verdict by one and keeps the other; the card under the cursor gets its new level and review time and its write is requested; no other card changes |
| Study.InitialInvariant | app/src/main/java/com/example/cardsstudy/StudyActivity.kt:30-33 | the state `onCreate` leaves, with an empty log, satisfies the invariant |
| Study.LoadedInvariant | app/src/main/java/com/example/cardsstudy/StudyActivity.kt:113-114 | loading sets both counters to 0 and starts an empty log over the shuffled deck |
| Study.AnswerInvariant | app/src/main/java/com/example/cardsstudy/StudyActivity.kt:181-193 | the answered card is the next card of the shuffled deck, not answered before, and the invariant holds with its verdict logged |
| Study.AbortInvariant | app/src/main/java/com/example/cardsstudy/StudyActivity.kt:283-288 | a check that throws leaves the card unanswered and the invariant intact |
| Study.FinishInvariant | app/src/main/java/com/example/cardsstudy/StudyActivity.kt:132-146 | once every card is answered, saving keeps the invariant |
| Study.AdvanceInvariant | app/src/main/java/com/example/cardsstudy/StudyActivity.kt:123-130 | an advance moves the cursor by exactly one to a card not yet answered, or ends the session once every card is answered |
| Study.SessionEnd | app/src/main/java/com/example/cardsstudy/StudyActivity.kt:123-146 | at the first save every card was shown and answered once, in shuffled order; each write is the card rescheduled by its verdict; the counters add up to the deck size; the summary gets both counts; that save requests one record with user, deck and counts iff there is a user |
| Study.NothingDueSavesNothing | app/src/main/java/com/example/cardsstudy/StudyActivity.kt:94-98 | an empty due query ends the screen with no record and no summary |
| Study.AllDroppedSavesEmptySession | app/src/main/java/com/example/cardsstudy/StudyActivity.kt:100-128 | due documents none of which decode still end in the summary with 0/0, and a 0/0 record is requested when there is a user |
| Study.LoadShowsFirstCard | app/src/main/java/com/example/cardsstudy/StudyActivity.kt:113-126 | with a decodable due card the first card of a permutation of the decoded cards is shown at index 0 |
| Study.StudyActivity.constructor | app/src/main/java/com/example/cardsstudy/StudyActivity.kt:30-33 | the screen starts loading with no cards, the cursor at 0 and both counters at 0 |
| Study.StudyActivity.HandleAnswer | app/src/main/java/com/example/cardsstudy/StudyActivity.kt:181-197 | the new state is `Answer` of the old one, the toast is the message or the default text, and the invariant holds |
| Study.StudyActivity.Judge | app/src/main/java/com/example/cardsstudy/StudyActivity.kt:236-316 | the check of a front/back, type-answer or cloze card, with the cloze spans extracted at display time |
| Study.StudyActivity.CheckClicked | app/src/main/java/com/example/cardsstudy/StudyActivity.kt:236-321 | a throwing check ends the screen with nothing counted; otherwise the answer is applied, the toast shown, and the back revealed for front/back and cloze cards; with the button hidden nothing changes |
| Study.StudyActivity.OptionClicked | app/src/main/java/com/example/cardsstudy/StudyActivity.kt:261-268 | the option on the button is judged case-sensitively and applied with the default toast; once answered (buttons disabled) a click changes nothing |
| Study.StudyActivity.DisplayCard | app/src/main/java/com/example/cardsstudy/StudyActivity.kt:157-179 | the progress line "i+1 / n" and the card's view are shown, the answer is hidden, and the session state does not change |
| Study.StudyActivity.SaveStudySession | app/src/main/java/com/example/cardsstudy/StudyActivity.kt:132-155 | the record is requested when there is a user, and the summary is reached with both counts either way |
| Study.StudyActivity.GoToNextCard | app/src/main/java/com/example/cardsstudy/StudyActivity.kt:123-130 | the new state is `Advance` of the old one, and the card it moves to is displayed |
| Study.StudyActivity.NextClicked | app/src/main/java/com/example/cardsstudy/StudyActivity.kt:63 | while a verdict is shown the next button advances; in every other phase it changes nothing (the button is hidden, or the screen is taken as gone after the save) |
| Study.StudyActivity.LoadCards | app/src/main/java/com/example/cardsstudy/StudyActivity.kt:87-121 | the new state is `Load` of the old one: a failed query shows "Falha ao carregar baralho."; an empty due set shows the nothing-due toast; otherwise the log starts over the shuffled decoded cards and the first card is shown |
| Study.StudyActivity.StartSession | app/src/main/java/com/example/cardsstudy/StudyActivity.kt:113-115 | the shuffled cards become the session, the cursor starts at -1 and advances once |

## Left out

- Study.StudyActivity.NextClicked: with a signed-in user the next button stays visible after the last card (`StudyActivity.kt:195-196`), and the screen only finishes when the `.add(session)` write completes (`StudyActivity.kt:142-145`). While that write is pending, a further tap runs `saveStudySession` again, which requests another record and later starts another summary screen. The model takes the screen as gone once the first record is requested, so a tap after the save changes nothing, and `Study.SessionEnd` describes that first save only.
- Firestore reads and writes. A query result is a parameter: `None` for a failed query. A `.set` or `.add` is recorded as a request in `cardWrites` or `sessionWrites`. The success and failure callbacks of a write do not change the screen, and the model reflects that.
- FirebaseAuth: the signed-in user is the `user` part of `Study.Deck`, and a boolean for the analytics screen. Login, registration and logout are out.
- Firebase Storage (`CardListActivity.kt:171-189`): the selected image is an optional download URL passed to `Validation.ValidateFrontBack`. Upload failure and its toast are out.
- `saveNewCard`, `deleteCard` and the card list adapter of `CardListActivity.kt`: they are Firestore calls and view code.
- Views, visibility toggles, button colours, dialogs, intents and navigation. What a card shows is kept as `Study.View`, the progress text and the toast.
- `MainActivity.kt`'s count of due cards: a fan-out of concurrent queries.
- Randomness: `shuffled()` is the Fisher–Yates pass of `java.util.Collections.shuffle` over an arbitrary sequence of draws. The JDK source is not part of this model.
- Shuffle.Shuffled: states that the result is a permutation for any draws, not that every permutation can occur.
- Time: integer minutes. `Date()` and `Calendar.getInstance()` become the parameter `now`, and `Calendar.add(MINUTE, m)` becomes `+ m`.
- Text.LowerChar: folds only the Basic Latin and Latin-1 Supplement capitals, because full Unicode case folding is out of scope. `equals(ignoreCase = true)` for other scripts is out.
- Display formatting: `DecimalFormat("#.#")`, `"%.1f"` and the pt-BR date format. The date formatter is a function parameter of `SessionRows.DateText`.
- Floating point: percentages are exact `real`s. IEEE rounding and the `toFloat()` of the chart entries are out. `toInt()` is modelled as truncation toward zero.
- 32-bit `Int`: counters, levels and counts are unbounded integers, so overflow after 2^31 answers is out.
- `locationName`: `StudySession.kt:6-13` does not declare it, although `AnalyticsActivity.kt:105` reads it. The model adds it to `Stats.StudySession` as a string that defaults to "". The study screen's record carries "". The `EXTRA_LOCATION_*` extras of `CardListActivity.kt:124-125` are not declared in `StudyActivity.kt` and are out.
- Saved locations: only their names are kept, since the analytics screen uses nothing else.
- The two decoders catch different exceptions: `Exception` in the study screen, `IllegalArgumentException` in the card list. Documents are modelled with typed optional fields, so `toObject` cannot fail. Both decoders therefore drop exactly the documents with an unknown tag, and the warning log is out.
- `displayCard`'s empty-list guard (`StudyActivity.kt:158-162`) is not modelled. `goToNextCard` reaches `displayCard` only with a card under the cursor, so the guard cannot fire.
- A missing deck id makes `onCreate` finish (`StudyActivity.kt:60`). The model starts from a deck that has an id, so `updateCardSrs`'s `deckId?.let` always requests the write.
- An exception thrown by `first()` in the type-answer check ends the screen. It is modelled as the outcome `Crashed` and the phase `Aborted`, with nothing counted or written.
- Disabling the option buttons after an answer is modelled by the phase. Outside `Presenting` a click changes nothing.
- Study.StudyActivity.DisplayCard: the shown view is stated in the ensures clauses of `DisplayCard`, `GoToNextCard` and `LoadCards`, not in the class invariant.

## Findings

| source | as written | input that shows it | evidently intended | confidence | as-written member | corrected member |
|---|---|---|---|---|---|---|
| app/src/main/java/com/example/cardsstudy/CardListActivity.kt:247-251 | accepts any non-empty trimmed text that contains `[[` and `]]` anywhere, in any order | "]] [[": it is accepted, has no span, and its card rejects every answer | accept only a text with at least one `[[…]]` span, as the rejection message asks for | not executed | Validation.ClozeAsWrittenAcceptsNoSpan | Validation.ClozeAcceptedHasSpan |
