/**
 * The study screen (`StudyActivity`): it loads the due cards of a deck, shuffles them and
 * walks a cursor over them one card at a time; each answer updates the two counters and
 * reschedules the card, and after the last card one session record is requested and the
 * summary is reached.
 */
module Study {
  import opened Wrappers
  import opened Text
  import opened Cards
  import opened Srs
  import opened Shuffle
  import opened Cloze
  import opened Evaluator
  import opened Decoding
  import opened Stats

  /**
   * Where the screen is: waiting for the query, ended by a failed query or by an empty
   * one, showing a card with its check or option buttons live, showing the verdict with
   * the next button live, killed by an exception in a check, or handed over to the summary.
   */
  datatype Phase = Loading | LoadFailed | NothingDue | Presenting | Answered | Aborted | Completed

  /** What the card area shows for the current card. */
  datatype View =
    | Blank
    | FrontBackView(frontText: string, backText: string)
    | ChoiceView(question: string, buttons: seq<string>)
    | TypeAnswerView(prompt: string)
    | ClozeView(frontText: string, backText: string)

  /**
   * `displayFrontBackCard`, `displayMultipleChoiceCard`, `displayTypeAnswerCard` and
   * `displayClozeCard`: what each card kind shows. The option buttons show the first four
   * shuffled options, each of which is the correct answer or a distractor, and a card with
   * at most three distractors always shows its correct answer. A cloze card shows its text
   * with every span masked, and as the answer its text with every span revealed.
   */
  function CardView(v: Variant, rnd: seq<nat>): View {
    match v
    case FrontBack(front, back, _) => FrontBackView(front, "Resposta: " + back)
    case MultipleChoice(question, correctAnswer, distractors) =>
      ChoiceView(question, ShownOptions(Options(correctAnswer, distractors, rnd)))
    case TypeAnswer(prompt, _) => TypeAnswerView(prompt)
    case Cloze(text) => ClozeView(Masked(text), "Resposta: " + Revealed(text))
  }

  lemma CardViewShows(v: Variant, rnd: seq<nat>)
    ensures var view := CardView(v, rnd);
      && (v.FrontBack? ==> view == FrontBackView(v.front, "Resposta: " + v.back))
      && (v.MultipleChoice? ==>
        && view.ChoiceView? && view.question == v.question
        && |view.buttons| <= OptionButtons
        && (forall k :: 0 <= k < |view.buttons| ==> view.buttons[k] in v.distractors + [v.correctAnswer])
        && (|v.distractors| <= 3 ==> v.correctAnswer in view.buttons))
      && (v.TypeAnswer? ==> view == TypeAnswerView(v.prompt))
      && (v.Cloze? ==> view == ClozeView(Masked(v.textWithCloze), "Resposta: " + Revealed(v.textWithCloze)))
  {
    if v.MultipleChoice? {
      ChoiceButtons(v.correctAnswer, v.distractors, rnd);
    }
  }

  /**
   * Every option button shows the correct answer or a distractor, and with at most three
   * distractors one of them shows the correct answer.
   */
  lemma ChoiceButtons(correctAnswer: string, distractors: seq<string>, rnd: seq<nat>)
    ensures var shown := ShownOptions(Options(correctAnswer, distractors, rnd));
      && (forall k :: 0 <= k < |shown| ==> shown[k] in distractors + [correctAnswer])
      && (|distractors| <= 3 ==> correctAnswer in shown)
  {
    var options := Options(correctAnswer, distractors, rnd);
    var shown := ShownOptions(options);
    forall k | 0 <= k < |shown| ensures shown[k] in distractors + [correctAnswer] {
      assert shown[k] == options[k];
      assert options[k] in multiset(options);
    }
    if |distractors| <= 3 {
      ShownOptionsHoldAnswer(correctAnswer, distractors, rnd);
    }
  }

  /** The check-button outcome of a card that is not multiple-choice. */
  function CheckOutcome(v: Variant, input: string): (o: Outcome)
    requires !v.MultipleChoice?
  {
    match v
    case FrontBack(_, back, _) => FrontBackCheck(back, input)
    case TypeAnswer(_, acceptableAnswers) => TypeAnswerCheck(acceptableAnswers, input)
    case Cloze(text) => ClozeCheck(text, input)
  }

  /** The progress line, "<position> / <size>". */
  function ProgressText(index: int, size: int): string {
    IntToString(index + 1) + " / " + IntToString(size)
  }

  /** The deck extra, the deck-name extra (or "") and the signed-in user's id, if any. */
  datatype Deck = Deck(deckId: string, deckName: string, user: Option<string>)

  /**
   * The `.add` requests of `saveStudySession` for final counts `correct` and `incorrect`:
   * one record with the user, the deck and the counts, its timestamp left for the server to
   * fill; none without a user.
   */
  function RecordOf(deck: Deck, correct: int, incorrect: int): seq<StudySession> {
    if deck.user.Some? then [StudySession(deck.user.value, deck.deckId, deck.deckName, correct, incorrect, None, "")]
    else []
  }

  /**
   * The session part of the screen: the phase, the four fields `allCards`,
   * `currentCardIndex`, `correctAnswers` and `incorrectAnswers`, the `.set(card)` and
   * `.add(session)` requests made so far, and the counts handed to the summary screen
   * once it is reached.
   */
  datatype StudyState = StudyState(
    phase: Phase,
    allCards: seq<Card>,
    currentCardIndex: int,
    correctAnswers: int,
    incorrectAnswers: int,
    cardWrites: seq<Card>,
    sessionWrites: seq<StudySession>,
    summary: Option<(int, int)>)

  /** The state `onCreate` leaves: no cards, the cursor at 0, both counters at 0. */
  function Initial(): StudyState {
    StudyState(Loading, [], 0, 0, 0, [], [], None)
  }

  /** `allCards = cardList.shuffled(); currentCardIndex = -1`. */
  function Loaded(st: StudyState, cards: seq<Card>): StudyState {
    st.(allCards := cards, currentCardIndex := -1)
  }

  /**
   * `handleAnswer` and `updateCardSrs` for the card under the cursor: the counter of the
   * verdict goes up by one and the other stays; the card's level is bumped or reset, its
   * next review set from `now` by the new level, and its `.set` is requested; no other
   * card changes.
   */
  function Answer(st: StudyState, isCorrect: bool, now: int): StudyState
    requires 0 <= st.currentCardIndex < |st.allCards|
  {
    var card := Reviewed(st.allCards[st.currentCardIndex], isCorrect, now);
    st.(phase := Answered,
        allCards := st.allCards[st.currentCardIndex := card],
        correctAnswers := st.correctAnswers + (if isCorrect then 1 else 0),
        incorrectAnswers := st.incorrectAnswers + (if isCorrect then 0 else 1),
        cardWrites := st.cardWrites + [card])
  }

  lemma AnswerEffect(st: StudyState, isCorrect: bool, now: int)
    requires 0 <= st.currentCardIndex < |st.allCards|
    ensures var r := Answer(st, isCorrect, now);
      && r.phase == Answered && r.currentCardIndex == st.currentCardIndex
      && (isCorrect ==> r.correctAnswers == st.correctAnswers + 1 && r.incorrectAnswers == st.incorrectAnswers)
      && (!isCorrect ==> r.incorrectAnswers == st.incorrectAnswers + 1 && r.correctAnswers == st.correctAnswers)
      && |r.allCards| == |st.allCards|
      && r.allCards[st.currentCardIndex].srsLevel == NextLevel(st.allCards[st.currentCardIndex].srsLevel, isCorrect)
      && r.allCards[st.currentCardIndex].nextReview == now + IntervalMinutes(r.allCards[st.currentCardIndex].srsLevel)
      && r.allCards[st.currentCardIndex].id == st.allCards[st.currentCardIndex].id
      && r.allCards[st.currentCardIndex].variant == st.allCards[st.currentCardIndex].variant
      && r.cardWrites == st.cardWrites + [r.allCards[st.currentCardIndex]]
      && (forall k :: 0 <= k < |st.allCards| && k != st.currentCardIndex ==> r.allCards[k] == st.allCards[k])
      && r.sessionWrites == st.sessionWrites && r.summary == st.summary
  {
  }

  /** A check that throws ends the screen with nothing counted. */
  function Abort(st: StudyState): StudyState {
    st.(phase := Aborted)
  }

  /** `saveStudySession` and `navigateToSummary`. */
  function Finish(st: StudyState, deck: Deck): StudyState {
    st.(phase := Completed,
        summary := Some((st.correctAnswers, st.incorrectAnswers)),
        sessionWrites := st.sessionWrites + RecordOf(deck, st.correctAnswers, st.incorrectAnswers))
  }

  /**
   * `goToNextCard`: while the cursor is before the last card it moves on by one and that
   * card is shown; otherwise the session ends.
   */
  function Advance(st: StudyState, deck: Deck): StudyState {
    if st.currentCardIndex < |st.allCards| - 1 then
      st.(phase := Presenting, currentCardIndex := st.currentCardIndex + 1)
    else Finish(st, deck)
  }

  /**
   * The session part of `loadCards`, with `collection` the stored cards of the deck (None
   * when the query fails): the query keeps the due ones; if there are none the screen ends;
   * otherwise the decoded cards, shuffled with `rnd`, become the session and the cursor
   * starts at -1 and advances once.
   */
  function Load(st: StudyState, collection: Option<seq<Document>>, now: int, rnd: seq<nat>, deck: Deck): StudyState {
    if collection.None? then st.(phase := LoadFailed)
    else if DueDocuments(collection.value, now) == [] then st.(phase := NothingDue)
    else Advance(Loaded(st, Shuffled(DecodeAll(DueDocuments(collection.value, now), now), rnd)), deck)
  }

  /** What the answers so far leave behind: the deck as loaded, each verdict and its time. */
  datatype Log = Log(order: seq<Card>, verdicts: seq<bool>, times: seq<int>)

  /** The number of cards answered so far. */
  function Done(st: StudyState): int {
    match st.phase
    case Presenting => st.currentCardIndex
    case Aborted => st.currentCardIndex
    case Answered => st.currentCardIndex + 1
    case Completed => |st.allCards|
    case _ => 0
  }

  /**
   * The answer log of a session over the shuffled deck `order`: the first `done` cards
   * are answered once each, in order, and rescheduled by their verdict at their time, one
   * write was requested for each, and the remaining cards are as loaded.
   */
  ghost predicate SessionLog(order: seq<Card>, cards: seq<Card>, verdicts: seq<bool>, times: seq<int>, writes: seq<Card>, done: int) {
    && |cards| == |order| && 0 <= done <= |cards|
    && |verdicts| == done && |times| == done && |writes| == done
    && (forall i :: 0 <= i < done ==> Rescheduled(order, cards, verdicts, times, writes, i))
    && (forall i :: done <= i < |cards| ==> AsLoaded(order, cards, i))
  }

  /** Card `i` was answered with verdict `i` at time `i`, and written back. */
  ghost predicate Rescheduled(order: seq<Card>, cards: seq<Card>, verdicts: seq<bool>, times: seq<int>, writes: seq<Card>, i: int) {
    && 0 <= i < |order| && i < |cards| && i < |verdicts| && i < |times| && i < |writes|
    && cards[i] == Reviewed(order[i], verdicts[i], times[i]) && writes[i] == cards[i]
  }

  /** Card `i` is as loaded. */
  ghost predicate AsLoaded(order: seq<Card>, cards: seq<Card>, i: int) {
    0 <= i < |order| && i < |cards| && cards[i] == order[i]
  }

  /** The number of correct verdicts. */
  function CountTrue(verdicts: seq<bool>): (n: nat)
    ensures n <= |verdicts|
  {
    if verdicts == [] then 0
    else CountTrue(verdicts[..|verdicts| - 1]) + (if verdicts[|verdicts| - 1] then 1 else 0)
  }

  lemma CountTrueAppend(verdicts: seq<bool>, b: bool)
    ensures CountTrue(verdicts + [b]) == CountTrue(verdicts) + (if b then 1 else 0)
  {
    assert (verdicts + [b])[..|verdicts|] == verdicts;
  }

  /**
   * The invariant of a study session: the cursor lies inside the deck while a card is up;
   * the answers so far follow the log; the counters count its verdicts; a session record
   * and the summary exist only at the end, the record exactly when there is a user.
   */
  ghost predicate Invariant(st: StudyState, log: Log, deck: Deck) {
    && (st.phase == Presenting || st.phase == Answered || st.phase == Aborted ==>
          0 <= st.currentCardIndex < |st.allCards|)
    && SessionLog(log.order, st.allCards, log.verdicts, log.times, st.cardWrites, Done(st))
    && st.correctAnswers == CountTrue(log.verdicts)
    && st.incorrectAnswers == |log.verdicts| - CountTrue(log.verdicts)
    && (st.phase != Completed ==> st.sessionWrites == [] && st.summary == None)
    && (st.phase == Completed ==>
          && st.summary == Some((st.correctAnswers, st.incorrectAnswers))
          && st.sessionWrites == RecordOf(deck, st.correctAnswers, st.incorrectAnswers))
  }

  lemma InitialInvariant(deck: Deck)
    ensures Invariant(Initial(), Log([], [], []), deck)
  {
  }

  /**
   * Loading starts a fresh session over the loaded cards: nothing answered or written yet,
   * both counters at 0 and the cursor at -1.
   */
  lemma LoadedInvariant(st: StudyState, log: Log, deck: Deck, cards: seq<Card>)
    requires Invariant(st, log, deck) && st.phase == Loading
    ensures Invariant(Loaded(st, cards), Log(cards, [], []), deck)
    ensures Loaded(st, cards).correctAnswers == 0 && Loaded(st, cards).incorrectAnswers == 0
    ensures Loaded(st, cards).cardWrites == []
  {
    assert log.verdicts == [];
  }

  /**
   * Answering keeps the invariant, with the verdict and its time appended to the log; the
   * card answered is the next card of the shuffled deck, not answered before.
   */
  lemma AnswerInvariant(st: StudyState, log: Log, deck: Deck, isCorrect: bool, now: int)
    requires Invariant(st, log, deck) && st.phase == Presenting
    ensures st.allCards[st.currentCardIndex] == log.order[st.currentCardIndex]
    ensures Invariant(Answer(st, isCorrect, now), Log(log.order, log.verdicts + [isCorrect], log.times + [now]), deck)
  {
    var i := st.currentCardIndex;
    LogStep(log.order, st.allCards, log.verdicts, log.times, st.cardWrites, i, isCorrect, now);
    CountTrueAppend(log.verdicts, isCorrect);
  }

  /** Answering the next card extends the log by that card. */
  lemma LogStep(order: seq<Card>, cards: seq<Card>, verdicts: seq<bool>, times: seq<int>, writes: seq<Card>, done: int, isCorrect: bool, now: int)
    requires SessionLog(order, cards, verdicts, times, writes, done) && done < |cards|
    ensures cards[done] == order[done]
    ensures SessionLog(order, cards[done := Reviewed(cards[done], isCorrect, now)], verdicts + [isCorrect], times + [now],
      writes + [Reviewed(cards[done], isCorrect, now)], done + 1)
  {
    var c := Reviewed(cards[done], isCorrect, now);
    var cards', verdicts', times', writes' := cards[done := c], verdicts + [isCorrect], times + [now], writes + [c];
    assert AsLoaded(order, cards, done);
    forall i | 0 <= i < done + 1 ensures Rescheduled(order, cards', verdicts', times', writes', i) {
      if i < done {
        assert Rescheduled(order, cards, verdicts, times, writes, i);
      }
    }
    forall i | done + 1 <= i < |cards'| ensures AsLoaded(order, cards', i) {
      assert AsLoaded(order, cards, i);
    }
  }

  /** A throwing check keeps the invariant: the card stays unanswered. */
  lemma AbortInvariant(st: StudyState, log: Log, deck: Deck)
    requires Invariant(st, log, deck) && st.phase == Presenting
    ensures Invariant(Abort(st), log, deck)
  {
  }

  /** Once every card is answered the session can end, keeping the invariant. */
  lemma FinishInvariant(st: StudyState, log: Log, deck: Deck)
    requires Invariant(st, log, deck) && (st.phase == Answered || st.phase == Loading)
    requires Done(st) == |st.allCards|
    ensures Invariant(Finish(st, deck), log, deck)
  {
  }

  /**
   * Advancing keeps the invariant. From the loaded state (cursor -1) or after an answer,
   * the cursor moves to exactly the next card, which is still as loaded, or, after the
   * last card, the session ends with every card answered.
   */
  lemma {:induction false} AdvanceInvariant(st: StudyState, log: Log, deck: Deck)
    requires Invariant(st, log, deck)
    requires st.phase == Answered || (st.phase == Loading && st.currentCardIndex == -1)
    ensures Invariant(Advance(st, deck), log, deck)
    ensures Advance(st, deck).phase == Presenting ==>
      && Advance(st, deck).currentCardIndex == st.currentCardIndex + 1
      && Advance(st, deck).allCards[st.currentCardIndex + 1] == log.order[st.currentCardIndex + 1]
    ensures Advance(st, deck).phase == Completed ==> |log.verdicts| == |log.order|
  {
    if st.currentCardIndex >= |st.allCards| - 1 {
      FinishInvariant(st, log, deck);
    } else {
      assert AsLoaded(log.order, st.allCards, st.currentCardIndex + 1);
    }
  }

  /**
   * At the end of a session every card of the shuffled deck was answered exactly once, in
   * order, and written back rescheduled by its verdict; the counters add up to the deck's
   * size, the summary receives them, and the one record (with a user) carries them.
   */
  lemma SessionEnd(st: StudyState, log: Log, deck: Deck)
    requires Invariant(st, log, deck) && st.phase == Completed
    ensures |st.cardWrites| == |log.order| && |log.verdicts| == |log.order|
    ensures forall i :: 0 <= i < |log.order| ==> st.cardWrites[i] == Reviewed(log.order[i], log.verdicts[i], log.times[i])
    ensures st.correctAnswers + st.incorrectAnswers == |log.order|
    ensures st.summary == Some((CountTrue(log.verdicts), |log.order| - CountTrue(log.verdicts)))
    ensures deck.user.Some? ==>
      && |st.sessionWrites| == 1 && st.sessionWrites[0].correctCount == st.correctAnswers
      && st.sessionWrites[0].incorrectCount == st.incorrectAnswers && st.sessionWrites[0].deckId == deck.deckId
    ensures deck.user.None? ==> st.sessionWrites == []
  {
    forall i | 0 <= i < |log.order|
      ensures st.cardWrites[i] == Reviewed(log.order[i], log.verdicts[i], log.times[i])
    {
      assert Rescheduled(log.order, st.allCards, log.verdicts, log.times, st.cardWrites, i);
    }
  }

  /** No due card: the screen ends with no record and no summary. */
  lemma NothingDueSavesNothing(docs: seq<Document>, now: int, rnd: seq<nat>, deck: Deck)
    requires DueDocuments(docs, now) == []
    ensures Load(Initial(), Some(docs), now, rnd, deck).phase == NothingDue
    ensures Load(Initial(), Some(docs), now, rnd, deck).sessionWrites == []
    ensures Load(Initial(), Some(docs), now, rnd, deck).summary == None
  {
  }

  /**
   * Due cards none of which decodes: the session ends at once and, with a user, a 0/0
   * record is still requested; the summary receives 0 and 0.
   */
  lemma AllDroppedSavesEmptySession(docs: seq<Document>, now: int, rnd: seq<nat>, deck: Deck)
    requires DueDocuments(docs, now) != []
    requires forall k :: 0 <= k < |DueDocuments(docs, now)| ==> Decode(DueDocuments(docs, now)[k], now).None?
    ensures Load(Initial(), Some(docs), now, rnd, deck).phase == Completed
    ensures Load(Initial(), Some(docs), now, rnd, deck).summary == Some((0, 0))
    ensures Load(Initial(), Some(docs), now, rnd, deck).sessionWrites == RecordOf(deck, 0, 0)
  {
    NoneDecoded(DueDocuments(docs, now), now);
  }

  /** When no document decodes, nothing is kept. */
  lemma {:induction false} NoneDecoded(docs: seq<Document>, now: int)
    requires forall k :: 0 <= k < |docs| ==> Decode(docs[k], now).None?
    ensures DecodeAll(docs, now) == []
  {
    if docs != [] {
      assert Decode(docs[|docs| - 1], now).None?;
      NoneDecoded(docs[..|docs| - 1], now);
    }
  }

  /**
   * Due cards some of which decode: the session shows the first card of the shuffled
   * decoded cards, a permutation of them, with the cursor at 0.
   */
  lemma LoadShowsFirstCard(docs: seq<Document>, now: int, rnd: seq<nat>, deck: Deck)
    requires DecodeAll(DueDocuments(docs, now), now) != []
    ensures var st := Load(Initial(), Some(docs), now, rnd, deck);
      && st.phase == Presenting && st.currentCardIndex == 0
      && multiset(st.allCards) == multiset(DecodeAll(DueDocuments(docs, now), now))
  {
  }

  class StudyActivity {
    const deck: Deck

    var phase: Phase
    var allCards: seq<Card>
    var currentCardIndex: int
    var correctAnswers: int
    var incorrectAnswers: int
    /** The `.set(card)` requests of `updateCardSrs`, in order. */
    var cardWrites: seq<Card>
    /** The `.add(session)` requests of `saveStudySession`. */
    var sessionWrites: seq<StudySession>
    /** The counts handed to the summary screen, once it is reached. */
    var summary: Option<(int, int)>

    var progressText: string
    var view: View
    /** The span answers the cloze check compares against, extracted when the card is shown. */
    var clozeAnswers: seq<string>
    /** Whether the back text has replaced the answer field. */
    var answerShown: bool
    /** The last toast shown. */
    var toast: Option<string>

    ghost var log: Log

    /** The session part of the fields. */
    ghost function Snapshot(): StudyState
      reads this
    {
      StudyState(phase, allCards, currentCardIndex, correctAnswers, incorrectAnswers, cardWrites, sessionWrites, summary)
    }

    /**
     * The card on screen awaits its answer: the back text is still hidden and the cloze check
     * compares against the card's span answers.
     */
    ghost predicate AwaitsAnswer()
      reads this
      requires 0 <= currentCardIndex < |allCards|
    {
      var v := allCards[currentCardIndex].variant;
      !answerShown && (v.Cloze? ==> clozeAnswers == Answers(v.textWithCloze))
    }

    ghost predicate Valid()
      reads this
    {
      && Invariant(Snapshot(), log, deck)
      && (phase == Presenting ==> AwaitsAnswer())
    }

    /** `onCreate` with the deck extras and the signed-in user. */
    constructor(deck: Deck)
      ensures Valid() && this.deck == deck
      ensures Snapshot() == Initial() && toast == None
    {
      this.deck := deck;
      phase, allCards, currentCardIndex, correctAnswers, incorrectAnswers := Loading, [], 0, 0, 0;
      cardWrites, sessionWrites, summary := [], [], None;
      progressText, view, clozeAnswers, answerShown, toast := "", Blank, [], false, None;
      log := Log([], [], []);
      InitialInvariant(deck);
    }

    /** The card under the cursor can be answered with the check button. */
    ghost predicate Checkable()
      reads this
    {
      phase == Presenting && 0 <= currentCardIndex < |allCards| && !allCards[currentCardIndex].variant.MultipleChoice?
    }

    /** The card under the cursor is multiple-choice and `button` shows an option. */
    ghost predicate Clickable(button: int)
      reads this
    {
      && phase == Presenting && 0 <= currentCardIndex < |allCards|
      && allCards[currentCardIndex].variant.MultipleChoice?
      && view.ChoiceView? && 0 <= button < |view.buttons|
    }

    /** `handleAnswer(card, isCorrect, message)` followed by `updateCardSrs(card)`. */
    method HandleAnswer(isCorrect: bool, message: Option<string>, now: int)
      requires Invariant(Snapshot(), log, deck) && phase == Presenting
      modifies this
      ensures Valid()
      ensures Snapshot() == Answer(old(Snapshot()), isCorrect, now)
      ensures toast == Some(ToastText(isCorrect, message))
      ensures view == old(view) && answerShown == old(answerShown)
    {
      AnswerInvariant(Snapshot(), log, deck, isCorrect, now);
      var card := Reviewed(allCards[currentCardIndex], isCorrect, now);
      if isCorrect {
        correctAnswers := correctAnswers + 1;
      } else {
        incorrectAnswers := incorrectAnswers + 1;
      }
      toast := Some(ToastText(isCorrect, message));
      allCards := allCards[currentCardIndex := card];
      cardWrites := cardWrites + [card];
      log := Log(log.order, log.verdicts + [isCorrect], log.times + [now]);
      phase := Answered;
    }

    /**
     * The verdict of the check button on the card under the cursor, a front/back, type-answer
     * or cloze card; the cloze check matches against the span answers extracted when the
     * card was shown.
     */
    method Judge(input: string) returns (outcome: Outcome)
      requires Valid() && Checkable()
      ensures outcome == CheckOutcome(allCards[currentCardIndex].variant, input)
    {
      match allCards[currentCardIndex].variant {
        case FrontBack(_, back, _) =>
          outcome := FrontBackCheck(back, input);
        case TypeAnswer(_, acceptableAnswers) =>
          outcome := TypeAnswerCheck(acceptableAnswers, input);
        case Cloze(text) =>
          var ok := MatchesAny(clozeAnswers, input);
          outcome := Judged(ok, Some(if ok then "Correto!" else "Incorreto!"));
      }
    }

    /**
     * The check button's listener with `input` in the answer field: a front/back or cloze
     * card is judged and its back text revealed; a type-answer card is judged, unless it
     * has no acceptable answers and `first()` throws on a wrong answer, which ends the
     * screen with nothing counted. The button is hidden in every other state, so a click
     * there changes nothing.
     */
    method CheckClicked(input: string, now: int)
      requires Valid()
      modifies this
      ensures Valid()
      ensures !old(Checkable()) ==> unchanged(this)
      ensures old(Checkable()) ==>
        var o := old(CheckOutcome(allCards[currentCardIndex].variant, input));
        && (o.Crashed? ==> Snapshot() == Abort(old(Snapshot())))
        && (o.Judged? ==>
              && Snapshot() == Answer(old(Snapshot()), o.isCorrect, now)
              && toast == Some(ToastText(o.isCorrect, o.message))
              && answerShown == !old(allCards[currentCardIndex].variant).TypeAnswer?)
    {
      if phase != Presenting || allCards[currentCardIndex].variant.MultipleChoice? {
        return;
      }
      var v := allCards[currentCardIndex].variant;
      var outcome := Judge(input);
      if outcome.Crashed? {
        AbortInvariant(Snapshot(), log, deck);
        phase := Aborted;
        return;
      }
      HandleAnswer(outcome.isCorrect, outcome.message, now);
      if !v.TypeAnswer? {
        answerShown := true;
      }
    }

    /**
     * The listener of option button `button`: the option it shows is judged against the
     * correct answer, case-sensitively, with the default message. Once answered the
     * buttons are disabled, so a click in any other state changes nothing.
     */
    method OptionClicked(button: int, now: int)
      requires Valid()
      modifies this
      ensures Valid()
      ensures !old(Clickable(button)) ==> unchanged(this)
      ensures old(Clickable(button)) ==>
        var o := OptionCheck(old(allCards[currentCardIndex].variant.correctAnswer), old(view.buttons[button]));
        Snapshot() == Answer(old(Snapshot()), o.isCorrect, now) && toast == Some(ToastText(o.isCorrect, None))
    {
      if !(phase == Presenting && allCards[currentCardIndex].variant.MultipleChoice?
           && view.ChoiceView? && 0 <= button < |view.buttons|) {
        return;
      }
      var outcome := OptionCheck(allCards[currentCardIndex].variant.correctAnswer, view.buttons[button]);
      HandleAnswer(outcome.isCorrect, None, now);
    }

    /**
     * `displayCard` for the card under the cursor: the progress line, the card's view
     * (the options shuffled with `rnd`) and, for a cloze card, its span answers, extracted
     * by the matcher loop.
     */
    method DisplayCard(rnd: seq<nat>)
      requires Invariant(Snapshot(), log, deck) && phase == Presenting
      modifies this
      ensures Snapshot() == old(Snapshot()) && log == old(log) && toast == old(toast)
      ensures Valid()
      ensures view == CardView(allCards[currentCardIndex].variant, rnd)
      ensures progressText == ProgressText(currentCardIndex, |allCards|) && !answerShown
    {
      var v := allCards[currentCardIndex].variant;
      progressText := ProgressText(currentCardIndex, |allCards|);
      view := CardView(v, rnd);
      answerShown := false;
      if v.Cloze? {
        var answers := ExtractAnswers(v.textWithCloze);
        clozeAnswers := answers;
      }
    }

    /**
     * `saveStudySession` and `navigateToSummary` once every card is answered: with a user
     * one record with the final counts and the deck is requested; with or without one, and
     * whatever the request's outcome, the summary receives the counts.
     */
    method SaveStudySession()
      requires Invariant(Snapshot(), log, deck) && (phase == Answered || phase == Loading)
      requires Done(Snapshot()) == |allCards|
      modifies this
      ensures Valid() && Snapshot() == Finish(old(Snapshot()), deck)
      ensures log == old(log) && toast == old(toast)
    {
      FinishInvariant(Snapshot(), log, deck);
      sessionWrites := sessionWrites + RecordOf(deck, correctAnswers, incorrectAnswers);
      summary := Some((correctAnswers, incorrectAnswers));
      phase := Completed;
    }

    /**
     * `goToNextCard`, from the loaded state with the cursor at -1 or after an answer: the
     * next card is shown with its options shuffled by `rnd`, or the session ends.
     */
    method GoToNextCard(rnd: seq<nat>)
      requires Valid()
      requires phase == Answered || (phase == Loading && currentCardIndex == -1)
      modifies this
      ensures Valid() && Snapshot() == Advance(old(Snapshot()), deck)
      ensures log == old(log) && toast == old(toast)
      ensures phase == Presenting ==> view == CardView(allCards[currentCardIndex].variant, rnd)
    {
      AdvanceInvariant(Snapshot(), log, deck);
      if currentCardIndex < |allCards| - 1 {
        currentCardIndex := currentCardIndex + 1;
        phase := Presenting;
        DisplayCard(rnd);
      } else {
        SaveStudySession();
      }
    }

    /**
     * The next button. It is shown with each verdict; once the session is saved the screen
     * is taken as gone, so a tap then changes nothing.
     */
    method NextClicked(rnd: seq<nat>)
      requires Valid()
      modifies this
      ensures Valid()
      ensures old(phase) != Answered ==> unchanged(this)
      ensures old(phase) == Answered ==> Snapshot() == Advance(old(Snapshot()), deck)
    {
      if phase == Answered {
        GoToNextCard(rnd);
      }
    }

    /**
     * `loadCards` with `collection` the deck's stored cards (None when the query fails),
     * the document order shuffled with `rndCards` and the options of the first card with
     * `rndOptions`.
     */
    method LoadCards(collection: Option<seq<Document>>, now: int, rndCards: seq<nat>, rndOptions: seq<nat>)
      requires Valid() && phase == Loading
      modifies this
      ensures Valid() && Snapshot() == Load(old(Snapshot()), collection, now, rndCards, deck)
      ensures collection.None? ==> toast == Some("Falha ao carregar baralho.")
      ensures collection.Some? && DueDocuments(collection.value, now) == [] ==>
        toast == Some("Nenhum cartão para rever agora. Bom trabalho!")
      ensures collection.Some? && DueDocuments(collection.value, now) != [] ==>
        log == Log(Shuffled(DecodeAll(DueDocuments(collection.value, now), now), rndCards), [], [])
      ensures phase == Presenting ==> view == CardView(allCards[currentCardIndex].variant, rndOptions)
    {
      if collection.None? {
        phase := LoadFailed;
        toast := Some("Falha ao carregar baralho.");
        return;
      }
      var due := DueDocuments(collection.value, now);
      if due == [] {
        phase := NothingDue;
        toast := Some("Nenhum cartão para rever agora. Bom trabalho!");
        return;
      }
      var cardList := DecodeDocuments(due, now);
      StartSession(Shuffled(cardList, rndCards), rndOptions);
    }

    /** The success path of `loadCards`: the shuffled cards become the session and the first is shown. */
    method StartSession(shuffled: seq<Card>, rndOptions: seq<nat>)
      requires Valid() && phase == Loading
      modifies this
      ensures Valid() && Snapshot() == Advance(Loaded(old(Snapshot()), shuffled), deck)
      ensures log == Log(shuffled, [], []) && toast == old(toast)
      ensures phase == Presenting ==> view == CardView(allCards[currentCardIndex].variant, rndOptions)
    {
      ghost var loaded := Loaded(Snapshot(), shuffled);
      LoadedInvariant(Snapshot(), log, deck, shuffled);
      allCards := shuffled;
      currentCardIndex := -1;
      log := Log(shuffled, [], []);
      assert Snapshot() == loaded;
      GoToNextCard(rndOptions);
    }
  }
}
