/**
 * The answer checks of the study screen, one per card kind: what `displayFrontBackCard`,
 * `displayMultipleChoiceCard`, `displayTypeAnswerCard` and `displayClozeCard` hand to
 * `handleAnswer` when the user answers.
 */
module Evaluator {
  import opened Wrappers
  import opened Text
  import opened Cards
  import opened Cloze
  import opened Shuffle

  /**
   * What a check produces: the verdict and the message argument of `handleAnswer` (None
   * when the default "Correto!"/"Incorreto!" is used), or the exception that ends the
   * activity before `handleAnswer` is reached.
   */
  datatype Outcome = Judged(isCorrect: bool, message: Option<string>) | Crashed

  /** The toast `handleAnswer` shows: the message, or its default for the verdict. */
  function ToastText(isCorrect: bool, message: Option<string>): (t: string)
    ensures message.Some? ==> t == message.value
    ensures message.None? && isCorrect ==> t == "Correto!"
    ensures message.None? && !isCorrect ==> t == "Incorreto!"
  {
    message.GetOr(if isCorrect then "Correto!" else "Incorreto!")
  }

  /** Some entry of `answers` equals the trimmed input, ignoring case. */
  predicate MatchesAny(answers: seq<string>, input: string) {
    exists i :: 0 <= i < |answers| && EqualsIgnoreCase(answers[i], Trim(input))
  }

  /** The front/back check: the trimmed input against the untrimmed back, ignoring case. */
  function FrontBackCheck(back: string, input: string): (o: Outcome)
    ensures o.Judged? && o.message.Some?
    ensures o.isCorrect <==> Lower(Trim(input)) == Lower(back)
    ensures o.isCorrect ==> o.message.value == "Correto!"
    ensures !o.isCorrect ==> o.message.value == "Incorreto. A resposta era: " + back
  {
    EqualsIgnoreCaseIsFoldEquality(Trim(input), back);
    var ok := EqualsIgnoreCase(Trim(input), back);
    Judged(ok, Some(if ok then "Correto!" else "Incorreto. A resposta era: " + back))
  }

  /**
   * The type-answer check: correct iff some acceptable answer equals the trimmed input
   * ignoring case; a wrong answer quotes the first acceptable answer, and with no
   * acceptable answers at all `first()` throws.
   */
  function TypeAnswerCheck(acceptableAnswers: seq<string>, input: string): (o: Outcome)
    ensures o.Crashed? <==> acceptableAnswers == []
    ensures o.Judged? ==> (o.isCorrect <==> MatchesAny(acceptableAnswers, input))
    ensures o.Judged? && o.isCorrect ==> o.message == None
    ensures o.Judged? && !o.isCorrect ==> o.message == Some("A resposta correta era: " + acceptableAnswers[0])
  {
    if MatchesAny(acceptableAnswers, input) then Judged(true, None)
    else if acceptableAnswers == [] then Crashed
    else Judged(false, Some("A resposta correta era: " + acceptableAnswers[0]))
  }

  /**
   * The cloze check: correct iff some extracted span answer equals the trimmed input
   * ignoring case.
   */
  function ClozeCheck(textWithCloze: string, input: string): (o: Outcome)
    ensures o.Judged? && o.message.Some?
    ensures o.isCorrect <==> exists k :: 0 <= k < |Answers(textWithCloze)| && EqualsIgnoreCase(Answers(textWithCloze)[k], Trim(input))
    ensures o.message.value == (if o.isCorrect then "Correto!" else "Incorreto!")
  {
    var ok := MatchesAny(Answers(textWithCloze), input);
    Judged(ok, Some(if ok then "Correto!" else "Incorreto!"))
  }

  /** The options of a multiple-choice card: `(distractors + correctAnswer).shuffled()`. */
  function Options(correctAnswer: string, distractors: seq<string>, rnd: seq<nat>): (o: seq<string>)
    ensures multiset(o) == multiset(distractors + [correctAnswer])
    ensures correctAnswer in o
  {
    var o := Shuffled(distractors + [correctAnswer], rnd);
    assert correctAnswer in multiset(distractors + [correctAnswer]);
    o
  }

  /** There are four option buttons; option k gets button k when k < 4. */
  const OptionButtons: nat := 4

  /** The options that get a visible button. */
  function ShownOptions(options: seq<string>): (shown: seq<string>)
    ensures |shown| == if |options| < OptionButtons then |options| else OptionButtons
    ensures forall k :: 0 <= k < |shown| ==> shown[k] == options[k]
  {
    if |options| < OptionButtons then options else options[..OptionButtons]
  }

  /** A click on the option button showing `text`: case-sensitive equality, default message. */
  function OptionCheck(correctAnswer: string, text: string): (o: Outcome)
    ensures o.Judged? && o.message == None
    ensures o.isCorrect <==> text == correctAnswer
  {
    Judged(text == correctAnswer, None)
  }

  /**
   * Typing the back up to case and surrounding whitespace is accepted, provided the back
   * itself carries no surrounding whitespace.
   */
  lemma FrontBackAcceptsPaddedAnswer(back: string, typed: string, pre: string, post: string)
    requires Trim(back) == back && Trim(typed) == typed
    requires EqualsIgnoreCase(typed, back)
    requires forall i :: 0 <= i < |pre| ==> IsWhitespace(pre[i])
    requires forall i :: 0 <= i < |post| ==> IsWhitespace(post[i])
    ensures FrontBackCheck(back, pre + typed + post).isCorrect
  {
    TrimPadded(pre, typed, post);
  }

  /** No folded character is whitespace unless it was whitespace already. */
  lemma LowerCharWhitespace(c: char)
    ensures IsWhitespace(LowerChar(c)) <==> IsWhitespace(c)
  {
  }

  /**
   * Only the input is trimmed: a back that ends in whitespace (e.g. "Paris ") is never
   * matched, whatever the user types.
   */
  lemma UntrimmedBackNeverMatches(back: string, input: string)
    requires back != [] && IsWhitespace(back[|back| - 1])
    ensures !FrontBackCheck(back, input).isCorrect
  {
    var t := Trim(input);
    if EqualsIgnoreCase(t, back) {
      assert t != [];
      LowerCharWhitespace(t[|t| - 1]);
      LowerCharWhitespace(back[|back| - 1]);
      assert false;
    }
  }

  /** The multiple-choice check is case-sensitive, unlike the typed checks. */
  lemma ChoiceIsCaseSensitive()
    ensures EqualsIgnoreCase("paris", "Paris")
    ensures !OptionCheck("Paris", "paris").isCorrect
    ensures FrontBackCheck("Paris", "paris").isCorrect
  {
    assert LowerChar('P') == 'p';
    assert "paris"[0] == 'p' && "Paris"[0] == 'P';
    TrimUnique("paris", 0, 5);
    assert "paris"[0..5] == "paris";
  }

  /**
   * With at most three distractors every option gets a button, so the correct answer is
   * always among the shown options, whatever the shuffle.
   */
  lemma ShownOptionsHoldAnswer(correctAnswer: string, distractors: seq<string>, rnd: seq<nat>)
    requires |distractors| <= 3
    ensures ShownOptions(Options(correctAnswer, distractors, rnd)) == Options(correctAnswer, distractors, rnd)
    ensures correctAnswer in ShownOptions(Options(correctAnswer, distractors, rnd))
  {
    var o := Options(correctAnswer, distractors, rnd);
    assert |o| == |distractors| + 1 by {
      assert |multiset(o)| == |multiset(distractors + [correctAnswer])|;
    }
  }

  /**
   * With four distractors the fifth option has no button: draws that keep the order leave
   * the correct answer last, where no button shows it.
   */
  lemma HiddenAnswerWithFourDistractors(correctAnswer: string, distractors: seq<string>)
    requires |distractors| == 4 && correctAnswer !in distractors
    ensures Options(correctAnswer, distractors, [4, 3, 2, 1]) == distractors + [correctAnswer]
    ensures correctAnswer !in ShownOptions(Options(correctAnswer, distractors, [4, 3, 2, 1]))
  {
    var s := distractors + [correctAnswer];
    var rnd: seq<nat> := [4, 3, 2, 1];
    assert Draw(rnd, 0) == 4 && Draw(rnd, 1) == 3 && Draw(rnd, 2) == 2 && Draw(rnd, 3) == 1;
    IdentityDraws(s, rnd, |s|);
    assert ShownOptions(s) == distractors;
  }

  /** Typing a span answer back, up to case and surrounding whitespace, is accepted. */
  lemma ClozeAcceptsSpan(textWithCloze: string, k: nat, pre: string, post: string)
    requires k < |Answers(textWithCloze)|
    requires Trim(Answers(textWithCloze)[k]) == Answers(textWithCloze)[k]
    requires forall i :: 0 <= i < |pre| ==> IsWhitespace(pre[i])
    requires forall i :: 0 <= i < |post| ==> IsWhitespace(post[i])
    ensures ClozeCheck(textWithCloze, pre + Answers(textWithCloze)[k] + post).isCorrect
  {
    TrimPadded(pre, Answers(textWithCloze)[k], post);
  }

  /** A text without `[[` has no spans, so its cloze check rejects every input. */
  lemma ClozeWithoutSpansRejects(textWithCloze: string, input: string)
    requires !Contains(textWithCloze, "[[")
    ensures !ClozeCheck(textWithCloze, input).isCorrect
  {
    NoSpans(textWithCloze);
  }

  /** The type-answer check accepts exactly the inputs that fold to an acceptable answer. */
  lemma TypeAnswerAcceptsListed(acceptableAnswers: seq<string>, k: nat, input: string)
    requires k < |acceptableAnswers|
    requires Trim(input) == Trim(acceptableAnswers[k])
    requires Trim(acceptableAnswers[k]) == acceptableAnswers[k]
    ensures TypeAnswerCheck(acceptableAnswers, input) == Judged(true, None)
  {
    EqualsIgnoreCaseIsEquivalence(acceptableAnswers[k], Trim(input), Trim(input));
  }
}
