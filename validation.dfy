/**
 * The "Salvar" handlers of the four card-creation dialogs of the card list: each trims its
 * fields, rejects the input or yields the card payload that is then stored.
 */
module Validation {
  import opened Wrappers
  import opened Text
  import opened Cards
  import opened Cloze
  import opened Evaluator

  /**
   * The front/back dialog. `imageUrl` stands for the selected image: None when no image
   * is selected, otherwise the download URL the upload yields. Rejected iff the trimmed
   * back is empty, or the trimmed front is empty and no image is selected.
   */
  function ValidateFrontBack(front: string, back: string, imageUrl: Option<string>): (r: Option<Variant>)
    ensures r.None? <==> Trim(back) == [] || (Trim(front) == [] && imageUrl.None?)
    ensures r.Some? ==> r.value == FrontBack(Trim(front), Trim(back), imageUrl)
  {
    var frontText := Trim(front);
    var backText := Trim(back);
    if backText == [] || (frontText == [] && imageUrl.None?) then None
    else Some(FrontBack(frontText, backText, imageUrl))
  }

  /** `trim().takeIf { it.isNotEmpty() }` of one distractor field, inside `listOfNotNull`. */
  function KeptField(field: string): (r: seq<string>)
    ensures |r| <= 1
    ensures r == [] <==> Trim(field) == []
    ensures r != [] ==> r[0] == Trim(field)
  {
    if Trim(field) == [] then [] else [Trim(field)]
  }

  /** The distractors: the non-empty trimmed fields, in field order. */
  function Distractors(d1: string, d2: string, d3: string): (ds: seq<string>)
    ensures |ds| <= 3
    ensures ds == KeptField(d1) + KeptField(d2) + KeptField(d3)
  {
    KeptField(d1) + KeptField(d2) + KeptField(d3)
  }

  /**
   * The multiple-choice dialog: accepted iff the trimmed question and correct answer are
   * non-empty and at least one distractor field is non-empty after trimming.
   */
  function ValidateMultipleChoice(question: string, correctAnswer: string, d1: string, d2: string, d3: string): (r: Option<Variant>)
    ensures r.Some? <==>
      (Trim(question) != [] && Trim(correctAnswer) != [] && (Trim(d1) != [] || Trim(d2) != [] || Trim(d3) != []))
    ensures r.Some? ==> r.value == MultipleChoice(Trim(question), Trim(correctAnswer), Distractors(d1, d2, d3))
  {
    var q := Trim(question);
    var c := Trim(correctAnswer);
    var ds := Distractors(d1, d2, d3);
    if q != [] && c != [] && ds != [] then Some(MultipleChoice(q, c, ds)) else None
  }

  /** `answersString.split(',').map { it.trim() }`. */
  function AcceptableAnswers(answersString: string): (r: seq<string>)
    ensures |r| == |Split(answersString, ',')| && |r| >= 1
    ensures forall k :: 0 <= k < |r| ==> r[k] == Trim(Split(answersString, ',')[k])
  {
    var pieces := Split(answersString, ',');
    seq(|pieces|, k requires 0 <= k < |pieces| => Trim(pieces[k]))
  }

  /**
   * The type-answer dialog: accepted iff the trimmed prompt and the trimmed answers
   * string are non-empty; the acceptable answers are that string cut at each comma, each
   * piece trimmed.
   */
  function ValidateTypeAnswer(prompt: string, answers: string): (r: Option<Variant>)
    ensures r.Some? <==> Trim(prompt) != [] && Trim(answers) != []
    ensures r.Some? ==> r.value == TypeAnswer(Trim(prompt), AcceptableAnswers(Trim(answers)))
  {
    var p := Trim(prompt);
    var a := Trim(answers);
    if p != [] && a != [] then Some(TypeAnswer(p, AcceptableAnswers(a))) else None
  }

  /**
   * The cloze dialog as written: the trimmed text is accepted iff it is non-empty and
   * contains both `[[` and `]]`, anywhere and in any order.
   */
  function ValidateClozeAsWritten(text: string): (r: Option<Variant>)
    ensures r.Some? <==> Trim(text) != [] && Contains(Trim(text), "[[") && Contains(Trim(text), "]]")
    ensures r.Some? ==> r.value == Cloze(Trim(text))
  {
    var t := Trim(text);
    if t != [] && Contains(t, "[[") && Contains(t, "]]") then Some(Cloze(t)) else None
  }

  /**
   * The cloze dialog as its error message describes it ("at least one omission, like
   * [[example]]"): the trimmed text is accepted iff it holds at least one span.
   */
  function ValidateCloze(text: string): (r: Option<Variant>)
    ensures r.Some? <==> |Answers(Trim(text))| >= 1
    ensures r.Some? ==> r.value == Cloze(Trim(text))
  {
    var t := Trim(text);
    if |Answers(t)| >= 1 then Some(Cloze(t)) else None
  }

  /** Every saved front/back card is answered correctly by typing its back. */
  lemma SavedFrontBackIsAnswerable(front: string, back: string, imageUrl: Option<string>)
    requires ValidateFrontBack(front, back, imageUrl).Some?
    ensures FrontBackCheck(ValidateFrontBack(front, back, imageUrl).value.back, back).isCorrect
  {
    TrimIdempotent(back);
  }

  /** A saved multiple-choice card has one to three distractors, none blank. */
  lemma SavedChoiceDistractors(question: string, correctAnswer: string, d1: string, d2: string, d3: string)
    requires ValidateMultipleChoice(question, correctAnswer, d1, d2, d3).Some?
    ensures var ds := ValidateMultipleChoice(question, correctAnswer, d1, d2, d3).value.distractors;
      1 <= |ds| <= 3 && forall k :: 0 <= k < |ds| ==> ds[k] != [] && Trim(ds[k]) == ds[k]
  {
    KeptFieldClean(d1);
    KeptFieldClean(d2);
    KeptFieldClean(d3);
    AllCleanConcat(KeptField(d1), KeptField(d2));
    AllCleanConcat(KeptField(d1) + KeptField(d2), KeptField(d3));
  }

  /** Every string of `xs` is non-empty and already trimmed. */
  ghost predicate AllClean(xs: seq<string>) {
    forall k :: 0 <= k < |xs| ==> xs[k] != [] && Trim(xs[k]) == xs[k]
  }

  lemma AllCleanConcat(xs: seq<string>, ys: seq<string>)
    requires AllClean(xs) && AllClean(ys)
    ensures AllClean(xs + ys)
  {
    forall k | 0 <= k < |xs + ys| ensures (xs + ys)[k] != [] && Trim((xs + ys)[k]) == (xs + ys)[k] {
      if k >= |xs| {
        assert (xs + ys)[k] == ys[k - |xs|];
      }
    }
  }

  lemma KeptFieldClean(field: string)
    ensures AllClean(KeptField(field))
  {
    TrimIdempotent(field);
  }

  /**
   * A saved multiple-choice card always shows its correct answer: with at most three
   * distractors every option gets a button, whatever the shuffle.
   */
  lemma SavedChoiceShowsAnswer(question: string, correctAnswer: string, d1: string, d2: string, d3: string, rnd: seq<nat>)
    requires ValidateMultipleChoice(question, correctAnswer, d1, d2, d3).Some?
    ensures var v := ValidateMultipleChoice(question, correctAnswer, d1, d2, d3).value;
      v.correctAnswer in ShownOptions(Options(v.correctAnswer, v.distractors, rnd))
  {
    var v := ValidateMultipleChoice(question, correctAnswer, d1, d2, d3).value;
    ShownOptionsHoldAnswer(v.correctAnswer, v.distractors, rnd);
  }

  /**
   * A saved type-answer card never makes its check throw, and typing any of its
   * acceptable answers back is accepted.
   */
  lemma SavedTypeAnswerIsAnswerable(prompt: string, answers: string, k: nat)
    requires ValidateTypeAnswer(prompt, answers).Some?
    requires k < |ValidateTypeAnswer(prompt, answers).value.acceptableAnswers|
    ensures var list := ValidateTypeAnswer(prompt, answers).value.acceptableAnswers;
      TypeAnswerCheck(list, list[k]) == Judged(true, None)
  {
    var list := ValidateTypeAnswer(prompt, answers).value.acceptableAnswers;
    TrimIdempotent(Split(Trim(answers), ',')[k]);
    TypeAnswerAcceptsListed(list, k, list[k]);
  }

  /**
   * Empty pieces are kept: "a,,b" gives the answers "a", "" and "b", so that card accepts
   * a blank input.
   */
  lemma EmptyPiecesKept()
    ensures AcceptableAnswers("a,,b") == ["a", "", "b"]
    ensures TypeAnswerCheck(["a", "", "b"], " ") == Judged(true, None)
  {
    GapPiecesTrimmed();
    BlankMatchesEmptyPiece();
  }

  lemma GapPiecesTrimmed()
    ensures AcceptableAnswers("a,,b") == ["a", "", "b"]
  {
    SplitWithEmptyPiece();
    GapPiecesAreTrimmed();
    ThreeTrimmedPieces("a,,b", "a", "", "b");
  }

  lemma GapPiecesAreTrimmed()
    ensures Trim("a") == "a" && Trim("") == "" && Trim("b") == "b"
  {
    TrimLetter('a');
    TrimLetter('b');
    TrimUnique("", 0, 0);
  }

  lemma ThreeTrimmedPieces(s: string, x: string, y: string, z: string)
    requires Split(s, ',') == [x, y, z]
    requires Trim(x) == x && Trim(y) == y && Trim(z) == z
    ensures AcceptableAnswers(s) == [x, y, z]
  {
    var r := AcceptableAnswers(s);
    assert r[0] == x && r[1] == y && r[2] == z;
  }

  lemma TrimLetter(c: char)
    requires !IsWhitespace(c)
    ensures Trim([c]) == [c]
  {
    TrimUnique([c], 0, 1);
    assert [c][0..1] == [c];
  }

  lemma BlankMatchesEmptyPiece()
    ensures TypeAnswerCheck(["a", "", "b"], " ") == Judged(true, None)
  {
    BlankTrimsToEmpty();
    assert EqualsIgnoreCase(["a", "", "b"][1], Trim(" "));
  }

  lemma SplitWithEmptyPiece()
    ensures Split("a,,b", ',') == ["a", "", "b"]
  {
    assert "a,,b"[1..] == ",,b" && ",,b"[1..] == ",b" && ",b"[1..] == "b" && "b"[1..] == "";
    assert Split("", ',') == [""];
    assert ['b'] + "" == "b";
    assert Split("b", ',') == [['b'] + Split("", ',')[0]] + Split("", ',')[1..];
    assert Split(",b", ',') == ["", "b"];
    assert Split(",,b", ',') == ["", "", "b"];
    assert Split("a,,b", ',') == [['a'] + Split(",,b", ',')[0]] + Split(",,b", ',')[1..];
    assert ['a'] + "" == "a";
    assert ["", "", "b"][1..] == ["", "b"];
  }

  lemma BlankTrimsToEmpty()
    ensures Trim(" ") == ""
  {
    TrimUnique(" ", 1, 1);
  }

  /**
   * The dialog as written accepts "]] [[", a text with no span: the card it saves
   * rejects every answer.
   */
  lemma ClozeAsWrittenAcceptsNoSpan(input: string)
    ensures ValidateClozeAsWritten("]] [[").Some?
    ensures Answers("]] [[") == []
    ensures !ClozeCheck("]] [[", input).isCorrect
  {
    var t := "]] [[";
    TrimUnique(t, 0, 5);
    assert t[0..5] == t;
    assert OccursAt(t, "[[", 3) && OccursAt(t, "]]", 0);
    NoCloseAfter(t);
    assert Answers(t) == [] by {
      assert FindFrom(t, 0).None?;
    }
  }

  /** In "]] [[" no `[[` is followed by a `]]`, so no match starts anywhere. */
  lemma NoCloseAfter(t: string)
    requires t == "]] [["
    ensures FindFrom(t, 0).None?
  {
    assert !MatchesAt(t, 3) by {
      assert CloseFrom(t, 5) == None;
    }
    assert !MatchesAt(t, 0) && !MatchesAt(t, 1) && !MatchesAt(t, 2);
    assert FindFrom(t, 4) == None;
    assert FindFrom(t, 3) == None;
  }

  /**
   * The intended check: every accepted cloze text has a span, so the saved card has a
   * span answer for its check to accept, and the as-written check accepts it too.
   */
  lemma ClozeAcceptedHasSpan(text: string)
    requires ValidateCloze(text).Some?
    ensures |Answers(ValidateCloze(text).value.textWithCloze)| >= 1
    ensures ValidateClozeAsWritten(text) == ValidateCloze(text)
  {
    HasSpanHasBrackets(Trim(text));
  }

  /** A text with a span is not empty and contains both `[[` and `]]`. */
  lemma HasSpanHasBrackets(t: string)
    requires |Answers(t)| >= 1
    ensures t != [] && Contains(t, "[[") && Contains(t, "]]")
  {
    AnswersSome(t, 0);
    var m := FindFrom(t, 0).value;
    OpensOccur(t, m.start);
    ClosesOccur(t, m.close);
  }

  lemma OpensOccur(t: string, i: nat)
    requires OpensAt(t, i)
    ensures Contains(t, "[[")
  {
    assert t[i..i + 2] == "[[";
    assert OccursAt(t, "[[", i);
  }

  lemma ClosesOccur(t: string, i: nat)
    requires ClosesAt(t, i)
    ensures Contains(t, "]]")
  {
    assert t[i..i + 2] == "]]";
    assert OccursAt(t, "]]", i);
  }
}
