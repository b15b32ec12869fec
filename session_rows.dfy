/**
 * One row of the session history list (`onBindViewHolder`): the date, the deck name, the
 * score text and the accuracy percentage of a stored session.
 */
module SessionRows {
  import opened Wrappers
  import opened Text
  import opened Stats
  import opened Summary

  /** The texts and the percentage of one row. */
  datatype Row = Row(dateText: string, deckNameText: string, scoreText: string, percentage: real)

  /** The placeholder for a session the server has not stamped. */
  const NoDate: string := "Data indisponível"

  /**
   * The date text: the timestamp formatted by `format` (the pt-BR `SimpleDateFormat`), or
   * the placeholder when there is no timestamp.
   */
  function DateText(timestamp: Option<int>, format: int -> string): (t: string)
    ensures timestamp.None? ==> t == NoDate
    ensures timestamp.Some? ==> t == format(timestamp.value)
  {
    match timestamp
    case None => NoDate
    case Some(ts) => format(ts)
  }

  /** "Pontuação: <correct> acertos, <incorrect> erros". */
  function ScoreText(correct: int, incorrect: int): string {
    "Pontuação: " + (IntToString(correct) + (" acertos, " + (IntToString(incorrect) + " erros")))
  }

  /** The row of session `s`. */
  function BindRow(s: StudySession, format: int -> string): (r: Row)
    ensures r.dateText == DateText(s.timestamp, format)
    ensures r.deckNameText == "Baralho: " + s.deckName
    ensures r.scoreText == ScoreText(s.correctCount, s.incorrectCount)
    ensures r.percentage == Percentage(s.correctCount, s.correctCount + s.incorrectCount)
  {
    Row(DateText(s.timestamp, format), "Baralho: " + s.deckName,
      ScoreText(s.correctCount, s.incorrectCount),
      Percentage(s.correctCount, s.correctCount + s.incorrectCount))
  }

  /** The printed form of a number holds no space. */
  lemma IntToStringHasNoSpace(i: int)
    ensures ' ' !in IntToString(i)
  {
    var r := IntToString(i);
    if i < 0 {
      assert r[1..] == NatToString(-i);
      forall k | 0 <= k < |r| ensures r[k] != ' ' {
        if k > 0 {
          assert r[k] == NatToString(-i)[k - 1];
        }
      }
    }
  }

  /** Two strings without a space, each followed by a part starting with a space. */
  lemma UpToSpace(a1: string, q1: string, a2: string, q2: string)
    requires ' ' !in a1 && ' ' !in a2
    requires q1 != [] && q1[0] == ' ' && q2 != [] && q2[0] == ' '
    requires a1 + q1 == a2 + q2
    ensures a1 == a2
  {
    var m := if |a1| < |a2| then |a1| else |a2|;
    assert (a1 + q1)[m] == (a2 + q2)[m];
    assert |a1| == |a2|;
    assert a1 == (a1 + q1)[..|a1|];
    assert a2 == (a2 + q2)[..|a2|];
  }

  /** The score text holds both counts. */
  lemma ScoreTextShowsCounts(correct: int, incorrect: int)
    ensures Contains(ScoreText(correct, incorrect), IntToString(correct))
    ensures Contains(ScoreText(correct, incorrect), IntToString(incorrect))
  {
    var a := IntToString(correct);
    var b := IntToString(incorrect);
    OccursIn("Pontuação: ", a, " acertos, " + (b + " erros"));
    OccursIn(" acertos, ", b, " erros");
    ContainsUnder(a, " acertos, " + (b + " erros"), b);
    ContainsUnder("Pontuação: ", a + (" acertos, " + (b + " erros")), b);
  }

  /** `x` occurs in `pre + (x + post)`. */
  lemma OccursIn(pre: string, x: string, post: string)
    ensures Contains(pre + (x + post), x)
  {
    assert (pre + (x + post))[|pre|..|pre| + |x|] == x;
    assert OccursAt(pre + (x + post), x, |pre|);
  }

  /** What occurs in `t` occurs in `p + t`. */
  lemma ContainsUnder(p: string, t: string, x: string)
    requires Contains(t, x)
    ensures Contains(p + t, x)
  {
    var k: nat :| k <= |t| && OccursAt(t, x, k);
    assert (p + t)[|p| + k..|p| + k + |x|] == t[k..k + |x|];
    assert OccursAt(p + t, x, |p| + k);
  }

  /** No two different scores share a text: the row's score text determines both counts. */
  lemma ScoreTextInjective(c1: int, i1: int, c2: int, i2: int)
    requires ScoreText(c1, i1) == ScoreText(c2, i2)
    ensures c1 == c2 && i1 == i2
  {
    var a1, a2 := IntToString(c1), IntToString(c2);
    var b1, b2 := IntToString(i1), IntToString(i2);
    var q1 := " acertos, " + (b1 + " erros");
    var q2 := " acertos, " + (b2 + " erros");
    StripPrefix("Pontuação: ", a1 + q1, a2 + q2);
    IntToStringHasNoSpace(c1);
    IntToStringHasNoSpace(c2);
    UpToSpace(a1, q1, a2, q2);
    assert a1 + q1 == a1 + q2;
    StripPrefix(a1, q1, q2);
    StripPrefix(" acertos, ", b1 + " erros", b2 + " erros");
    assert b1 == (b1 + " erros")[..|b1|] && b2 == (b2 + " erros")[..|b2|];
    IntToStringInjective(c1, c2);
    IntToStringInjective(i1, i2);
  }

  lemma StripPrefix(p: string, x: string, y: string)
    requires p + x == p + y
    ensures x == y
  {
    assert x == (p + x)[|p|..];
    assert y == (p + y)[|p|..];
  }

  /** A session row and the summary screen give the same percentage for the same counts. */
  lemma RowAgreesWithSummary(s: StudySession, format: int -> string)
    ensures BindRow(s, format).percentage == Summarize(Some(s.correctCount), Some(s.incorrectCount)).percentage
  {
  }

  /** For counts that are not negative the row percentage lies between 0 and 100. */
  lemma RowPercentageBounds(s: StudySession, format: int -> string)
    requires s.correctCount >= 0 && s.incorrectCount >= 0
    ensures 0.0 <= BindRow(s, format).percentage <= 100.0
  {
    PercentageBounds(s.correctCount, s.incorrectCount);
  }
}
