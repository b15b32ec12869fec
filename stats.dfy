/**
 * The session record a study run stores, and the accuracy percentage every statistics
 * screen computes from its counts.
 */
module Stats {
  import opened Wrappers

  /**
   * A stored study session (`StudySession`): owner, deck, the two counts, the server
   * timestamp (absent until the server fills it) and the name of the place of study,
   * empty when there is none.
   */
  datatype StudySession = StudySession(
    userId: string,
    deckId: string,
    deckName: string,
    correctCount: int,
    incorrectCount: int,
    timestamp: Option<int>,
    locationName: string)

  /**
   * `if (total > 0) (correct.toDouble() / total) * 100 else 0.0`, in exact arithmetic: the
   * share of correct answers in percent, and 0 when there is nothing to count.
   */
  function Percentage(correct: int, total: int): (p: real)
    ensures total <= 0 ==> p == 0.0
    ensures total > 0 ==> p * (total as real) == (correct as real) * 100.0
  {
    if total > 0 then (correct as real / total as real) * 100.0 else 0.0
  }

  /** With counts that are not negative a percentage lies between 0 and 100. */
  lemma PercentageBounds(correct: int, incorrect: int)
    requires correct >= 0 && incorrect >= 0
    ensures 0.0 <= Percentage(correct, correct + incorrect) <= 100.0
    ensures Percentage(correct, correct + incorrect) == 100.0 <==> (incorrect == 0 && correct > 0)
    ensures Percentage(correct, correct + incorrect) == 0.0 <==> correct == 0
  {
    if correct + incorrect > 0 {
      var t := (correct + incorrect) as real;
      var p := Percentage(correct, correct + incorrect);
      assert p * t == correct as real * 100.0;
      assert p == 100.0 ==> incorrect == 0;
    }
  }

  /** More correct answers out of the same total never lower the percentage. */
  lemma PercentageMonotonic(c1: int, c2: int, total: int)
    requires c1 <= c2
    ensures Percentage(c1, total) <= Percentage(c2, total)
  {
    if total > 0 {
      var t := total as real;
      assert Percentage(c1, total) * t <= Percentage(c2, total) * t;
    }
  }

  /**
   * `Double.toInt()`: truncation toward zero (the argument here is always finite, so the
   * NaN and saturation cases of the conversion do not arise).
   */
  function TruncateToInt(x: real): (n: int)
    ensures x >= 0.0 ==> n as real <= x < n as real + 1.0
    ensures x < 0.0 ==> n as real - 1.0 < x <= n as real
  {
    if x >= 0.0 then x.Floor else -((-x).Floor)
  }

  /** The progress bar value of a percentage between 0 and 100 lies between 0 and 100. */
  lemma TruncatedPercentageBounds(correct: int, incorrect: int)
    requires correct >= 0 && incorrect >= 0
    ensures 0 <= TruncateToInt(Percentage(correct, correct + incorrect)) <= 100
  {
    PercentageBounds(correct, incorrect);
  }
}
