/**
 * The end-of-session screen: it reads the two counts handed over by the study screen and
 * shows them with the accuracy percentage.
 */
module Summary {
  import opened Wrappers
  import opened Text
  import opened Stats

  /** What the summary screen computes and shows. */
  datatype SummaryScreen = SummaryScreen(
    correctCount: int,
    incorrectCount: int,
    total: int,
    percentage: real,
    correctText: string,
    incorrectText: string)

  /** `getIntExtra(key, 0)`: the value handed over, or 0 when it is missing. */
  function CountExtra(extra: Option<int>): (n: int)
    ensures extra.Some? ==> n == extra.value
    ensures extra.None? ==> n == 0
  {
    extra.GetOr(0)
  }

  /** `onCreate` of the summary screen, from the two extras. */
  function Summarize(correctExtra: Option<int>, incorrectExtra: Option<int>): (s: SummaryScreen)
    ensures s.correctCount == CountExtra(correctExtra) && s.incorrectCount == CountExtra(incorrectExtra)
    ensures s.total == s.correctCount + s.incorrectCount
    ensures s.percentage == Percentage(s.correctCount, s.total)
    ensures s.correctText == "Acertos: " + IntToString(s.correctCount)
    ensures s.incorrectText == "Erros: " + IntToString(s.incorrectCount)
  {
    var c := CountExtra(correctExtra);
    var i := CountExtra(incorrectExtra);
    SummaryScreen(c, i, c + i, Percentage(c, c + i), "Acertos: " + IntToString(c), "Erros: " + IntToString(i))
  }

  /** The counts shown are the counts received: each can be read back from its text. */
  lemma SummaryShowsReceivedCounts(correct: int, incorrect: int)
    ensures var s := Summarize(Some(correct), Some(incorrect));
      |s.correctText| > 9 && ParseInt(s.correctText[9..]) == correct
      && |s.incorrectText| > 7 && ParseInt(s.incorrectText[7..]) == incorrect
  {
    var s := Summarize(Some(correct), Some(incorrect));
    assert s.correctText[9..] == IntToString(correct);
    assert s.incorrectText[7..] == IntToString(incorrect);
    ParseIntToString(correct);
    ParseIntToString(incorrect);
  }

  /** Without extras the screen shows zero counts and 0 percent. */
  lemma MissingExtrasShowZero()
    ensures var s := Summarize(None, None);
      s.correctCount == 0 && s.incorrectCount == 0 && s.total == 0 && s.percentage == 0.0
  {
  }

  /** For counts that are not negative the summary percentage lies between 0 and 100. */
  lemma SummaryPercentageBounds(correct: int, incorrect: int)
    requires correct >= 0 && incorrect >= 0
    ensures 0.0 <= Summarize(Some(correct), Some(incorrect)).percentage <= 100.0
  {
    PercentageBounds(correct, incorrect);
  }
}
