/**
 * The spaced-repetition scheduler of the study screen: the level update of `handleAnswer`
 * and the interval table of `updateCardSrs`.
 */
module Srs {
  import opened Cards

  /** The interval table of `updateCardSrs`, level to minutes. */
  const Intervals: map<int, int> := map[0 := 1, 1 := 5, 2 := 10, 3 := 60, 4 := 180]

  /** `intervals.values.last()`: the value of the last entry of the table. */
  const LastInterval: int := 180

  /**
   * `intervals[level] ?: intervals.values.last()`: the table entry for `level`, and 180 for
   * every level outside the table, negative levels included.
   */
  function IntervalMinutes(level: int): (m: int)
    ensures level == 0 ==> m == 1
    ensures level == 1 ==> m == 5
    ensures level == 2 ==> m == 10
    ensures level == 3 ==> m == 60
    ensures (level < 0 || level >= 4) ==> m == 180
    ensures 1 <= m <= 180
  {
    if level in Intervals then Intervals[level] else LastInterval
  }

  /** Over non-negative levels the interval never shrinks as the level grows. */
  lemma IntervalMonotonic(a: int, b: int)
    requires 0 <= a <= b
    ensures IntervalMinutes(a) <= IntervalMinutes(b)
  {
  }

  /** The level after an answer: one more when correct, back to 0 when wrong. */
  function NextLevel(level: int, isCorrect: bool): (l: int)
    ensures isCorrect ==> l == level + 1
    ensures !isCorrect ==> l == 0
  {
    if isCorrect then level + 1 else 0
  }

  /**
   * The card after `handleAnswer` and `updateCardSrs`: the level is bumped or reset first,
   * then the interval is looked up with the new level and added to `now`. Nothing else of
   * the card changes.
   */
  function Reviewed(c: Card, isCorrect: bool, now: int): (r: Card)
    ensures r.srsLevel == NextLevel(c.srsLevel, isCorrect)
    ensures r.nextReview == now + IntervalMinutes(r.srsLevel)
    ensures r.id == c.id && r.cardType == c.cardType && r.variant == c.variant
  {
    var level := NextLevel(c.srsLevel, isCorrect);
    c.(srsLevel := level, nextReview := now + IntervalMinutes(level))
  }

  /**
   * The schedule a review produces: a wrong answer makes the card due in 1 minute; a
   * correct one from level 3 or higher (a new level of 4 or more) makes it due in 180.
   */
  lemma ReviewSchedule(c: Card, isCorrect: bool, now: int)
    ensures !isCorrect ==> Reviewed(c, isCorrect, now).nextReview == now + 1
    ensures isCorrect && c.srsLevel >= 3 ==> Reviewed(c, isCorrect, now).nextReview == now + 180
    ensures isCorrect && 0 <= c.srsLevel < 4 ==>
      Reviewed(c, isCorrect, now).nextReview == now + Intervals[c.srsLevel + 1]
  {
  }

  /**
   * For a card at a non-negative level, a correct answer never schedules it sooner than a
   * wrong one, and the card is never due before at least one more minute has passed.
   */
  lemma CorrectWaitsAtLeastAsLong(c: Card, now: int)
    requires c.srsLevel >= 0
    ensures Reviewed(c, false, now).nextReview <= Reviewed(c, true, now).nextReview
    ensures !IsDue(Reviewed(c, true, now), now) && !IsDue(Reviewed(c, false, now), now)
  {
    IntervalMonotonic(0, c.srsLevel + 1);
  }
}
