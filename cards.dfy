/**
 * The card model: the sealed class `Card` with its four data-class variants and the
 * `CardType` tag enum.
 */
module Cards {
  import opened Wrappers

  /** The card kinds, `enum class CardType`. */
  datatype CardType = FRONT_BACK | MULTIPLE_CHOICE | TYPE_ANSWER | CLOZE

  /** The enum constant's `name`, which is what the `type` field of a stored card holds. */
  function TagName(t: CardType): (s: string)
    ensures |s| >= 5
  {
    match t
    case FRONT_BACK => "FRONT_BACK"
    case MULTIPLE_CHOICE => "MULTIPLE_CHOICE"
    case TYPE_ANSWER => "TYPE_ANSWER"
    case CLOZE => "CLOZE"
  }

  /**
   * `CardType.valueOf(s)`: the constant whose name is exactly `s` (case-sensitive), or
   * None where `valueOf` throws IllegalArgumentException.
   */
  function ValueOf(s: string): (r: Option<CardType>)
    ensures r.Some? ==> TagName(r.value) == s
  {
    if s == "FRONT_BACK" then Some(FRONT_BACK)
    else if s == "MULTIPLE_CHOICE" then Some(MULTIPLE_CHOICE)
    else if s == "TYPE_ANSWER" then Some(TYPE_ANSWER)
    else if s == "CLOZE" then Some(CLOZE)
    else None
  }

  /**
   * The hierarchy is closed: exactly four tags exist, `valueOf` accepts exactly their four
   * names, and each name parses back to its own tag.
   */
  lemma {:induction false} TagsAreExactlyFour(s: string, t: CardType)
    ensures ValueOf(TagName(t)) == Some(t)
    ensures ValueOf(s).Some? <==> s in {"FRONT_BACK", "MULTIPLE_CHOICE", "TYPE_ANSWER", "CLOZE"}
    ensures |{FRONT_BACK, MULTIPLE_CHOICE, TYPE_ANSWER, CLOZE}| == 4
  {
    match t
    case FRONT_BACK =>
    case MULTIPLE_CHOICE => assert TagName(t) != "FRONT_BACK";
    case TYPE_ANSWER => assert TagName(t) != "FRONT_BACK";
    case CLOZE => assert TagName(t) != "FRONT_BACK";
  }

  /** The payload of each data class of the sealed hierarchy. */
  datatype Variant =
    | FrontBack(front: string, back: string, frontImageUrl: Option<string>)
    | MultipleChoice(question: string, correctAnswer: string, distractors: seq<string>)
    | TypeAnswer(prompt: string, acceptableAnswers: seq<string>)
    | Cloze(textWithCloze: string)

  /**
   * A card: the fields of `Card` (`id`; `type`, named `cardType` here since `type` is a
   * Dafny keyword; `srsLevel`; `nextReview` in minutes) and the data-class payload. Only
   * `srsLevel` and `nextReview` change after construction.
   */
  datatype Card = Card(id: string, cardType: CardType, srsLevel: int, nextReview: int, variant: Variant)

  /** The tag each subclass's `init` block assigns to `type`. */
  function InitTag(v: Variant): (t: CardType)
    ensures v.FrontBack? <==> t == FRONT_BACK
    ensures v.MultipleChoice? <==> t == MULTIPLE_CHOICE
    ensures v.TypeAnswer? <==> t == TYPE_ANSWER
    ensures v.Cloze? <==> t == CLOZE
  {
    match v
    case FrontBack(_, _, _) => FRONT_BACK
    case MultipleChoice(_, _, _) => MULTIPLE_CHOICE
    case TypeAnswer(_, _) => TYPE_ANSWER
    case Cloze(_) => CLOZE
  }

  /**
   * A card built by a data-class constructor at time `now`: the `Card` defaults (empty id,
   * level 0, next review at the creation instant) and the tag set by the subclass's `init`.
   */
  function NewCard(v: Variant, now: int): (c: Card)
    ensures c.variant == v
    ensures c.cardType == InitTag(v)
    ensures c.id == "" && c.srsLevel == 0 && c.nextReview == now
  {
    Card("", InitTag(v), 0, now, v)
  }

  /** The payload of a data class's no-argument constructor, every parameter at its default. */
  function DefaultVariant(t: CardType): (v: Variant)
    ensures InitTag(v) == t
    ensures v.FrontBack? ==> v.front == "" && v.back == "" && v.frontImageUrl == None
    ensures v.MultipleChoice? ==> v.question == "" && v.correctAnswer == "" && v.distractors == []
    ensures v.TypeAnswer? ==> v.prompt == "" && v.acceptableAnswers == []
    ensures v.Cloze? ==> v.textWithCloze == ""
  {
    match t
    case FRONT_BACK => FrontBack("", "", None)
    case MULTIPLE_CHOICE => MultipleChoice("", "", [])
    case TYPE_ANSWER => TypeAnswer("", [])
    case CLOZE => Cloze("")
  }

  /** The due filter of the study query: `nextReview <= now`. */
  predicate IsDue(c: Card, now: int) {
    c.nextReview <= now
  }

  /** A new card is due from the instant it is created on. */
  lemma NewCardIsDue(v: Variant, createdAt: int, now: int)
    requires createdAt <= now
    ensures IsDue(NewCard(v, createdAt), now)
    ensures NewCard(v, createdAt).srsLevel == 0
  {
  }
}
