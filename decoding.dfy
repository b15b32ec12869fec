/**
 * Turning stored card documents into cards, as the `loadCards` of the study screen and of
 * the card list both do: the `type` tag (FRONT_BACK when absent) picks the data class,
 * `CardType.valueOf` rejects an unknown tag and the document is then skipped, and the
 * surviving cards take their document's id and keep the order of the documents.
 */
module Decoding {
  import opened Wrappers
  import opened Cards

  /**
   * A stored card document: its id and each field the card classes declare, absent when
   * the document does not hold it. `typeTag` is the `type` field.
   */
  datatype Document = Document(
    id: string,
    typeTag: Option<string>,
    srsLevel: Option<int>,
    nextReview: Option<int>,
    front: Option<string>,
    back: Option<string>,
    frontImageUrl: Option<string>,
    question: Option<string>,
    correctAnswer: Option<string>,
    distractors: Option<seq<string>>,
    prompt: Option<string>,
    acceptableAnswers: Option<seq<string>>,
    textWithCloze: Option<string>)

  /** The tag string the decoder dispatches on: `document.getString("type") ?: "FRONT_BACK"`. */
  function TagOf(d: Document): string {
    d.typeTag.GetOr("FRONT_BACK")
  }

  /**
   * `document.toObject(X::class.java)` for the data class of tag t: each declared field
   * read from the document, or left at its constructor default when absent.
   */
  function Payload(t: CardType, d: Document): (v: Variant)
    ensures InitTag(v) == t
    ensures v.FrontBack? ==> v == FrontBack(d.front.GetOr(""), d.back.GetOr(""), d.frontImageUrl)
    ensures v.MultipleChoice? ==> v == MultipleChoice(d.question.GetOr(""), d.correctAnswer.GetOr(""), d.distractors.GetOr([]))
    ensures v.TypeAnswer? ==> v == TypeAnswer(d.prompt.GetOr(""), d.acceptableAnswers.GetOr([]))
    ensures v.Cloze? ==> v == Cloze(d.textWithCloze.GetOr(""))
  {
    match t
    case FRONT_BACK => FrontBack(d.front.GetOr(""), d.back.GetOr(""), d.frontImageUrl)
    case MULTIPLE_CHOICE => MultipleChoice(d.question.GetOr(""), d.correctAnswer.GetOr(""), d.distractors.GetOr([]))
    case TYPE_ANSWER => TypeAnswer(d.prompt.GetOr(""), d.acceptableAnswers.GetOr([]))
    case CLOZE => Cloze(d.textWithCloze.GetOr(""))
  }

  /**
   * One document, decoded at time `now` (the `Date()` default of `nextReview`): None when
   * the tag is not one of the four names, otherwise the card of that tag carrying the
   * document id, with `srsLevel` 0 and `nextReview` now when the document lacks them.
   */
  function Decode(d: Document, now: int): (c: Option<Card>)
    ensures c.Some? <==> ValueOf(TagOf(d)).Some?
    ensures c.Some? ==> c.value.id == d.id && TagName(c.value.cardType) == TagOf(d)
    ensures c.Some? ==> c.value.cardType == InitTag(c.value.variant)
    ensures c.Some? ==> c.value.srsLevel == d.srsLevel.GetOr(0) && c.value.nextReview == d.nextReview.GetOr(now)
  {
    match ValueOf(TagOf(d))
    case None => None
    case Some(t) => Some(Card(d.id, t, d.srsLevel.GetOr(0), d.nextReview.GetOr(now), Payload(t, d)))
  }

  /** The cards of `docs` in document order, undecodable documents skipped. */
  function DecodeAll(docs: seq<Document>, now: int): (cards: seq<Card>)
    ensures |cards| <= |docs|
  {
    if docs == [] then []
    else
      var last := Decode(docs[|docs| - 1], now);
      DecodeAll(docs[..|docs| - 1], now) + (if last.Some? then [last.value] else [])
  }

  /** The indices of the decodable documents, in increasing order. */
  function DecodedIndices(docs: seq<Document>, now: int): (ix: seq<nat>)
    ensures forall k :: 0 <= k < |ix| ==> ix[k] < |docs|
  {
    if docs == [] then []
    else
      DecodedIndices(docs[..|docs| - 1], now)
        + (if Decode(docs[|docs| - 1], now).Some? then [|docs| - 1] else [])
  }

  /**
   * The decoded list is the decodable documents, in document order: the k-th card comes
   * from the k-th decodable document, the indices increase, and a document is used iff it
   * decodes.
   */
  lemma DecodeAllIndices(docs: seq<Document>, now: int)
    ensures |DecodeAll(docs, now)| == |DecodedIndices(docs, now)|
    ensures forall k :: 0 <= k < |DecodeAll(docs, now)| ==>
      Decode(docs[DecodedIndices(docs, now)[k]], now) == Some(DecodeAll(docs, now)[k])
    ensures forall k, l :: 0 <= k < l < |DecodedIndices(docs, now)| ==>
      DecodedIndices(docs, now)[k] < DecodedIndices(docs, now)[l]
    ensures forall i :: 0 <= i < |docs| ==> (i in DecodedIndices(docs, now) <==> Decode(docs[i], now).Some?)
  {
    DecodedLength(docs, now);
    DecodedFrom(docs, now);
    IndicesIncrease(docs, now);
    IndicesAreDecodable(docs, now);
  }

  lemma {:induction false} DecodedLength(docs: seq<Document>, now: int)
    ensures |DecodeAll(docs, now)| == |DecodedIndices(docs, now)|
  {
    if docs != [] {
      DecodedLength(docs[..|docs| - 1], now);
    }
  }

  lemma {:induction false} DecodedFrom(docs: seq<Document>, now: int)
    ensures |DecodeAll(docs, now)| == |DecodedIndices(docs, now)|
    ensures forall k :: 0 <= k < |DecodeAll(docs, now)| ==>
      Decode(docs[DecodedIndices(docs, now)[k]], now) == Some(DecodeAll(docs, now)[k])
  {
    DecodedLength(docs, now);
    if docs != [] {
      var init := docs[..|docs| - 1];
      DecodedFrom(init, now);
      var cs := DecodeAll(docs, now);
      var ix := DecodedIndices(docs, now);
      assert cs[..|DecodeAll(init, now)|] == DecodeAll(init, now);
      assert ix[..|DecodedIndices(init, now)|] == DecodedIndices(init, now);
      forall k | 0 <= k < |cs| ensures Decode(docs[ix[k]], now) == Some(cs[k]) {
        if k < |DecodeAll(init, now)| {
          assert cs[k] == DecodeAll(init, now)[k];
          assert ix[k] == DecodedIndices(init, now)[k];
          assert docs[ix[k]] == init[ix[k]];
        }
      }
    }
  }

  lemma {:induction false} IndicesIncrease(docs: seq<Document>, now: int)
    ensures forall k, l :: 0 <= k < l < |DecodedIndices(docs, now)| ==>
      DecodedIndices(docs, now)[k] < DecodedIndices(docs, now)[l]
  {
    if docs != [] {
      var init := docs[..|docs| - 1];
      IndicesIncrease(init, now);
      var ix := DecodedIndices(docs, now);
      var ix0 := DecodedIndices(init, now);
      assert ix[..|ix0|] == ix0;
      forall k, l | 0 <= k < l < |ix| ensures ix[k] < ix[l] {
        assert ix[k] == ix0[k];
        if l < |ix0| {
          assert ix[l] == ix0[l];
        }
      }
    }
  }

  lemma {:induction false} IndicesAreDecodable(docs: seq<Document>, now: int)
    ensures forall i :: 0 <= i < |docs| ==> (i in DecodedIndices(docs, now) <==> Decode(docs[i], now).Some?)
  {
    if docs != [] {
      var init := docs[..|docs| - 1];
      IndicesAreDecodable(init, now);
      var ix0 := DecodedIndices(init, now);
      assert forall i :: 0 <= i < |init| ==> init[i] == docs[i];
      assert |docs| - 1 !in ix0;
    }
  }

  /** Decoding a list of documents distributes over concatenation. */
  lemma {:induction false} DecodeAllAppend(a: seq<Document>, b: seq<Document>, now: int)
    ensures DecodeAll(a + b, now) == DecodeAll(a, now) + DecodeAll(b, now)
    decreases |b|
  {
    if b == [] {
      assert a + b == a;
    } else {
      var b' := b[..|b| - 1];
      assert (a + b)[..|a + b| - 1] == a + b';
      assert (a + b)[|a + b| - 1] == b[|b| - 1];
      DecodeAllAppend(a, b', now);
    }
  }

  /**
   * The for loop of `loadCards`: each document that decodes is appended, with its id, to
   * `cardList`; the others are skipped.
   */
  method DecodeDocuments(docs: seq<Document>, now: int) returns (cardList: seq<Card>)
    ensures cardList == DecodeAll(docs, now)
  {
    cardList := [];
    var i := 0;
    while i < |docs|
      invariant 0 <= i <= |docs|
      invariant cardList == DecodeAll(docs[..i], now)
    {
      var card := Decode(docs[i], now);
      assert docs[..i + 1][..i] == docs[..i];
      if card.Some? {
        cardList := cardList + [card.value];
      }
      i := i + 1;
    }
    assert docs[..i] == docs;
  }

  /** A document without a `type` field decodes as a front/back card. */
  lemma MissingTagIsFrontBack(d: Document, now: int)
    requires d.typeTag == None
    ensures Decode(d, now).Some?
    ensures Decode(d, now).value.cardType == FRONT_BACK && Decode(d, now).value.variant.FrontBack?
  {
  }

  /** A document is kept iff its tag is one of the four names; any other tag drops it. */
  lemma KeptIffKnownTag(d: Document, now: int)
    ensures Decode(d, now).Some? <==> TagOf(d) in {"FRONT_BACK", "MULTIPLE_CHOICE", "TYPE_ANSWER", "CLOZE"}
  {
    TagsAreExactlyFour(TagOf(d), FRONT_BACK);
  }

  /**
   * A document holding nothing but its tag decodes to the card the data class's
   * no-argument constructor builds, with the document's id.
   */
  lemma TagOnlyDocumentGivesDefaults(id: string, t: CardType, now: int)
    ensures Decode(Document(id, Some(TagName(t)), None, None, None, None, None, None, None, None, None, None, None), now)
      == Some(NewCard(DefaultVariant(t), now).(id := id))
  {
    TagsAreExactlyFour(TagName(t), t);
  }

  /** What `.set(card)` stores for a card: every field but the id, which names the document. */
  function Encode(c: Card): (d: Document)
    ensures d.id == c.id && d.typeTag == Some(TagName(c.cardType))
    ensures d.srsLevel == Some(c.srsLevel) && d.nextReview == Some(c.nextReview)
  {
    var base := Document(c.id, Some(TagName(c.cardType)), Some(c.srsLevel), Some(c.nextReview),
      None, None, None, None, None, None, None, None, None);
    match c.variant
    case FrontBack(f, b, img) => base.(front := Some(f), back := Some(b), frontImageUrl := img)
    case MultipleChoice(q, a, ds) => base.(question := Some(q), correctAnswer := Some(a), distractors := Some(ds))
    case TypeAnswer(p, as_) => base.(prompt := Some(p), acceptableAnswers := Some(as_))
    case Cloze(t) => base.(textWithCloze := Some(t))
  }

  /** A stored card reads back as itself, whatever the time of reading. */
  lemma DecodeEncode(c: Card, now: int)
    requires c.cardType == InitTag(c.variant)
    ensures Decode(Encode(c), now) == Some(c)
  {
    TagsAreExactlyFour(TagName(c.cardType), c.cardType);
  }

  /**
   * The study query `whereLessThanOrEqualTo("nextReview", now)`: the documents that hold a
   * `nextReview` no later than now. Only which documents are kept is stated: the study
   * screen shuffles them, so their order does not matter.
   */
  function DueDocuments(docs: seq<Document>, now: int): (due: seq<Document>)
    ensures |due| <= |docs|
    ensures forall k :: 0 <= k < |due| ==> due[k] in docs
    ensures forall k :: 0 <= k < |due| ==> due[k].nextReview.Some? && due[k].nextReview.value <= now
    ensures forall d :: d in docs && d.nextReview.Some? && d.nextReview.value <= now ==> d in due
  {
    if docs == [] then []
    else
      var d := docs[0];
      (if d.nextReview.Some? && d.nextReview.value <= now then [d] else []) + DueDocuments(docs[1..], now)
  }

  /** Every card decoded from the result of the study query is due. */
  lemma {:induction false} DueDocumentsDecodeDue(docs: seq<Document>, now: int, later: int)
    requires forall d :: d in docs ==> d.nextReview.Some? && d.nextReview.value <= now
    requires now <= later
    ensures forall c :: c in DecodeAll(docs, later) ==> IsDue(c, now)
  {
    if docs != [] {
      var init := docs[..|docs| - 1];
      assert forall d :: d in init ==> d in docs;
      DueDocumentsDecodeDue(init, now, later);
    }
  }

  /** A non-empty query result can decode to nothing: a single document with an unknown tag. */
  lemma UnknownTagLeavesNothing(d: Document, now: int)
    requires d.typeTag == Some("BASIC")
    ensures DecodeAll([d], now) == []
  {
    assert [d][..0] == [];
  }
}
