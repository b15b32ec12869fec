/**
 * Cloze spans of the study screen. One pattern, `\[\[(.*?)]]`, drives the extraction of
 * the answers (a `while (matcher.find())` loop), the question text (every span replaced by
 * `[...]`) and the revealed text (every span replaced by its group 1).
 */
module Cloze {
  import opened Wrappers
  import opened Text

  /** The characters Java's `.` does not match without DOTALL: the line terminators. */
  predicate IsLineTerminator(c: char) {
    c == '\n' || c == '\r' || c == '\U{85}' || c == '\U{2028}' || c == '\U{2029}'
  }

  /** No line terminator in a. */
  predicate SingleLine(a: string) {
    forall i :: 0 <= i < |a| ==> !IsLineTerminator(a[i])
  }

  /** `[[` at position i. */
  predicate OpensAt(s: string, i: nat) {
    i + 2 <= |s| && s[i] == '[' && s[i + 1] == '['
  }

  /** `]]` at position i. */
  predicate ClosesAt(s: string, i: nat) {
    i + 2 <= |s| && s[i] == ']' && s[i + 1] == ']'
  }

  /**
   * The lazy `(.*?)]]` tail of the pattern, tried from position j: the first k >= j at
   * which `]]` occurs, provided no line terminator lies in s[j..k]; None if there is none.
   */
  function CloseFrom(s: string, j: nat): (k: Option<nat>)
    requires j <= |s|
    ensures k.Some? ==> j <= k.value && ClosesAt(s, k.value)
    ensures k.Some? ==> forall i {:trigger ClosesAt(s, i)} :: j <= i < k.value ==> !ClosesAt(s, i)
    ensures k.Some? ==> forall i {:trigger IsLineTerminator(s[i])} :: j <= i < k.value ==> !IsLineTerminator(s[i])
    ensures k.None? ==> forall c {:trigger ClosesAt(s, c)} :: j <= c && ClosesAt(s, c) ==>
      exists i :: j <= i < c && IsLineTerminator(s[i])
    decreases |s| - j
  {
    if j + 2 > |s| then None
    else if s[j] == ']' && s[j + 1] == ']' then Some(j)
    else if IsLineTerminator(s[j]) then None
    else CloseFrom(s, j + 1)
  }

  /** The whole pattern matches from position i. */
  predicate MatchesAt(s: string, i: nat) {
    OpensAt(s, i) && CloseFrom(s, i + 2).Some?
  }

  /**
   * The pattern matches at i iff `[[` opens there and some `]]` at or after i + 2 follows
   * with no line terminator before it: `.` stops at line terminators, and the lazy group
   * then takes the first such `]]`.
   */
  lemma MatchesAtIsPattern(s: string, i: nat)
    ensures MatchesAt(s, i) <==>
      OpensAt(s, i) && exists c :: i + 2 <= c && ClosesAt(s, c) && SingleLine(s[i + 2..c])
  {
    if OpensAt(s, i) {
      if CloseFrom(s, i + 2).Some? {
        var c := CloseFrom(s, i + 2).value;
        assert SingleLine(s[i + 2..c]);
      } else if c :| i + 2 <= c && ClosesAt(s, c) && SingleLine(s[i + 2..c]) {
        assert false;
      }
    }
  }

  /** A match of the pattern: `[[` at `start`, group 1 is s[start + 2..close], `]]` at `close`. */
  datatype Match = Match(start: nat, close: nat)

  /** `matcher.find()` from position p: the match with the leftmost start at or after p. */
  function FindFrom(s: string, p: nat): (m: Option<Match>)
    requires p <= |s|
    ensures m.Some? ==> p <= m.value.start && m.value.start + 2 <= m.value.close && m.value.close + 2 <= |s|
    ensures m.Some? ==> OpensAt(s, m.value.start) && ClosesAt(s, m.value.close)
    decreases |s| - p
  {
    if p + 2 > |s| then None
    else if MatchesAt(s, p) then Some(Match(p, CloseFrom(s, p + 2).value))
    else FindFrom(s, p + 1)
  }

  /**
   * `find()` returns the leftmost match: nothing matches between p and its start (or
   * anywhere from p on when it finds nothing), and the match ends at the first `]]`.
   */
  lemma {:induction false} FindFromIsLeftmost(s: string, p: nat)
    requires p <= |s|
    ensures FindFrom(s, p).Some? ==> MatchesAt(s, FindFrom(s, p).value.start)
    ensures FindFrom(s, p).Some? ==> CloseFrom(s, FindFrom(s, p).value.start + 2) == Some(FindFrom(s, p).value.close)
    ensures FindFrom(s, p).Some? ==> forall i :: p <= i < FindFrom(s, p).value.start ==> !MatchesAt(s, i)
    ensures FindFrom(s, p).None? ==> forall i :: p <= i <= |s| ==> !MatchesAt(s, i)
    decreases |s| - p
  {
    if p + 2 <= |s| && !MatchesAt(s, p) {
      FindFromIsLeftmost(s, p + 1);
    }
  }

  /** The text cut at the matches: literal stretches and spans (holding group 1). */
  datatype Piece = Plain(text: string) | Span(answer: string)

  /** The pieces of s[p..], matches found left to right as successive `find()` calls do. */
  function PiecesFrom(s: string, p: nat): (ps: seq<Piece>)
    requires p <= |s|
    decreases |s| - p
  {
    match FindFrom(s, p)
    case None => if p < |s| then [Plain(s[p..])] else []
    case Some(m) => Lead(s, p, m) + PiecesFrom(s, m.close + 2)
  }

  /** The pieces up to the end of match m found from p: the stretch before it, if any, and its span. */
  function Lead(s: string, p: nat, m: Match): seq<Piece>
    requires p <= m.start && m.start + 2 <= m.close <= |s|
  {
    (if p < m.start then [Plain(s[p..m.start])] else []) + [Span(s[m.start + 2..m.close])]
  }

  function Pieces(s: string): seq<Piece> {
    PiecesFrom(s, 0)
  }

  /** The group-1 texts of the spans, in order. */
  function SpanAnswers(ps: seq<Piece>): (r: seq<string>)
    ensures |r| <= |ps|
  {
    if ps == [] then []
    else (if ps[0].Span? then [ps[0].answer] else []) + SpanAnswers(ps[1..])
  }

  /** Number of spans, i.e. of placeholders in the masked text. */
  function Holes(ps: seq<Piece>): nat {
    if ps == [] then 0 else (if ps[0].Span? then 1 else 0) + Holes(ps[1..])
  }

  /** Writes the pieces out with each span's answer wrapped in `[[` and `]]` again. */
  function Render(ps: seq<Piece>): string {
    if ps == [] then []
    else (match ps[0] case Plain(t) => t case Span(a) => "[[" + a + "]]") + Render(ps[1..])
  }

  /** Writes the pieces out with every span replaced by the placeholder `[...]`. */
  function MaskText(ps: seq<Piece>): string {
    if ps == [] then []
    else (match ps[0] case Plain(t) => t case Span(_) => "[...]") + MaskText(ps[1..])
  }

  /** Writes the pieces out with every span replaced by its answer. */
  function RevealText(ps: seq<Piece>): string {
    if ps == [] then []
    else (match ps[0] case Plain(t) => t case Span(a) => a) + RevealText(ps[1..])
  }

  /** The answer list the extraction loop builds. */
  function Answers(text: string): seq<string> {
    SpanAnswers(Pieces(text))
  }

  /** `text.replace(Regex("\\[\\[(.*?)]]"), "[...]")`: the question shown. */
  function Masked(text: string): string {
    MaskText(Pieces(text))
  }

  /** `text.replace(Regex("\\[\\[(.*?)]]"), "$1")`: the text shown as the answer. */
  function Revealed(text: string): string {
    RevealText(Pieces(text))
  }

  lemma SpanAnswersAppend(a: seq<Piece>, b: seq<Piece>)
    ensures SpanAnswers(a + b) == SpanAnswers(a) + SpanAnswers(b)
    ensures Holes(a + b) == Holes(a) + Holes(b)
  {
    if a != [] {
      assert (a + b)[0] == a[0];
      assert (a + b)[1..] == a[1..] + b;
      SpanAnswersAppend(a[1..], b);
    } else {
      assert a + b == b;
    }
  }

  lemma RenderAppend(a: seq<Piece>, b: seq<Piece>)
    ensures Render(a + b) == Render(a) + Render(b)
  {
    if a != [] {
      assert (a + b)[0] == a[0];
      assert (a + b)[1..] == a[1..] + b;
      RenderAppend(a[1..], b);
    } else {
      assert a + b == b;
    }
  }

  /** No match from p: no answers from p. */
  lemma AnswersNone(s: string, p: nat)
    requires p <= |s| && FindFrom(s, p).None?
    ensures SpanAnswers(PiecesFrom(s, p)) == []
  {
    if p < |s| {
      assert PiecesFrom(s, p) == [Plain(s[p..])];
      assert SpanAnswers([Plain(s[p..])]) == [] + SpanAnswers([]);
    }
  }

  /** Some answer from p: some match from p. */
  lemma AnswersSome(s: string, p: nat)
    requires p <= |s| && SpanAnswers(PiecesFrom(s, p)) != []
    ensures FindFrom(s, p).Some?
  {
    if FindFrom(s, p).None? {
      AnswersNone(s, p);
    }
  }

  /** One span fewer to go: the answers from p are the next match's group 1, then the rest. */
  lemma AnswersStep(s: string, p: nat, m: Match)
    requires p <= |s| && FindFrom(s, p) == Some(m)
    ensures SpanAnswers(PiecesFrom(s, p)) == [s[m.start + 2..m.close]] + SpanAnswers(PiecesFrom(s, m.close + 2))
  {
    PiecesStep(s, p, m);
    SpanAnswersAppend(Lead(s, p, m), PiecesFrom(s, m.close + 2));
    LeadAnswer(s, p, m);
  }

  /** A lead holds one answer, group 1 of its match. */
  lemma LeadAnswer(s: string, p: nat, m: Match)
    requires p <= m.start && m.start + 2 <= m.close <= |s|
    ensures SpanAnswers(Lead(s, p, m)) == [s[m.start + 2..m.close]]
  {
    var pre: seq<Piece> := if p < m.start then [Plain(s[p..m.start])] else [];
    var span := [Span(s[m.start + 2..m.close])];
    SpanAnswersAppend(pre, span);
    assert SpanAnswers(pre) == [] by {
      if p < m.start {
        assert SpanAnswers(pre) == [] + SpanAnswers([]);
      }
    }
    assert SpanAnswers(span) == [s[m.start + 2..m.close]] + SpanAnswers([]);
  }

  /**
   * The extraction loop of `displayClozeCard`: `while (matcher.find())` appends group 1 of
   * each match, so the result is the span answers left to right.
   */
  method ExtractAnswers(text: string) returns (answers: seq<string>)
    ensures answers == Answers(text)
    ensures |answers| == Holes(Pieces(text))
  {
    answers := [];
    var pos := 0;
    while true
      invariant pos <= |text|
      invariant answers + SpanAnswers(PiecesFrom(text, pos)) == Answers(text)
      decreases |text| - pos
    {
      var found := FindFrom(text, pos);
      if found.None? {
        AnswersNone(text, pos);
        assert answers + [] == answers;
        break;
      }
      var m := found.value;
      ExtractStep(text, pos, m, answers);
      answers := answers + [text[m.start + 2..m.close]];
      pos := m.close + 2;
    }
    HolesAreAnswers(Pieces(text));
  }

  /** The loop's invariant survives appending the group of the next match. */
  lemma ExtractStep(text: string, pos: nat, m: Match, answers: seq<string>)
    requires pos <= |text| && FindFrom(text, pos) == Some(m)
    requires answers + SpanAnswers(PiecesFrom(text, pos)) == Answers(text)
    ensures (answers + [text[m.start + 2..m.close]]) + SpanAnswers(PiecesFrom(text, m.close + 2)) == Answers(text)
  {
    AnswersStep(text, pos, m);
    Assoc(answers, [text[m.start + 2..m.close]], SpanAnswers(PiecesFrom(text, m.close + 2)));
  }

  /** Every span contributes one answer and one placeholder. */
  lemma {:induction false} HolesAreAnswers(ps: seq<Piece>)
    ensures |SpanAnswers(ps)| == Holes(ps)
  {
    if ps != [] {
      HolesAreAnswers(ps[1..]);
    }
  }

  /**
   * Putting the extracted answers back between `[[` and `]]` at the placeholder positions
   * rebuilds the original text exactly.
   */
  lemma {:induction false} RenderPiecesFrom(s: string, p: nat)
    requires p <= |s|
    ensures Render(PiecesFrom(s, p)) == s[p..]
    decreases |s| - p
  {
    match FindFrom(s, p)
    case None =>
      if p < |s| {
        assert Render([Plain(s[p..])]) == s[p..] + Render([]);
      }
    case Some(m) =>
      RenderPiecesFrom(s, m.close + 2);
      RenderStep(s, p, m);
  }

  /** Rebuilding from p is rebuilding up to the end of the next match, then the rest. */
  lemma RenderStep(s: string, p: nat, m: Match)
    requires p <= |s| && FindFrom(s, p) == Some(m)
    requires Render(PiecesFrom(s, m.close + 2)) == s[m.close + 2..]
    ensures Render(PiecesFrom(s, p)) == s[p..]
  {
    PiecesStep(s, p, m);
    RenderLead(s, p, m);
    RenderJoin(PiecesFrom(s, p), Lead(s, p, m), PiecesFrom(s, m.close + 2), s, p, m.close + 2);
  }

  /** Pieces that write out as two adjacent slices write out as their union. */
  lemma RenderJoin(ps: seq<Piece>, a: seq<Piece>, b: seq<Piece>, s: string, i: nat, j: nat)
    requires ps == a + b && i <= j <= |s|
    requires Render(a) == s[i..j] && Render(b) == s[j..]
    ensures Render(ps) == s[i..]
  {
    RenderAppend(a, b);
    CutRest(s, i, j);
  }

  /** The pieces from p are the lead of the next match, then the pieces after it. */
  lemma PiecesStep(s: string, p: nat, m: Match)
    requires p <= |s| && FindFrom(s, p) == Some(m)
    ensures PiecesFrom(s, p) == Lead(s, p, m) + PiecesFrom(s, m.close + 2)
  {
  }

  /** A suffix cut in two. */
  lemma CutRest(s: string, i: nat, j: nat)
    requires i <= j <= |s|
    ensures s[i..] == s[i..j] + s[j..]
  {
  }

  /** A lead writes out as the text from p to the end of its match. */
  lemma RenderLead(s: string, p: nat, m: Match)
    requires p <= m.start && m.start + 2 <= m.close && m.close + 2 <= |s|
    requires OpensAt(s, m.start) && ClosesAt(s, m.close)
    ensures Render(Lead(s, p, m)) == s[p..m.close + 2]
  {
    var span := [Span(s[m.start + 2..m.close])];
    RenderSpan(s, m);
    if p < m.start {
      var pre := [Plain(s[p..m.start])];
      assert Lead(s, p, m) == pre + span;
      RenderAppend(pre, span);
      assert Render(pre) == s[p..m.start] + Render([]);
      Cut(s, p, m.start, m.close + 2);
    } else {
      assert Lead(s, p, m) == span;
    }
  }

  /** A span writes out as its match. */
  lemma RenderSpan(s: string, m: Match)
    requires m.start + 2 <= m.close && m.close + 2 <= |s|
    requires OpensAt(s, m.start) && ClosesAt(s, m.close)
    ensures Render([Span(s[m.start + 2..m.close])]) == s[m.start..m.close + 2]
  {
    var g := s[m.start + 2..m.close];
    assert Render([Span(g)]) == "[[" + g + "]]" + Render([]);
    assert s[m.start..m.start + 2] == "[[";
    assert s[m.close..m.close + 2] == "]]";
    assert s[m.start..m.close + 2] == s[m.start..m.start + 2] + g + s[m.close..m.close + 2];
  }

  /** A slice cut in two. */
  lemma Cut(s: string, i: nat, j: nat, k: nat)
    requires i <= j <= k <= |s|
    ensures s[i..k] == s[i..j] + s[j..k]
  {
  }

  lemma Assoc<T>(a: seq<T>, b: seq<T>, c: seq<T>)
    ensures a + b + c == a + (b + c)
  {
  }

  /** The total length of the strings in xs. */
  function TotalLength(xs: seq<string>): nat {
    if xs == [] then 0 else |xs[0]| + TotalLength(xs[1..])
  }

  /**
   * Revealing drops the four marker characters of every span, and masking puts the five
   * characters of `[...]` where each answer was.
   */
  lemma {:induction false} RenderedLengths(ps: seq<Piece>)
    ensures |Render(ps)| == |RevealText(ps)| + 4 * Holes(ps)
    ensures |MaskText(ps)| + TotalLength(SpanAnswers(ps)) == |RevealText(ps)| + 5 * Holes(ps)
  {
    if ps != [] {
      RenderedLengths(ps[1..]);
      var rest := SpanAnswers(ps[1..]);
      if ps[0].Span? {
        assert SpanAnswers(ps) == [ps[0].answer] + rest;
        assert ([ps[0].answer] + rest)[1..] == rest;
        assert TotalLength(SpanAnswers(ps)) == |ps[0].answer| + TotalLength(rest);
      } else {
        assert SpanAnswers(ps) == rest;
      }
    }
  }

  /**
   * The question, the revealed text and the answer list come from one cut of the text:
   * the answers are the spans' group 1 in order, there is one placeholder per answer, and
   * re-wrapping the answers at the placeholders gives the original text back. The revealed
   * text is the original less four marker characters per answer, and the question is the
   * revealed text with each answer traded for the five characters of `[...]`.
   */
  lemma ClozeRoundTrip(text: string)
    ensures Render(Pieces(text)) == text
    ensures |Answers(text)| == Holes(Pieces(text))
    ensures |text| == |Revealed(text)| + 4 * |Answers(text)|
    ensures |Masked(text)| + TotalLength(Answers(text)) == |Revealed(text)| + 5 * |Answers(text)|
  {
    RenderPiecesFrom(text, 0);
    HolesAreAnswers(Pieces(text));
    RenderedLengths(Pieces(text));
  }

  /**
   * The lazy group stops at the first `]]` and never crosses a line: no answer contains
   * `]]` or a line terminator.
   */
  lemma {:induction false} AnswersAreLazy(s: string, p: nat)
    requires p <= |s|
    ensures forall k :: 0 <= k < |SpanAnswers(PiecesFrom(s, p))| ==> LazyGroup(SpanAnswers(PiecesFrom(s, p))[k])
    decreases |s| - p
  {
    if FindFrom(s, p).None? {
      AnswersNone(s, p);
    } else {
      var m := FindFrom(s, p).value;
      AnswersStep(s, p, m);
      FirstGroupIsLazy(s, p, m);
      AnswersAreLazy(s, m.close + 2);
      AllLazyCons(s[m.start + 2..m.close], SpanAnswers(PiecesFrom(s, m.close + 2)));
    }
  }

  /** What a lazy group 1 can hold: no `]]` and no line terminator. */
  ghost predicate LazyGroup(g: string) {
    !Contains(g, "]]") && SingleLine(g)
  }

  lemma AllLazyCons(g: string, rest: seq<string>)
    requires LazyGroup(g)
    requires forall k :: 0 <= k < |rest| ==> LazyGroup(rest[k])
    ensures forall k :: 0 <= k < |[g] + rest| ==> LazyGroup(([g] + rest)[k])
  {
  }

  /** Group 1 of the match found from p holds neither `]]` nor a line terminator. */
  lemma FirstGroupIsLazy(s: string, p: nat, m: Match)
    requires p <= |s| && FindFrom(s, p) == Some(m)
    ensures LazyGroup(s[m.start + 2..m.close])
  {
    FoundCloses(s, p);
    GroupIsLazy(s, m);
  }

  /** The match found from p ends at the first `]]` after its start. */
  lemma {:induction false} FoundCloses(s: string, p: nat)
    requires p <= |s|
    ensures FindFrom(s, p).Some? ==> CloseFrom(s, FindFrom(s, p).value.start + 2) == Some(FindFrom(s, p).value.close)
    decreases |s| - p
  {
    if p + 2 <= |s| && !MatchesAt(s, p) {
      FoundCloses(s, p + 1);
    }
  }

  /** Group 1 of a match holds neither `]]` nor a line terminator. */
  lemma GroupIsLazy(s: string, m: Match)
    requires m.start + 2 <= m.close && m.close + 2 <= |s|
    requires CloseFrom(s, m.start + 2) == Some(m.close)
    ensures !Contains(s[m.start + 2..m.close], "]]")
    ensures SingleLine(s[m.start + 2..m.close])
  {
    var a := s[m.start + 2..m.close];
    forall i: nat | i <= |a| ensures !OccursAt(a, "]]", i) {
      if i + 2 <= |a| {
        assert a[i] == s[m.start + 2 + i] && a[i + 1] == s[m.start + 2 + i + 1];
        assert !ClosesAt(s, m.start + 2 + i);
      }
    }
    forall i | 0 <= i < |a| ensures !IsLineTerminator(a[i]) {
      assert a[i] == s[m.start + 2 + i];
      assert !IsLineTerminator(s[m.start + 2 + i]);
    }
  }

  /** A text without `[[` has no spans: the question and the revealed text are the text itself. */
  lemma {:induction false} NoSpansFrom(s: string, p: nat)
    requires p <= |s|
    requires !Contains(s, "[[")
    ensures FindFrom(s, p).None?
    ensures SpanAnswers(PiecesFrom(s, p)) == []
    ensures MaskText(PiecesFrom(s, p)) == s[p..] && RevealText(PiecesFrom(s, p)) == s[p..]
  {
    forall i | p <= i <= |s| ensures !OpensAt(s, i) {
      if OpensAt(s, i) {
        assert OccursAt(s, "[[", i);
      }
    }
  }

  lemma NoSpans(text: string)
    requires !Contains(text, "[[")
    ensures Answers(text) == [] && Masked(text) == text && Revealed(text) == text
  {
    NoSpansFrom(text, 0);
  }
}
