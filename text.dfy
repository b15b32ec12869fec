/**
 * The parts of Kotlin's string library (kotlin.text on the JVM) that the app relies on:
 * `trim()`, `equals(other, ignoreCase = true)`, `contains`, `split(',')` and
 * `Int.toString()`.
 */
module Text {

  /**
   * Kotlin's `Char.isWhitespace()` on the JVM: `Character.isWhitespace(c)` or
   * `Character.isSpaceChar(c)`, i.e. the ASCII controls TAB..CR and FS..US, the space
   * separators, the line separator and the paragraph separator.
   */
  predicate IsWhitespace(c: char) {
    || ('\t' <= c <= '\r')
    || ('\U{1C}' <= c <= ' ')
    || c == '\U{A0}'
    || c == '\U{1680}'
    || ('\U{2000}' <= c <= '\U{200A}')
    || c == '\U{2028}'
    || c == '\U{2029}'
    || c == '\U{202F}'
    || c == '\U{205F}'
    || c == '\U{3000}'
  }

  /** Number of whitespace characters at the start of `s`. */
  function LeadingWhitespace(s: string): (k: nat)
    ensures k <= |s|
    ensures forall i :: 0 <= i < k ==> IsWhitespace(s[i])
    ensures k < |s| ==> !IsWhitespace(s[k])
  {
    if |s| == 0 || !IsWhitespace(s[0]) then 0 else 1 + LeadingWhitespace(s[1..])
  }

  /** Number of whitespace characters at the end of `s`. */
  function TrailingWhitespace(s: string): (k: nat)
    ensures k <= |s|
    ensures forall i :: |s| - k <= i < |s| ==> IsWhitespace(s[i])
    ensures k < |s| ==> !IsWhitespace(s[|s| - 1 - k])
  {
    if |s| == 0 || !IsWhitespace(s[|s| - 1]) then 0 else 1 + TrailingWhitespace(s[..|s| - 1])
  }

  /** Everything of `s` outside `s[a..b]` is whitespace. */
  predicate OnlyWhitespaceOutside(s: string, a: nat, b: nat) {
    && a <= b <= |s|
    && (forall i :: 0 <= i < a ==> IsWhitespace(s[i]))
    && (forall i :: b <= i < |s| ==> IsWhitespace(s[i]))
  }

  /** Where the trimmed part of `s` starts: after its leading whitespace. */
  function TrimStart(s: string): (a: nat)
    ensures a <= |s|
    ensures a < |s| ==> !IsWhitespace(s[a])
  {
    LeadingWhitespace(s)
  }

  /** Where the trimmed part of `s` ends: before the trailing whitespace after `TrimStart`. */
  function TrimEnd(s: string): (b: nat)
    ensures TrimStart(s) <= b <= |s|
    ensures TrimStart(s) < b ==> !IsWhitespace(s[b - 1])
  {
    var t := s[TrimStart(s)..];
    assert TrailingWhitespace(t) < |t| ==> s[|s| - TrailingWhitespace(t) - 1] == t[|t| - 1 - TrailingWhitespace(t)];
    |s| - TrailingWhitespace(t)
  }

  /**
   * Kotlin's `String.trim()`: `s` without the whitespace at either end; what is left
   * neither starts nor ends with whitespace.
   */
  function Trim(s: string): (r: string)
    ensures r != [] ==> !IsWhitespace(r[0]) && !IsWhitespace(r[|r| - 1])
  {
    s[TrimStart(s)..TrimEnd(s)]
  }

  /** The trimmed part, when not empty, starts and ends with a non-whitespace character. */
  lemma TrimEnds(s: string)
    requires TrimStart(s) < TrimEnd(s)
    ensures !IsWhitespace(s[TrimStart(s)]) && !IsWhitespace(s[TrimEnd(s) - 1])
  {
    assert Trim(s)[0] == s[TrimStart(s)];
    assert Trim(s)[TrimEnd(s) - TrimStart(s) - 1] == s[TrimEnd(s) - 1];
  }

  /** Trimming cuts whitespace only. */
  lemma TrimCutsWhitespace(s: string)
    ensures OnlyWhitespaceOutside(s, TrimStart(s), TrimEnd(s))
  {
    var a := TrimStart(s);
    var t := s[a..];
    forall i | TrimEnd(s) <= i < |s| ensures IsWhitespace(s[i]) {
      assert s[i] == t[i - a];
    }
  }

  /**
   * Trimming is determined by its contract: any infix with only whitespace outside it
   * and no whitespace at its own ends is the trimmed string.
   */
  lemma TrimUnique(s: string, a: nat, b: nat)
    requires OnlyWhitespaceOutside(s, a, b)
    requires a < b ==> !IsWhitespace(s[a]) && !IsWhitespace(s[b - 1])
    ensures Trim(s) == s[a..b]
  {
    var k := LeadingWhitespace(s);
    var t := s[k..];
    var e := TrailingWhitespace(t);
    if a < b {
      assert k == a;
      assert s[b - 1] == t[|t| - 1 - (|s| - b)];
      assert e == |s| - b;
      assert t[..|t| - e] == s[a..b];
    } else {
      assert forall i :: 0 <= i < |s| ==> IsWhitespace(s[i]);
      assert k == |s|;
    }
  }

  /** Trimming is idempotent. */
  lemma TrimIdempotent(s: string)
    ensures Trim(Trim(s)) == Trim(s)
  {
    var r := Trim(s);
    TrimUnique(r, 0, |r|);
    assert r[0..|r|] == r;
  }

  /** Whitespace added at either end of a string does not change its trimmed form. */
  lemma TrimPadded(pre: string, s: string, post: string)
    requires forall i :: 0 <= i < |pre| ==> IsWhitespace(pre[i])
    requires forall i :: 0 <= i < |post| ==> IsWhitespace(post[i])
    ensures Trim(pre + s + post) == Trim(s)
  {
    TrimCutsWhitespace(s);
    if TrimStart(s) == TrimEnd(s) {
      BlankPadded(pre, s, post);
    } else {
      TextPadded(pre, s, post);
    }
  }

  /** A padded string of whitespace only trims to the empty string. */
  lemma BlankPadded(pre: string, s: string, post: string)
    requires forall i :: 0 <= i < |pre| ==> IsWhitespace(pre[i])
    requires forall i :: 0 <= i < |post| ==> IsWhitespace(post[i])
    requires OnlyWhitespaceOutside(s, TrimStart(s), TrimEnd(s)) && TrimStart(s) == TrimEnd(s)
    ensures Trim(pre + s + post) == Trim(s)
  {
    assert OnlyWhitespaceOutside(s, 0, 0);
    PaddedOutside(pre, s, post, 0, 0);
    TrimUnique(pre + s + post, |pre|, |pre|);
  }

  /** A padded string with some non-whitespace trims to what the string trims to. */
  lemma TextPadded(pre: string, s: string, post: string)
    requires forall i :: 0 <= i < |pre| ==> IsWhitespace(pre[i])
    requires forall i :: 0 <= i < |post| ==> IsWhitespace(post[i])
    requires OnlyWhitespaceOutside(s, TrimStart(s), TrimEnd(s)) && TrimStart(s) < TrimEnd(s)
    ensures Trim(pre + s + post) == Trim(s)
  {
    var a, b := TrimStart(s), TrimEnd(s);
    PaddedOutside(pre, s, post, a, b);
    TrimEnds(s);
    TrimSameInfix(pre + s + post, |pre| + a, |pre| + b, s);
  }

  lemma TrimSameInfix(w: string, i: nat, j: nat, s: string)
    requires OnlyWhitespaceOutside(w, i, j) && i < j
    requires !IsWhitespace(w[i]) && !IsWhitespace(w[j - 1])
    requires w[i..j] == s[TrimStart(s)..TrimEnd(s)]
    ensures Trim(w) == Trim(s)
  {
    TrimUnique(w, i, j);
  }

  lemma PaddedOutside(pre: string, s: string, post: string, a: nat, b: nat)
    requires forall i :: 0 <= i < |pre| ==> IsWhitespace(pre[i])
    requires forall i :: 0 <= i < |post| ==> IsWhitespace(post[i])
    requires OnlyWhitespaceOutside(s, a, b)
    ensures OnlyWhitespaceOutside(pre + s + post, |pre| + a, |pre| + b)
    ensures a < b ==> (pre + s + post)[|pre| + a] == s[a] && (pre + s + post)[|pre| + b - 1] == s[b - 1]
    ensures (pre + s + post)[|pre| + a..|pre| + b] == s[a..b]
  {
    var w := pre + s + post;
    assert forall i :: 0 <= i < |s| ==> w[|pre| + i] == s[i];
    assert forall i :: |pre| + |s| <= i < |w| ==> w[i] == post[i - |pre| - |s|];
  }

  /**
   * The per-character case fold behind Java's `String.equalsIgnoreCase`, restricted to the
   * Basic Latin and Latin-1 Supplement letters: A..Z and U+00C0..U+00DE (except the
   * multiplication sign U+00D7) map to their lower-case forms; every other character is its
   * own fold.
   */
  function LowerChar(c: char): (d: char)
    ensures 'A' <= c <= 'Z' ==> d as int == c as int + 32
    ensures !('A' <= c <= 'Z') && !('\U{C0}' <= c <= '\U{DE}') ==> d == c
    ensures c == '\U{D7}' ==> d == c
    ensures !('A' <= d <= 'Z')
  {
    if 'A' <= c <= 'Z' || ('\U{C0}' <= c <= '\U{DE}' && c != '\U{D7}')
    then (c as int + 32) as char
    else c
  }

  /** A string with every character folded. */
  function Lower(s: string): (r: string)
    ensures |r| == |s|
    ensures forall i :: 0 <= i < |s| ==> r[i] == LowerChar(s[i])
  {
    seq(|s|, i requires 0 <= i < |s| => LowerChar(s[i]))
  }

  /** Kotlin's `a.equals(b, ignoreCase = true)`, with the fold of `LowerChar`. */
  predicate EqualsIgnoreCase(a: string, b: string) {
    |a| == |b| && forall i :: 0 <= i < |a| ==> LowerChar(a[i]) == LowerChar(b[i])
  }

  /** Ignoring case is exactly equality of the folded strings. */
  lemma EqualsIgnoreCaseIsFoldEquality(a: string, b: string)
    ensures EqualsIgnoreCase(a, b) <==> Lower(a) == Lower(b)
  {
    if Lower(a) == Lower(b) {
      assert |a| == |b|;
      forall i | 0 <= i < |a| ensures LowerChar(a[i]) == LowerChar(b[i]) {
        assert Lower(a)[i] == Lower(b)[i];
      }
    }
  }

  /** Ignoring case is an equivalence relation, and it extends plain equality. */
  lemma EqualsIgnoreCaseIsEquivalence(a: string, b: string, c: string)
    ensures a == b ==> EqualsIgnoreCase(a, b)
    ensures EqualsIgnoreCase(a, b) ==> EqualsIgnoreCase(b, a)
    ensures EqualsIgnoreCase(a, b) && EqualsIgnoreCase(b, c) ==> EqualsIgnoreCase(a, c)
  {
  }

  /** A string and its folded form are equal ignoring case. */
  lemma LowerEqualsIgnoringCase(s: string)
    ensures EqualsIgnoreCase(Lower(s), s)
  {
  }

  /** `sub` occurs in `s` at position `i`. */
  predicate OccursAt(s: string, sub: string, i: nat) {
    i + |sub| <= |s| && s[i..i + |sub|] == sub
  }

  /** Kotlin's `s.contains(sub)`. */
  predicate Contains(s: string, sub: string) {
    exists i: nat :: i <= |s| && OccursAt(s, sub, i)
  }

  /** Joins `parts` with `sep` between consecutive parts (Kotlin's `joinToString(sep)`). */
  function Join(parts: seq<string>, sep: char): (r: string)
    requires |parts| >= 1
    decreases |parts|
  {
    if |parts| == 1 then parts[0] else parts[0] + [sep] + Join(parts[1..], sep)
  }

  /** Number of occurrences of `c` in `s`. */
  function Count(s: string, c: char): (n: nat)
    ensures n <= |s|
    ensures n == 0 <==> c !in s
  {
    if s == [] then 0 else (if s[0] == c then 1 else 0) + Count(s[1..], c)
  }

  /**
   * Kotlin's `s.split(sep)` with no limit: the maximal pieces between separators, empty
   * pieces (also leading and trailing ones) included.
   */
  function Split(s: string, sep: char): (r: seq<string>)
    ensures |r| == Count(s, sep) + 1
    ensures forall i :: 0 <= i < |r| ==> sep !in r[i]
  {
    if s == [] then [""]
    else
      var rest := Split(s[1..], sep);
      if s[0] == sep then [""] + rest else [[s[0]] + rest[0]] + rest[1..]
  }

  /** Splitting and joining again with the same separator gives back the string. */
  lemma {:induction false} JoinSplit(s: string, sep: char)
    ensures Join(Split(s, sep), sep) == s
  {
    if s != [] {
      var rest := Split(s[1..], sep);
      JoinSplit(s[1..], sep);
      if s[0] == sep {
        assert Split(s, sep) == [""] + rest;
        assert ([""] + rest)[1..] == rest;
      } else {
        var r := Split(s, sep);
        assert r == [[s[0]] + rest[0]] + rest[1..];
        if |rest| == 1 {
          assert Join(r, sep) == [s[0]] + rest[0];
        } else {
          assert r[1..] == rest[1..];
          assert Join(rest, sep) == rest[0] + [sep] + Join(rest[1..], sep);
        }
      }
    }
  }

  /** The decimal digit character of `d`. */
  function DigitChar(d: nat): (c: char)
    requires d < 10
    ensures '0' <= c <= '9'
  {
    ('0' as int + d) as char
  }

  /** Decimal representation of a natural number, without leading zeros. */
  function NatToString(n: nat): (r: string)
    ensures |r| >= 1
    ensures forall i :: 0 <= i < |r| ==> '0' <= r[i] <= '9'
    ensures |r| > 1 ==> r[0] != '0'
  {
    if n < 10 then [DigitChar(n)] else NatToString(n / 10) + [DigitChar(n % 10)]
  }

  /** Kotlin's `Int.toString()`: a minus sign for negatives, then the decimal digits. */
  function IntToString(i: int): (r: string)
    ensures |r| >= 1
    ensures i < 0 <==> r[0] == '-'
  {
    if i < 0 then "-" + NatToString(-i) else NatToString(i)
  }

  /** Reads back a string of decimal digits. */
  function DigitsValue(s: string): (n: nat)
    requires forall i :: 0 <= i < |s| ==> '0' <= s[i] <= '9'
  {
    if s == [] then 0 else 10 * DigitsValue(s[..|s| - 1]) + (s[|s| - 1] as int - '0' as int)
  }

  /** Reads back the output of `IntToString`. */
  function ParseInt(s: string): (i: int)
    requires |s| >= 1
    requires forall k :: (if s[0] == '-' then 1 else 0) <= k < |s| ==> '0' <= s[k] <= '9'
  {
    if s[0] == '-' then 0 - DigitsValue(s[1..]) else DigitsValue(s)
  }

  /** `IntToString` loses nothing: parsing its output gives back the number. */
  lemma {:induction false} ParseIntToString(i: int)
    ensures ParseInt(IntToString(i)) == i
  {
    if i < 0 {
      var d := NatToString(-i);
      assert IntToString(i)[1..] == d;
      DigitsValueNatToString(-i);
    } else {
      DigitsValueNatToString(i);
    }
  }

  lemma {:induction false} DigitsValueNatToString(n: nat)
    ensures DigitsValue(NatToString(n)) == n
  {
    if n >= 10 {
      var r := NatToString(n);
      assert r[..|r| - 1] == NatToString(n / 10);
      DigitsValueNatToString(n / 10);
    }
  }

  /** Different numbers print differently. */
  lemma IntToStringInjective(i: int, j: int)
    requires IntToString(i) == IntToString(j)
    ensures i == j
  {
    ParseIntToString(i);
    ParseIntToString(j);
  }
}
