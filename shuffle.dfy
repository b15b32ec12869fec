/**
 * Kotlin's `shuffled()` on the JVM, which copies the list and runs
 * `java.util.Collections.shuffle` on it: for i from the size down to 2, swap position
 * i - 1 with position `nextInt(i)`. The random number generator becomes a parameter: an
 * arbitrary stream of draws, the k-th draw taken modulo the bound of the k-th `nextInt`.
 */
module Shuffle {

  /** The k-th draw of the stream; 0 once the stream is exhausted. */
  function Draw(rnd: seq<nat>, k: nat): nat {
    if k < |rnd| then rnd[k] else 0
  }

  /** Exchanges positions i and j. */
  function Swap<T>(s: seq<T>, i: nat, j: nat): (r: seq<T>)
    requires i < |s| && j < |s|
    ensures |r| == |s| && r[i] == s[j] && r[j] == s[i]
    ensures forall k :: 0 <= k < |s| && k != i && k != j ==> r[k] == s[k]
    ensures multiset(r) == multiset(s)
  {
    s[i := s[j]][j := s[i]]
  }

  /** The swaps of `Collections.shuffle` for the bounds i, i - 1, ..., 2. */
  function ShuffleSteps<T>(s: seq<T>, rnd: seq<nat>, i: nat): (r: seq<T>)
    requires i <= |s|
    ensures |r| == |s|
    ensures multiset(r) == multiset(s)
    decreases i
  {
    if i <= 1 then s
    else ShuffleSteps(Swap(s, i - 1, Draw(rnd, |s| - i) % i), rnd, i - 1)
  }

  /** `s.shuffled()` with the draws `rnd`: always a permutation of `s`. */
  function Shuffled<T>(s: seq<T>, rnd: seq<nat>): (r: seq<T>)
    ensures |r| == |s|
    ensures multiset(r) == multiset(s)
  {
    ShuffleSteps(s, rnd, |s|)
  }

  /** Shuffling neither adds, loses nor duplicates an element. */
  lemma ShuffledKeepsElements<T>(s: seq<T>, rnd: seq<nat>, x: T)
    ensures x in Shuffled(s, rnd) <==> x in s
    ensures multiset(Shuffled(s, rnd))[x] == multiset(s)[x]
  {
    var r := Shuffled(s, rnd);
    assert x in r <==> x in multiset(r);
    assert x in s <==> x in multiset(s);
  }

  /** Draws that always pick the top position leave the order unchanged. */
  lemma {:induction false} IdentityDraws<T>(s: seq<T>, rnd: seq<nat>, i: nat)
    requires i <= |s|
    requires forall k :: 0 <= k < |s| - 1 ==> Draw(rnd, k) == |s| - 1 - k
    ensures ShuffleSteps(s, rnd, i) == s
    decreases i
  {
    if i > 1 {
      assert Draw(rnd, |s| - i) % i == i - 1;
      assert Swap(s, i - 1, i - 1) == s;
      IdentityDraws(s, rnd, i - 1);
    }
  }
}
