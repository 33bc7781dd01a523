/** Sequence helpers: duplicate-free sequences and the order-preserving
    de-duplication that `Array.from(new Set(xs))` performs in JavaScript. */
module Collections {

  /** No element occurs twice. */
  predicate NoDup<T(==)>(s: seq<T>) {
    forall i, j :: 0 <= i < j < |s| ==> s[i] != s[j]
  }

  /** Index of the first occurrence of `x` in `s`. */
  function FirstIndex<T(==)>(s: seq<T>, x: T): (k: nat)
    requires x in s
    ensures k < |s| && s[k] == x
    ensures forall j :: 0 <= j < k ==> s[j] != x
  {
    if s[0] == x then 0 else 1 + FirstIndex(s[1..], x)
  }

  /** `Array.from(new Set(s))`: a Set remembers insertion order, so every element
      is kept at its first occurrence and later repetitions are dropped. */
  function Dedup<T(==)>(s: seq<T>): (r: seq<T>)
    ensures NoDup(r)
    ensures forall k :: 0 <= k < |r| ==> r[k] in s
    ensures forall k :: 0 <= k < |s| ==> s[k] in r
    ensures |r| <= |s|
    decreases |s|
  {
    if |s| == 0 then []
    else
      var d := Dedup(s[..|s| - 1]);
      if s[|s| - 1] in d then d else d + [s[|s| - 1]]
  }

  lemma {:induction false} FirstIndexOfPrefix<T>(s: seq<T>, n: nat, x: T)
    requires n <= |s| && x in s[..n]
    ensures x in s && FirstIndex(s[..n], x) == FirstIndex(s, x)
  {
    var k := FirstIndex(s[..n], x);
    assert s[k] == x;
  }

  /** De-duplication keeps first-occurrence order: an element that stands before
      another in the result also occurs first before the other in the input. */
  lemma {:induction false} DedupFirstOccurrenceOrder<T>(s: seq<T>, i: nat, j: nat)
    requires i < j < |Dedup(s)|
    ensures FirstIndex(s, Dedup(s)[i]) < FirstIndex(s, Dedup(s)[j])
    decreases |s|
  {
    var n := |s| - 1;
    var p := s[..n];
    var d := Dedup(p);
    var x, y := Dedup(s)[i], Dedup(s)[j];
    if s[n] in d {
      assert Dedup(s) == d;
      DedupFirstOccurrenceOrder(p, i, j);
      FirstIndexOfPrefix(s, n, x);
      FirstIndexOfPrefix(s, n, y);
    } else {
      assert Dedup(s) == d + [s[n]];
      if j < |d| {
        DedupFirstOccurrenceOrder(p, i, j);
        FirstIndexOfPrefix(s, n, x);
        FirstIndexOfPrefix(s, n, y);
      } else {
        assert y == s[n] && y !in p;
        assert x in d && x in p;
        FirstIndexOfPrefix(s, n, x);
      }
    }
  }

  /** A sequence that has no duplicates is what de-duplication leaves alone. */
  lemma {:induction false} DedupOfDistinct<T>(s: seq<T>)
    requires NoDup(s)
    ensures Dedup(s) == s
    decreases |s|
  {
    if |s| > 0 {
      var p := s[..|s| - 1];
      assert NoDup(p);
      DedupOfDistinct(p);
      assert s[|s| - 1] !in p;
      assert p + [s[|s| - 1]] == s;
    }
  }

  /** Appending new material after a duplicate-free prefix keeps that prefix intact
      at the front of the de-duplicated sequence. */
  lemma {:induction false} DedupKeepsDistinctPrefix<T>(a: seq<T>, b: seq<T>)
    requires NoDup(a)
    ensures |a| <= |Dedup(a + b)| && Dedup(a + b)[..|a|] == a
    decreases |b|
  {
    if |b| == 0 {
      assert a + b == a;
      DedupOfDistinct(a);
    } else {
      var b' := b[..|b| - 1];
      assert (a + b)[..|a + b| - 1] == a + b';
      DedupKeepsDistinctPrefix(a, b');
    }
  }
}
