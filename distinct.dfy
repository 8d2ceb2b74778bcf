/**
 * The deduplication of index.js:102, which spreads a `Set` built from `allIps`
 * back into an array. A JavaScript `Set` iterates in insertion order and adding
 * a value it already holds changes nothing, so spreading it keeps the first
 * occurrence of each value, in the order of those first occurrences.
 */
module Distinct {

  predicate NoDuplicates<T(==)>(s: seq<T>)
  {
    forall i, j :: 0 <= i < j < |s| ==> s[i] != s[j]
  }

  /** The values of `s` inserted one by one, left to right, into an insertion-ordered set. */
  function Dedup<T(==)>(s: seq<T>): (r: seq<T>)
    ensures |r| <= |s|
    ensures forall k :: 0 <= k < |r| ==> r[k] in s
    ensures forall k :: 0 <= k < |s| ==> s[k] in r
    ensures NoDuplicates(r)
    decreases |s|
  {
    if s == [] then []
    else
      var r := Dedup(s[..|s| - 1]);
      var x := s[|s| - 1];
      assert s == s[..|s| - 1] + [x];
      if x in r then r else r + [x]
  }

  /** The position of the first occurrence of `x` in `s`. */
  function FirstIndex<T(==)>(s: seq<T>, x: T): (i: nat)
    requires x in s
    ensures i < |s| && s[i] == x && x !in s[..i]
  {
    if s[0] == x then 0
    else
      var j := FirstIndex(s[1..], x);
      assert s[..j + 1] == [s[0]] + s[1..][..j];
      j + 1
  }

  /** Appending at the end does not move a first occurrence. */
  lemma FirstIndexPrefix<T>(p: seq<T>, y: T, x: T)
    requires x in p
    ensures x in p + [y] && FirstIndex(p + [y], x) == FirstIndex(p, x)
  {
    var q := p + [y];
    var i := FirstIndex(p, x);
    var j := FirstIndex(q, x);
    forall k | 0 <= k < j ensures q[k] != x {
      assert q[..j][k] == q[k];
    }
    forall k | 0 <= k < i ensures p[k] != x {
      assert p[..i][k] == p[k];
    }
    assert q[i] == x;
  }

  /** The kept values are ordered by where they first occur in the input. */
  lemma {:induction false} DedupOrder<T>(s: seq<T>)
    ensures forall i, j :: 0 <= i < j < |Dedup(s)| ==> FirstIndex(s, Dedup(s)[i]) < FirstIndex(s, Dedup(s)[j])
    decreases |s|
  {
    if s != [] {
      var p := s[..|s| - 1];
      var x := s[|s| - 1];
      assert s == p + [x];
      DedupOrder(p);
      var r := Dedup(p);
      forall y | y in p ensures FirstIndex(s, y) == FirstIndex(p, y) {
        FirstIndexPrefix(p, x, y);
      }
      if x !in r {
        assert x !in p;
        assert FirstIndex(s, x) == |s| - 1;
      }
    }
  }

  /** Input without duplicates is left as it is. */
  lemma {:induction false} DedupUnchanged<T>(s: seq<T>)
    requires NoDuplicates(s)
    ensures Dedup(s) == s
    decreases |s|
  {
    if s != [] {
      var p := s[..|s| - 1];
      assert NoDuplicates(p);
      DedupUnchanged(p);
      assert s == p + [s[|s| - 1]];
    }
  }

  /** Deduplicating twice is deduplicating once. */
  lemma DedupIdempotent<T>(s: seq<T>)
    ensures Dedup(Dedup(s)) == Dedup(s)
  {
    DedupUnchanged(Dedup(s));
  }

  /** `r` holds exactly the values of `s`. */
  predicate SameValues<T(==)>(r: seq<T>, s: seq<T>)
  {
    (forall k :: 0 <= k < |r| ==> r[k] in s) && (forall k :: 0 <= k < |s| ==> s[k] in r)
  }

  /** The values of `r`, all taken from `s`, follow the order of their first occurrence in `s`. */
  predicate FirstOccurrenceOrder<T(==)>(r: seq<T>, s: seq<T>)
    requires forall k :: 0 <= k < |r| ==> r[k] in s
  {
    forall i, j :: 0 <= i < j < |r| ==> FirstIndex(s, r[i]) < FirstIndex(s, r[j])
  }

  /** An ordered list starts with the value that occurs first in `s`. */
  lemma OrderedStartsWithFirst<T>(s: seq<T>, r: seq<T>)
    requires |r| >= 1
    requires forall k :: 0 <= k < |r| ==> r[k] in s
    requires FirstOccurrenceOrder(r, s)
    ensures forall m :: 0 <= m < |r| ==> FirstIndex(s, r[0]) <= FirstIndex(s, r[m])
  {
    forall m | 1 <= m < |r| ensures FirstIndex(s, r[0]) <= FirstIndex(s, r[m]) {
      assert FirstIndex(s, r[0]) < FirstIndex(s, r[m]);
    }
  }

  /** Two first-occurrence-ordered lists of the same values start with the same value. */
  lemma SameHead<T>(s: seq<T>, r1: seq<T>, r2: seq<T>)
    requires |r1| >= 1 && |r2| >= 1
    requires forall k :: 0 <= k < |r1| ==> r1[k] in s
    requires forall k :: 0 <= k < |r2| ==> r2[k] in s
    requires r1[0] in r2 && r2[0] in r1
    requires FirstOccurrenceOrder(r1, s) && FirstOccurrenceOrder(r2, s)
    ensures r1[0] == r2[0]
  {
    var x1, x2 := r1[0], r2[0];
    var m :| 0 <= m < |r2| && r2[m] == x1;
    var n :| 0 <= n < |r1| && r1[n] == x2;
    OrderedStartsWithFirst(s, r1);
    OrderedStartsWithFirst(s, r2);
    assert FirstIndex(s, r2[0]) <= FirstIndex(s, r2[m]);
    assert FirstIndex(s, r1[0]) <= FirstIndex(s, r1[n]);
  }

  /** The rest of an ordered list is ordered, and none of it is its first value. */
  lemma OrderedTail<T>(s: seq<T>, r: seq<T>)
    requires |r| >= 1
    requires forall k :: 0 <= k < |r| ==> r[k] in s
    requires FirstOccurrenceOrder(r, s)
    ensures forall k :: 0 <= k < |r| - 1 ==> r[1..][k] in s
    ensures FirstOccurrenceOrder(r[1..], s)
    ensures r[0] !in r[1..]
  {
    var t := r[1..];
    forall i, j | 0 <= i < j < |t| ensures FirstIndex(s, t[i]) < FirstIndex(s, t[j]) {
      assert t[i] == r[i + 1] && t[j] == r[j + 1];
    }
    forall k | 0 <= k < |t| ensures t[k] != r[0] {
      assert FirstIndex(s, r[0]) < FirstIndex(s, r[k + 1]);
    }
  }

  /** Once the common first value is removed, the rests hold the same values. */
  lemma TailsSameValues<T>(r1: seq<T>, r2: seq<T>)
    requires |r1| >= 1 && |r2| >= 1 && r1[0] == r2[0]
    requires r1[0] !in r1[1..] && r2[0] !in r2[1..]
    requires forall k :: 0 <= k < |r1| ==> r1[k] in r2
    ensures forall k :: 0 <= k < |r1| - 1 ==> r1[1..][k] in r2[1..]
  {
    forall k | 0 <= k < |r1| - 1 ensures r1[1..][k] in r2[1..] {
      var x := r1[1..][k];
      assert x == r1[k + 1] && x != r1[0];
      var j :| 0 <= j < |r2| && r2[j] == x;
      assert r2[1..][j - 1] == x;
    }
  }

  /**
   * Two lists of values of `s`, each in first-occurrence order and holding the
   * same values as each other, are equal.
   */
  lemma {:induction false} OrderedListsEqual<T>(s: seq<T>, r1: seq<T>, r2: seq<T>)
    requires forall k :: 0 <= k < |r1| ==> r1[k] in s
    requires forall k :: 0 <= k < |r2| ==> r2[k] in s
    requires forall k :: 0 <= k < |r1| ==> r1[k] in r2
    requires forall k :: 0 <= k < |r2| ==> r2[k] in r1
    requires FirstOccurrenceOrder(r1, s) && FirstOccurrenceOrder(r2, s)
    ensures r1 == r2
    decreases |r1| + |r2|
  {
    assert |r1| > 0 ==> r1[0] in r2;
    assert |r2| > 0 ==> r2[0] in r1;
    if r1 != [] && r2 != [] {
      SameHead(s, r1, r2);
      OrderedTail(s, r1);
      OrderedTail(s, r2);
      TailsSameValues(r1, r2);
      TailsSameValues(r2, r1);
      OrderedListsEqual(s, r1[1..], r2[1..]);
      assert r1 == [r1[0]] + r1[1..] && r2 == [r2[0]] + r2[1..];
    }
  }

  /**
   * The three properties characterise the result: a list holds exactly the values
   * of `s`, each once and in first-occurrence order, if and only if it is `Dedup(s)`.
   */
  lemma DedupCharacterised<T>(s: seq<T>, r: seq<T>)
    ensures (SameValues(r, s) && NoDuplicates(r) && FirstOccurrenceOrder(r, s)) <==> r == Dedup(s)
  {
    DedupOrder(s);
    if SameValues(r, s) && NoDuplicates(r) && FirstOccurrenceOrder(r, s) {
      var d := Dedup(s);
      forall k | 0 <= k < |r| ensures r[k] in d { }
      forall k | 0 <= k < |d| ensures d[k] in r {
        var i :| 0 <= i < |s| && s[i] == d[k];
      }
      OrderedListsEqual(s, r, d);
    }
  }
}
