/** Sequence queries shared by the store and the views: counting and filtering with a
    predicate (`countDocuments(filter)`, `Array.prototype.filter`), order-preserving
    subsequences, and sorting descending on a numeric key (`sort({ field: -1 })`). */
module Seqs {

  /** Number of elements of `s` satisfying `p`. */
  function CountIf<T>(s: seq<T>, p: T -> bool): (n: nat)
    ensures n <= |s|
  {
    if s == [] then 0 else (if p(s[0]) then 1 else 0) + CountIf(s[1..], p)
  }

  /** `a` is `b` with some elements left out, the rest kept in their order. */
  predicate IsSubsequence<T(==)>(a: seq<T>, b: seq<T>)
    decreases |b|
  {
    a == [] || (b != [] && if a[0] == b[0] then IsSubsequence(a[1..], b[1..]) else IsSubsequence(a, b[1..]))
  }

  /** The elements of `s` that satisfy `p`, in their order: an element is kept exactly when it
      satisfies `p`, and there are as many as `CountIf` counts. */
  function Filter<T(==)>(s: seq<T>, p: T -> bool): (r: seq<T>)
    ensures |r| == CountIf(s, p)
    ensures forall i :: 0 <= i < |r| ==> r[i] in s && p(r[i])
    ensures forall i :: 0 <= i < |s| && p(s[i]) ==> s[i] in r
    ensures IsSubsequence(r, s)
  {
    if s == [] then []
    else
      var rest := Filter(s[1..], p);
      assert s == [s[0]] + s[1..];
      if p(s[0]) then
        assert ([s[0]] + rest)[1..] == rest;
        [s[0]] + rest
      else
        assert rest != [] ==> rest[0] != s[0] by {
          if rest != [] {
            assert rest[0] in rest;
          }
        }
        rest
  }

  /** Counting over a concatenation adds the counts of the parts. */
  lemma {:induction false} CountIfAppend<T>(a: seq<T>, b: seq<T>, p: T -> bool)
    ensures CountIf(a + b, p) == CountIf(a, p) + CountIf(b, p)
  {
    if a != [] {
      assert (a + b)[1..] == a[1..] + b;
      CountIfAppend(a[1..], b, p);
    } else {
      assert a + b == b;
    }
  }

  /** Counting does not depend on the order: sequences with the same elements have the same
      count. */
  lemma {:induction false} CountIfPermutation<T>(a: seq<T>, b: seq<T>, p: T -> bool)
    requires multiset(a) == multiset(b)
    ensures CountIf(a, p) == CountIf(b, p)
    decreases |a|
  {
    if a == [] {
      assert |b| == |multiset(b)| == 0;
    } else {
      assert a[0] in multiset(b);
      var j :| 0 <= j < |b| && b[j] == a[0];
      var rest := b[..j] + b[j + 1..];
      WithoutOne(a, b, j);
      CountIfPermutation(a[1..], rest, p);
      CountIfWithoutOne(b, j, p);
    }
  }

  /** Taking the first element from one side and an equal one from the other keeps the two
      sides' elements equal. */
  lemma WithoutOne<T>(a: seq<T>, b: seq<T>, j: nat)
    requires multiset(a) == multiset(b) && a != [] && j < |b| && b[j] == a[0]
    ensures multiset(a[1..]) == multiset(b[..j] + b[j + 1..])
  {
    assert a == [a[0]] + a[1..];
    assert b == b[..j] + [b[j]] + b[j + 1..];
    assert multiset(a[1..]) == multiset(a) - multiset{a[0]};
    assert multiset(b[..j] + b[j + 1..]) == multiset(b) - multiset{b[j]};
  }

  /** The count of `b` is the count without its element at `j`, plus that element's. */
  lemma CountIfWithoutOne<T>(b: seq<T>, j: nat, p: T -> bool)
    requires j < |b|
    ensures CountIf(b, p) == CountIf(b[..j] + b[j + 1..], p) + (if p(b[j]) then 1 else 0)
  {
    SplitAround(b, j);
    CountIfMiddle(b[..j], b[j], b[j + 1..], p);
  }

  /** A sequence is what comes before position `j`, the element there, and what comes
      after. */
  lemma SplitAround<T>(b: seq<T>, j: nat)
    requires j < |b|
    ensures b == b[..j] + [b[j]] + b[j + 1..]
  {
  }

  /** The count with one element in the middle is the count without it, plus that
      element's. */
  lemma CountIfMiddle<T>(x: seq<T>, e: T, y: seq<T>, p: T -> bool)
    ensures CountIf(x + [e] + y, p) == CountIf(x + y, p) + (if p(e) then 1 else 0)
  {
    CountIfAppend(x + [e], y, p);
    CountIfAppend(x, [e], p);
    CountIfAppend(x, y, p);
    assert CountIf([e], p) == (if p(e) then 1 else 0) by {
      assert [e][1..] == [];
    }
  }

  /** Every element satisfies exactly one of `p` and its negation `q`, so the two counts
      partition the sequence. */
  lemma {:induction false} CountIfComplement<T>(s: seq<T>, p: T -> bool, q: T -> bool)
    requires forall x :: q(x) == !p(x)
    ensures CountIf(s, p) + CountIf(s, q) == |s|
  {
    if s != [] {
      CountIfComplement(s[1..], p, q);
    }
  }

  /** Two predicates that agree on every element of `s` count the same. */
  lemma {:induction false} CountIfCongruent<T>(s: seq<T>, p: T -> bool, q: T -> bool)
    requires forall i :: 0 <= i < |s| ==> p(s[i]) == q(s[i])
    ensures CountIf(s, p) == CountIf(s, q)
  {
    if s != [] {
      CountIfCongruent(s[1..], p, q);
    }
  }

  /** Consecutive keys never increase. */
  predicate SortedDescBy<T>(s: seq<T>, key: T -> int)
  {
    forall i, j :: 0 <= i < j < |s| ==> key(s[i]) >= key(s[j])
  }

  /** `x` placed into a sequence sorted descending on `key`, after every element whose key is
      at least `key(x)`. */
  function InsertDescBy<T>(x: T, s: seq<T>, key: T -> int): (r: seq<T>)
    requires SortedDescBy(s, key)
    ensures SortedDescBy(r, key)
    ensures multiset(r) == multiset(s) + multiset{x}
    ensures |r| == |s| + 1
  {
    if s == [] || key(s[0]) < key(x) then
      HeadAbove(x, s, key);
      [x] + s
    else
      var rest := InsertDescBy(x, s[1..], key);
      assert s == [s[0]] + s[1..];
      KeepsHeadAbove(x, s, rest, key);
      [s[0]] + rest
  }

  /** Putting in front an element whose key is at least every key keeps the order. */
  lemma HeadAbove<T>(x: T, s: seq<T>, key: T -> int)
    requires SortedDescBy(s, key)
    requires s == [] || key(s[0]) < key(x)
    ensures SortedDescBy([x] + s, key)
  {
    var r := [x] + s;
    forall i, j | 0 <= i < j < |r| ensures key(r[i]) >= key(r[j]) {
      if i == 0 {
        assert r[j] == s[j - 1];
        assert key(s[0]) >= key(s[j - 1]);
      } else {
        assert r[i] == s[i - 1] && r[j] == s[j - 1];
      }
    }
  }

  /** The head of a sorted `s`, whose key is at least `key(x)`, stays in front of `rest`, a
      sorted rearrangement of the tail with `x` added. */
  lemma KeepsHeadAbove<T>(x: T, s: seq<T>, rest: seq<T>, key: T -> int)
    requires SortedDescBy(s, key) && s != [] && key(s[0]) >= key(x)
    requires SortedDescBy(rest, key)
    requires multiset(rest) == multiset(s[1..]) + multiset{x}
    ensures SortedDescBy([s[0]] + rest, key)
  {
    var r := [s[0]] + rest;
    forall j | 0 <= j < |rest| ensures key(s[0]) >= key(rest[j]) {
      assert rest[j] in multiset(rest);
      if rest[j] != x {
        assert rest[j] in multiset(s[1..]);
        var k :| 0 <= k < |s[1..]| && s[1..][k] == rest[j];
        assert s[k + 1] == rest[j];
      }
    }
    forall i, j | 0 <= i < j < |r| ensures key(r[i]) >= key(r[j]) {
      if i == 0 {
        assert r[j] == rest[j - 1];
      } else {
        assert r[i] == rest[i - 1] && r[j] == rest[j - 1];
      }
    }
  }

  /** `s` ordered by `key`, largest first: a permutation of `s` that is sorted descending. */
  function SortDescBy<T>(s: seq<T>, key: T -> int): (r: seq<T>)
    ensures SortedDescBy(r, key)
    ensures multiset(r) == multiset(s)
    ensures |r| == |s|
  {
    if s == [] then []
    else
      assert s == [s[0]] + s[1..];
      InsertDescBy(s[0], SortDescBy(s[1..], key), key)
  }
}
