/** Sequence operations the source takes from JavaScript's `Array`:
    `indexOf` / `findIndex`, `splice` for one removal or one insertion,
    `map`, `filter`, plus the pairwise-distinctness predicate. */
module Seqs {
  import opened Wrappers

  function Min(a: int, b: int): int
  {
    if a <= b then a else b
  }

  /** No element occurs twice. */
  predicate Distinct<T(==)>(s: seq<T>)
  {
    forall i, j :: 0 <= i < j < |s| ==> s[i] != s[j]
  }

  /** `Array.prototype.map` with a total function. */
  function Project<T, U>(s: seq<T>, f: T -> U): (r: seq<U>)
    ensures |r| == |s|
    ensures forall i :: 0 <= i < |s| ==> r[i] == f(s[i])
  {
    seq(|s|, i requires 0 <= i < |s| => f(s[i]))
  }

  /** `indexOf(x)`: the FIRST position holding `x`, or None where JavaScript answers -1. */
  function IndexOf<T(==)>(s: seq<T>, x: T): (r: Option<nat>)
    ensures r.None? <==> x !in s
    ensures r.Some? ==> r.value < |s| && s[r.value] == x && x !in s[..r.value]
  {
    if |s| == 0 then None
    else if s[0] == x then Some(0)
    else match IndexOf(s[1..], x)
      case None => None
      case Some(i) =>
        assert s[..i + 1] == [s[0]] + s[1..][..i];
        Some(i + 1)
  }

  /** In a duplicate-free sequence, `indexOf` finds each element at its own position. */
  lemma IndexOfDistinct<T>(s: seq<T>, i: nat)
    requires Distinct(s) && i < |s|
    ensures IndexOf(s, s[i]) == Some(i)
  {
  }

  /** `s.splice(i, 1)`: the sequence without its element at `i`. */
  function RemoveAt<T>(s: seq<T>, i: nat): (r: seq<T>)
    requires i < |s|
    ensures |r| == |s| - 1
    ensures multiset(r) + multiset{s[i]} == multiset(s)
    ensures forall k :: 0 <= k < i ==> r[k] == s[k]
    ensures forall k :: i <= k < |r| ==> r[k] == s[k + 1]
  {
    assert s == s[..i] + [s[i]] + s[i + 1..];
    s[..i] + s[i + 1..]
  }

  /** `s.splice(i, 0, x)` for a non-negative `i`: JavaScript clamps a start
      beyond the end to the length, so `x` lands at `Min(i, |s|)`. */
  function InsertAt<T>(s: seq<T>, i: nat, x: T): (r: seq<T>)
    ensures |r| == |s| + 1
    ensures multiset(r) == multiset(s) + multiset{x}
    ensures r[Min(i, |s|)] == x
    ensures forall k :: 0 <= k < Min(i, |s|) ==> r[k] == s[k]
    ensures forall k :: Min(i, |s|) < k < |r| ==> r[k] == s[k - 1]
  {
    var k := Min(i, |s|);
    assert s == s[..k] + s[k..];
    s[..k] + [x] + s[k..]
  }

  /** Remove the element at `from` and reinsert it at `to`: the array move of a drag gesture. */
  function Move<T>(s: seq<T>, from: nat, to: nat): (r: seq<T>)
    requires from < |s|
    ensures |r| == |s|
    ensures multiset(r) == multiset(s)
    ensures r[Min(to, |s| - 1)] == s[from]
    ensures RemoveAt(r, Min(to, |s| - 1)) == RemoveAt(s, from)
  {
    var rest := RemoveAt(s, from);
    var r := InsertAt(rest, to, s[from]);
    assert RemoveAt(r, Min(to, |rest|)) == rest;
    r
  }

  /** `r` is `s` with some elements left out: the survivors keep their relative order. */
  predicate Subsequence<T(==)>(r: seq<T>, s: seq<T>)
    decreases |s|
  {
    if |r| == 0 then true
    else if |s| == 0 then false
    else if r[0] == s[0] then Subsequence(r[1..], s[1..])
    else Subsequence(r, s[1..])
  }

  /** `Array.prototype.filter`: the elements satisfying `p`, in their original order. */
  function Filter<T(==)>(s: seq<T>, p: T -> bool): (r: seq<T>)
    ensures |r| <= |s|
    ensures Subsequence(r, s)
    ensures forall i :: 0 <= i < |r| ==> r[i] in s && p(r[i])
    ensures forall i :: 0 <= i < |s| && p(s[i]) ==> s[i] in r
    ensures (forall i :: 0 <= i < |s| ==> p(s[i])) ==> r == s
  {
    if |s| == 0 then []
    else if p(s[0]) then [s[0]] + Filter(s[1..], p)
    else Filter(s[1..], p)
  }

  /** Filtering keeps exactly the multiplicity of every surviving value and drops the rest. */
  lemma {:induction false} FilterCounts<T>(s: seq<T>, p: T -> bool, x: T)
    ensures multiset(Filter(s, p))[x] == if p(x) then multiset(s)[x] else 0
  {
    if |s| > 0 {
      FilterCounts(s[1..], p, x);
      assert s == [s[0]] + s[1..];
    }
  }

  lemma ProjectConcat<T, U>(a: seq<T>, b: seq<T>, f: T -> U)
    ensures Project(a + b, f) == Project(a, f) + Project(b, f)
  {
  }

  /** The images of a subsequence form a sub-multiset of the images. */
  lemma {:induction false} ProjectSubsequence<T, U>(r: seq<T>, s: seq<T>, f: T -> U)
    requires Subsequence(r, s)
    ensures multiset(Project(r, f)) <= multiset(Project(s, f))
    decreases |s|
  {
    if |r| > 0 {
      ProjectHead(s, f);
      if r[0] == s[0] {
        ProjectHead(r, f);
        ProjectSubsequence(r[1..], s[1..], f);
      } else {
        ProjectSubsequence(r, s[1..], f);
      }
    }
  }

  lemma ProjectHead<T, U>(s: seq<T>, f: T -> U)
    requires |s| > 0
    ensures multiset(Project(s, f)) == multiset{f(s[0])} + multiset(Project(s[1..], f))
  {
    assert Project(s, f) == [f(s[0])] + Project(s[1..], f);
  }

  lemma ProjectRemoveAt<T, U>(s: seq<T>, i: nat, f: T -> U)
    requires i < |s|
    ensures Project(RemoveAt(s, i), f) == RemoveAt(Project(s, f), i)
  {
  }

  lemma MultisetCancel<T>(a: multiset<T>, b: multiset<T>, x: T)
    requires a + multiset{x} == b + multiset{x}
    ensures a == b
  {
    MultisetCancelBag(a, b, multiset{x});
  }

  lemma MultisetCancelBag<T>(a: multiset<T>, b: multiset<T>, c: multiset<T>)
    requires a + c == b + c
    ensures a == b
  {
    forall y ensures a[y] == b[y] {
      assert (a + c)[y] == (b + c)[y];
    }
  }

  /** Permuting a sequence permutes its image. */
  lemma {:induction false} ProjectPermutation<T, U>(a: seq<T>, b: seq<T>, f: T -> U)
    requires multiset(a) == multiset(b)
    ensures multiset(Project(a, f)) == multiset(Project(b, f))
    decreases |a|
  {
    if |a| == 0 {
      assert |b| == |multiset(b)| == 0;
    } else {
      var x := a[0];
      assert x in multiset(b);
      var j := IndexOf(b, x).value;
      var rest := RemoveAt(b, j);
      assert a == [x] + a[1..];
      assert multiset(a) == multiset(a[1..]) + multiset{x};
      MultisetCancel(multiset(a[1..]), multiset(rest), x);
      ProjectPermutation(a[1..], rest, f);
      ProjectRemoveAt(b, j, f);
      ProjectRemoveAt(a, 0, f);
      assert RemoveAt(a, 0) == a[1..];
      assert Project(b, f)[j] == f(x) == Project(a, f)[0];
      calc {
        multiset(Project(b, f));
        multiset(RemoveAt(Project(b, f), j)) + multiset{f(x)};
        multiset(Project(rest, f)) + multiset{f(x)};
        multiset(Project(a[1..], f)) + multiset{f(x)};
        multiset(RemoveAt(Project(a, f), 0)) + multiset{f(x)};
        multiset(Project(a, f));
      }
    }
  }

  /** A duplicate-free sequence holds every value at most once. */
  lemma {:induction false} DistinctAtMostOnce<T>(s: seq<T>, x: T)
    requires Distinct(s)
    ensures multiset(s)[x] <= 1
  {
    if |s| > 0 {
      assert s == [s[0]] + s[1..];
      assert multiset(s) == multiset{s[0]} + multiset(s[1..]);
      assert s[0] !in s[1..];
      DistinctAtMostOnce(s[1..], x);
    }
  }

  /** A value at two positions occurs at least twice. */
  lemma TwiceCounted<T>(s: seq<T>, i: nat, j: nat)
    requires i < j < |s| && s[i] == s[j]
    ensures multiset(s)[s[i]] >= 2
  {
    assert s == s[..i] + [s[i]] + s[i + 1..j] + [s[j]] + s[j + 1..];
  }

  /** A sequence is duplicate-free exactly when every value occurs at most once in its multiset. */
  lemma DistinctIffAtMostOnce<T>(s: seq<T>)
    ensures Distinct(s) <==> forall x :: multiset(s)[x] <= 1
  {
    if Distinct(s) {
      forall x {
        DistinctAtMostOnce(s, x);
      }
    } else {
      var i, j :| 0 <= i < j < |s| && s[i] == s[j];
      TwiceCounted(s, i, j);
    }
  }

  /** A permutation of a duplicate-free sequence is duplicate-free. */
  lemma DistinctPermutation<T>(a: seq<T>, b: seq<T>)
    requires multiset(a) == multiset(b)
    requires Distinct(a)
    ensures Distinct(b)
  {
    DistinctIffAtMostOnce(a);
    DistinctIffAtMostOnce(b);
  }
}
