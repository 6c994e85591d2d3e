/** `Array.prototype.sort` with a numeric key comparator `(a, b) => key(a) - key(b)`.
    Since ECMAScript 2019 that sort is stable, so its result is determined: the
    permutation that is ordered by key and keeps equal-keyed elements in their
    original relative order. `SortBy` computes it by insertion, and
    `SortedGroupsDetermine` shows no other sequence meets that description. */
module StableSort {
  import opened Seqs

  predicate SortedBy<T>(s: seq<T>, key: T -> int)
  {
    forall i, j :: 0 <= i < j < |s| ==> key(s[i]) <= key(s[j])
  }

  /** The elements of `s` whose key is `k`, in their order in `s`. */
  function WithKey<T>(s: seq<T>, key: T -> int, k: int): seq<T>
  {
    if |s| == 0 then []
    else (if key(s[0]) == k then [s[0]] else []) + WithKey(s[1..], key, k)
  }

  /** Places `x` before the first element whose key is not smaller. */
  function Insert<T>(x: T, s: seq<T>, key: T -> int): (r: seq<T>)
    ensures |r| == |s| + 1
    ensures multiset(r) == multiset(s) + multiset{x}
  {
    if |s| == 0 then [x]
    else if key(x) <= key(s[0]) then [x] + s
    else
      assert s == [s[0]] + s[1..];
      [s[0]] + Insert(x, s[1..], key)
  }

  lemma {:induction false} InsertSorted<T>(x: T, s: seq<T>, key: T -> int)
    requires SortedBy(s, key)
    ensures SortedBy(Insert(x, s, key), key)
  {
    if |s| > 0 && key(x) > key(s[0]) {
      var t := Insert(x, s[1..], key);
      InsertSorted(x, s[1..], key);
      forall j | 0 <= j < |t| ensures key(s[0]) <= key(t[j]) {
        assert t[j] in multiset(t);
        if t[j] != x {
          assert t[j] in multiset(s[1..]);
          var i :| 0 <= i < |s[1..]| && s[1..][i] == t[j];
          assert s[1..][i] == s[i + 1];
        }
      }
    }
  }

  lemma WithKeyCons<T>(x: T, s: seq<T>, key: T -> int, k: int)
    ensures WithKey([x] + s, key, k) == (if key(x) == k then [x] else []) + WithKey(s, key, k)
  {
    assert ([x] + s)[0] == x && ([x] + s)[1..] == s;
  }

  /** One step of `InsertWithKey`: `x` passes a head of smaller key. */
  lemma WithKeyPassHead<T>(x: T, h: T, s: seq<T>, t: seq<T>, key: T -> int, k: int)
    requires key(x) > key(h)
    requires WithKey(t, key, k) == (if key(x) == k then [x] else []) + WithKey(s, key, k)
    ensures WithKey([h] + t, key, k) == (if key(x) == k then [x] else []) + WithKey([h] + s, key, k)
  {
    WithKeyCons(h, t, key, k);
    WithKeyCons(h, s, key, k);
  }

  /** Inserting `x` puts it in front of every element that shares its key. */
  lemma {:induction false} InsertWithKey<T>(x: T, s: seq<T>, key: T -> int, k: int)
    ensures WithKey(Insert(x, s, key), key, k)
         == (if key(x) == k then [x] else []) + WithKey(s, key, k)
  {
    if |s| == 0 || key(x) <= key(s[0]) {
      assert Insert(x, s, key) == [x] + s;
      WithKeyCons(x, s, key, k);
    } else {
      var t := Insert(x, s[1..], key);
      assert Insert(x, s, key) == [s[0]] + t;
      assert s == [s[0]] + s[1..];
      InsertWithKey(x, s[1..], key, k);
      WithKeyPassHead(x, s[0], s[1..], t, key, k);
    }
  }

  /** The stable sort of `s` by `key`. */
  function SortBy<T>(s: seq<T>, key: T -> int): (r: seq<T>)
    ensures multiset(r) == multiset(s)
    ensures SortedBy(r, key)
    ensures forall k :: WithKey(r, key, k) == WithKey(s, key, k)
  {
    if |s| == 0 then []
    else
      var t := SortBy(s[1..], key);
      InsertSorted(s[0], t, key);
      assert s == [s[0]] + s[1..];
      assert forall k :: WithKey(Insert(s[0], t, key), key, k) == WithKey(s, key, k) by {
        forall k ensures WithKey(Insert(s[0], t, key), key, k) == WithKey(s, key, k) {
          InsertWithKey(s[0], t, key, k);
        }
      }
      Insert(s[0], t, key)
  }

  lemma {:induction false} WithKeyMembers<T>(s: seq<T>, key: T -> int, k: int, i: nat)
    requires i < |WithKey(s, key, k)|
    ensures WithKey(s, key, k)[i] in s
    ensures key(WithKey(s, key, k)[i]) == k
  {
    if key(s[0]) == k && i == 0 {
    } else if key(s[0]) == k {
      WithKeyMembers(s[1..], key, k, i - 1);
    } else {
      WithKeyMembers(s[1..], key, k, i);
    }
  }

  lemma WithKeyHead<T>(s: seq<T>, key: T -> int)
    requires |s| > 0
    ensures WithKey(s, key, key(s[0])) != []
  {
  }

  /** A sorted sequence begins with an element of smallest key, so no group has a smaller key. */
  lemma SortedHeadIsLeast<T>(a: seq<T>, b: seq<T>, key: T -> int)
    requires |a| > 0 && |b| > 0
    requires SortedBy(b, key)
    requires WithKey(a, key, key(a[0])) == WithKey(b, key, key(a[0]))
    ensures key(b[0]) <= key(a[0])
  {
    assert WithKey(a, key, key(a[0]))[0] == a[0];
    WithKeyMembers(b, key, key(a[0]), 0);
  }

  /** Being ordered by key and keeping every key group in its original order
      determines a sequence: any stable sort must agree with `SortBy`. */
  lemma {:induction false} SortedGroupsDetermine<T>(a: seq<T>, b: seq<T>, key: T -> int)
    requires SortedBy(a, key) && SortedBy(b, key)
    requires forall k :: WithKey(a, key, k) == WithKey(b, key, k)
    ensures a == b
    decreases |a|
  {
    if |a| == 0 && |b| > 0 {
      WithKeyHead(b, key);
      assert false;
    } else if |a| > 0 && |b| == 0 {
      WithKeyHead(a, key);
      assert false;
    } else if |a| > 0 {
      assert WithKey(a, key, key(a[0])) == WithKey(b, key, key(a[0]));
      assert WithKey(b, key, key(b[0])) == WithKey(a, key, key(b[0]));
      SortedHeadIsLeast(a, b, key);
      SortedHeadIsLeast(b, a, key);
      var k := key(a[0]);
      assert key(b[0]) == k;
      var ta, tb := WithKey(a[1..], key, k), WithKey(b[1..], key, k);
      assert WithKey(a, key, k) == [a[0]] + ta;
      assert WithKey(b, key, k) == [b[0]] + tb;
      assert ([a[0]] + ta)[0] == a[0] && ([a[0]] + ta)[1..] == ta;
      assert ([b[0]] + tb)[0] == b[0] && ([b[0]] + tb)[1..] == tb;
      assert a[0] == b[0] && ta == tb;
      forall k' ensures WithKey(a[1..], key, k') == WithKey(b[1..], key, k') {
        assert WithKey(a, key, k') == WithKey(b, key, k');
        if k' != k {
          assert WithKey(a, key, k') == WithKey(a[1..], key, k');
          assert WithKey(b, key, k') == WithKey(b[1..], key, k');
        }
      }
      SortedGroupsDetermine(a[1..], b[1..], key);
      assert a == [a[0]] + a[1..] && b == [b[0]] + b[1..];
    }
  }

  /** The key `new Map(order.map((id, i) => [id, i])).get(x) ?? 0` gives `x`:
      its LAST position in `order` (a later entry overwrites an earlier one),
      or 0 when `x` does not occur. */
  function Rank<T(==)>(order: seq<T>, x: T): (r: nat)
    ensures x in order ==> r < |order| && order[r] == x && x !in order[r + 1..]
    ensures x !in order ==> r == 0
  {
    if |order| == 0 then 0
    else if order[|order| - 1] == x then |order| - 1
    else
      assert order == order[..|order| - 1] + [order[|order| - 1]];
      Rank(order[..|order| - 1], x)
  }

  /** The comparator key of an element: the rank of its id. */
  function RankKey<T, Id(==)>(order: seq<Id>, idOf: T -> Id): T -> int
  {
    x => Rank(order, idOf(x))
  }

  /** Keys that strictly increase through `[0, |K|)` must be `0, 1, ..., |K|-1`. */
  lemma {:induction false} StrictlyIncreasingLowerBound(K: seq<int>, i: nat)
    requires forall j :: 0 <= j < |K| ==> 0 <= K[j]
    requires forall j, l :: 0 <= j < l < |K| ==> K[j] < K[l]
    requires i < |K|
    ensures i <= K[i]
  {
    if i > 0 {
      StrictlyIncreasingLowerBound(K, i - 1);
    }
  }

  lemma {:induction false} StrictlyIncreasingUpperBound(K: seq<int>, i: nat)
    requires forall j :: 0 <= j < |K| ==> K[j] < |K|
    requires forall j, l :: 0 <= j < l < |K| ==> K[j] < K[l]
    requires i < |K|
    ensures K[i] <= i
    decreases |K| - i
  {
    if i + 1 < |K| {
      StrictlyIncreasingUpperBound(K, i + 1);
    }
  }

  lemma StrictlyIncreasingIsIdentity(K: seq<int>)
    requires forall j :: 0 <= j < |K| ==> 0 <= K[j] < |K|
    requires forall j, l :: 0 <= j < l < |K| ==> K[j] < K[l]
    ensures forall i :: 0 <= i < |K| ==> K[i] == i
  {
    forall i | 0 <= i < |K| ensures K[i] == i {
      StrictlyIncreasingLowerBound(K, i);
      StrictlyIncreasingUpperBound(K, i);
    }
  }

  /** A duplicate-free rearrangement of `order` whose ranks never decrease is `order` itself. */
  lemma RanksLineUp<Id>(s: seq<Id>, order: seq<Id>)
    requires Distinct(s)
    requires multiset(s) == multiset(order)
    requires forall i, j :: 0 <= i < j < |s| ==> Rank(order, s[i]) <= Rank(order, s[j])
    ensures s == order
  {
    assert |s| == |multiset(s)| == |multiset(order)| == |order|;
    var K := Project(s, x => Rank(order, x));
    forall i | 0 <= i < |s| ensures 0 <= K[i] < |s| && order[K[i]] == s[i] {
      assert s[i] in multiset(order);
    }
    forall i, j | 0 <= i < j < |s| ensures K[i] < K[j] {
      assert K[i] <= K[j];
      assert order[K[i]] == s[i] != s[j] == order[K[j]];
    }
    StrictlyIncreasingIsIdentity(K);
    assert forall i :: 0 <= i < |s| ==> s[i] == order[K[i]] == order[i];
  }

  /** Sorting elements by the rank of their ids in `order`, when those ids are
      exactly a rearrangement of a duplicate-free `order`, lines the ids up
      with `order`. */
  lemma SortByRankFollowsOrder<T, Id>(xs: seq<T>, idOf: T -> Id, order: seq<Id>)
    requires Distinct(order)
    requires multiset(Project(xs, idOf)) == multiset(order)
    ensures Project(SortBy(xs, RankKey(order, idOf)), idOf) == order
  {
    var key := RankKey(order, idOf);
    var r := SortBy(xs, key);
    var s := Project(r, idOf);
    ProjectPermutation(r, xs, idOf);
    DistinctPermutation(order, s);
    forall i, j | 0 <= i < j < |s| ensures Rank(order, s[i]) <= Rank(order, s[j]) {
      assert key(r[i]) <= key(r[j]);
    }
    RanksLineUp(s, order);
  }
}
