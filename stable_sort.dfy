/** A stable sort by a Java-style comparator (negative, zero or positive),
    the ordering that Collections.sort gives a list when the comparator keeps
    the Comparator contract (sortedness and stability are proved from the
    total preorder that contract implies). It is written as an insertion sort: the order it
    produces is the one any stable sort produces for the same comparator. */
module StableSort {

  /** A consequence of the Comparator contract (which also asks for sign
      antisymmetry), read as "a may precede b" == cmp(a, b) <= 0:
      every two elements are comparable and the relation is transitive. */
  ghost predicate TotalPreorder<T(!new)>(cmp: (T, T) -> int) {
    && (forall a, b :: cmp(a, b) <= 0 || cmp(b, a) <= 0)
    && (forall a, b, c :: cmp(a, b) <= 0 && cmp(b, c) <= 0 ==> cmp(a, c) <= 0)
  }

  ghost predicate SortedBy<T>(s: seq<T>, cmp: (T, T) -> int) {
    forall i, j :: 0 <= i < j < |s| ==> cmp(s[i], s[j]) <= 0
  }

  /** The comparator ranks `a` and `b` the same. */
  predicate Equivalent<T>(cmp: (T, T) -> int, a: T, b: T) {
    cmp(a, b) <= 0 && cmp(b, a) <= 0
  }

  /** Places `x` after every element of `t` that does not rank above it. */
  function Insert<T>(t: seq<T>, x: T, cmp: (T, T) -> int): (r: seq<T>)
    ensures multiset(r) == multiset(t) + multiset{x}
  {
    if |t| == 0 || cmp(t[|t| - 1], x) <= 0 then t + [x]
    else
      assert t == t[..|t| - 1] + [t[|t| - 1]];
      Insert(t[..|t| - 1], x, cmp) + [t[|t| - 1]]
  }

  /** The list sorted by `cmp`; elements the comparator ranks the same keep
      their order. */
  function Sort<T>(s: seq<T>, cmp: (T, T) -> int): (r: seq<T>)
    ensures multiset(r) == multiset(s)
  {
    if |s| == 0 then []
    else
      assert s == s[..|s| - 1] + [s[|s| - 1]];
      Insert(Sort(s[..|s| - 1], cmp), s[|s| - 1], cmp)
  }

  /** The elements of `s` that rank the same as `y`, in their order in `s`. */
  function Peers<T>(s: seq<T>, y: T, cmp: (T, T) -> int): seq<T> {
    if |s| == 0 then []
    else Peers(s[..|s| - 1], y, cmp) + (if Equivalent(cmp, s[|s| - 1], y) then [s[|s| - 1]] else [])
  }

  /** Appending an element no smaller than any other keeps a list sorted. */
  lemma SnocSorted<T>(s: seq<T>, y: T, cmp: (T, T) -> int)
    requires SortedBy(s, cmp)
    requires forall i :: 0 <= i < |s| ==> cmp(s[i], y) <= 0
    ensures SortedBy(s + [y], cmp)
  {
    var r := s + [y];
    forall i, j | 0 <= i < j < |r|
      ensures cmp(r[i], r[j]) <= 0
    {
      if j == |s| {
        assert r[i] == s[i];
      } else {
        assert r[i] == s[i] && r[j] == s[j];
      }
    }
  }

  lemma {:induction false} InsertSorted<T(!new)>(t: seq<T>, x: T, cmp: (T, T) -> int)
    requires TotalPreorder(cmp)
    requires SortedBy(t, cmp)
    ensures SortedBy(Insert(t, x, cmp), cmp)
  {
    var n := |t|;
    if n == 0 || cmp(t[n - 1], x) <= 0 {
      forall i | 0 <= i < n
        ensures cmp(t[i], x) <= 0
      {
        if i < n - 1 {
          assert cmp(t[i], t[n - 1]) <= 0;
        }
      }
      SnocSorted(t, x, cmp);
    } else {
      var front := t[..n - 1];
      var last := t[n - 1];
      InsertSorted(front, x, cmp);
      var mid := Insert(front, x, cmp);
      assert cmp(x, last) <= 0;
      forall i | 0 <= i < |mid|
        ensures cmp(mid[i], last) <= 0
      {
        assert mid[i] in multiset(mid);
        if mid[i] != x {
          assert mid[i] in multiset(front);
          var k :| 0 <= k < |front| && front[k] == mid[i];
          assert cmp(t[k], t[n - 1]) <= 0;
        }
      }
      SnocSorted(mid, last, cmp);
    }
  }

  /** Sort returns its input in ascending order. */
  lemma {:induction false} SortSorted<T(!new)>(s: seq<T>, cmp: (T, T) -> int)
    requires TotalPreorder(cmp)
    ensures SortedBy(Sort(s, cmp), cmp)
  {
    if |s| > 0 {
      SortSorted(s[..|s| - 1], cmp);
      InsertSorted(Sort(s[..|s| - 1], cmp), s[|s| - 1], cmp);
    }
  }

  lemma {:induction false} InsertPeers<T(!new)>(t: seq<T>, x: T, y: T, cmp: (T, T) -> int)
    requires TotalPreorder(cmp)
    ensures Peers(Insert(t, x, cmp), y, cmp)
         == Peers(t, y, cmp) + (if Equivalent(cmp, x, y) then [x] else [])
  {
    var n := |t|;
    if n == 0 || cmp(t[n - 1], x) <= 0 {
      assert (t + [x])[..n] == t;
    } else {
      var front := t[..n - 1];
      var last := t[n - 1];
      var mid := Insert(front, x, cmp);
      InsertPeers(front, x, y, cmp);
      assert (mid + [last])[..|mid|] == mid;
      // x and last rank differently, so they cannot both be peers of y
      assert !(Equivalent(cmp, x, y) && Equivalent(cmp, last, y));
    }
  }

  /** Stability: sorting keeps the relative order of every group of
      elements that the comparator ranks the same. */
  lemma {:induction false} SortStable<T(!new)>(s: seq<T>, y: T, cmp: (T, T) -> int)
    requires TotalPreorder(cmp)
    ensures Peers(Sort(s, cmp), y, cmp) == Peers(s, y, cmp)
  {
    if |s| > 0 {
      SortStable(s[..|s| - 1], y, cmp);
      InsertPeers(Sort(s[..|s| - 1], cmp), s[|s| - 1], y, cmp);
    }
  }
}
