/** The natural ordering of Java strings (String.compareTo), which is what
    orders the keys of a TreeMap<String, ...>: characters are compared one by
    one and a proper prefix comes first. */
module StringOrder {

  /** True iff `a` sorts strictly before `b`. */
  predicate Less(a: string, b: string)
    decreases |a|
  {
    if |b| == 0 then false
    else if |a| == 0 then true
    else if a[0] != b[0] then a[0] < b[0]
    else Less(a[1..], b[1..])
  }

  lemma {:induction false} LessIrreflexive(a: string)
    ensures !Less(a, a)
  {
    if |a| > 0 {
      LessIrreflexive(a[1..]);
    }
  }

  lemma {:induction false} LessAsymmetric(a: string, b: string)
    requires Less(a, b)
    ensures !Less(b, a)
  {
    if |a| > 0 && a[0] == b[0] {
      LessAsymmetric(a[1..], b[1..]);
    }
  }

  lemma {:induction false} LessTransitive(a: string, b: string, c: string)
    requires Less(a, b) && Less(b, c)
    ensures Less(a, c)
  {
    if |a| > 0 && a[0] == b[0] && b[0] == c[0] {
      LessTransitive(a[1..], b[1..], c[1..]);
    }
  }

  /** Any two different strings are ordered one way or the other. */
  lemma {:induction false} LessTotal(a: string, b: string)
    requires a != b
    ensures Less(a, b) || Less(b, a)
  {
    if |a| > 0 && |b| > 0 && a[0] == b[0] {
      assert a == [a[0]] + a[1..] && b == [b[0]] + b[1..];
      LessTotal(a[1..], b[1..]);
    }
  }

  /** Keys listed in strictly ascending order (hence without repetition). */
  ghost predicate StrictlyAscending(keys: seq<string>) {
    forall i, j :: 0 <= i < j < |keys| ==> Less(keys[i], keys[j])
  }

  ghost predicate IsLeast(m: string, s: set<string>) {
    m in s && forall x :: x in s && x != m ==> Less(m, x)
  }

  lemma {:induction false} LeastExists(s: set<string>)
    requires s != {}
    ensures exists m :: IsLeast(m, s)
    decreases s
  {
    var x :| x in s;
    if s == {x} {
      assert IsLeast(x, s);
    } else {
      LeastExists(s - {x});
      var m :| IsLeast(m, s - {x});
      if Less(m, x) {
        assert IsLeast(m, s);
      } else {
        LessTotal(m, x);
        forall y | y in s && y != x
          ensures Less(x, y)
        {
          if y != m {
            LessTransitive(x, m, y);
          }
        }
        assert IsLeast(x, s);
      }
    }
  }

  /** The smallest key of a non-empty finite set. */
  ghost function Least(s: set<string>): (m: string)
    requires s != {}
    ensures IsLeast(m, s)
  {
    LeastExists(s);
    var m :| IsLeast(m, s);
    m
  }

  /** The keys of `s` in ascending order: the order in which a TreeMap
      hands out the entries it holds for the keys of `s`. */
  ghost function Ascending(s: set<string>): (keys: seq<string>)
    ensures StrictlyAscending(keys)
    ensures forall x :: x in keys <==> x in s
    ensures |keys| == |s|
    decreases s
  {
    if s == {} then []
    else
      var m := Least(s);
      var rest := Ascending(s - {m});
      assert forall j :: 0 <= j < |rest| ==> Less(m, rest[j]);
      [m] + rest
  }

  lemma AscendingDistinct(keys: seq<string>, i: int, j: int)
    requires StrictlyAscending(keys)
    requires 0 <= i < j < |keys|
    ensures keys[i] != keys[j]
  {
    if keys[i] == keys[j] {
      LessIrreflexive(keys[i]);
    }
  }

  /** A strictly ascending listing of a set of keys is unique: there is
      exactly one order in which a sorted map can hand out its keys. */
  lemma {:induction false} AscendingUnique(a: seq<string>, b: seq<string>)
    requires StrictlyAscending(a) && StrictlyAscending(b)
    requires forall x :: x in a <==> x in b
    ensures a == b
  {
    assert a != [] ==> a[0] in b;
    assert b != [] ==> b[0] in a;
    if a != [] && b != [] {
      if a[0] != b[0] {
        assert a[0] in b;
        var j :| 0 <= j < |b| && b[j] == a[0];
        assert b[0] in a;
        var i :| 0 <= i < |a| && a[i] == b[0];
        assert Less(b[0], a[0]) && Less(a[0], b[0]);
        LessAsymmetric(a[0], b[0]);
      }
      forall x
        ensures x in a[1..] <==> x in b[1..]
      {
        if x in a[1..] {
          var i :| 1 <= i < |a| && a[i] == x;
          AscendingDistinct(a, 0, i);
          assert x in b;
          var j :| 0 <= j < |b| && b[j] == x;
          assert j != 0;
        }
        if x in b[1..] {
          var j :| 1 <= j < |b| && b[j] == x;
          AscendingDistinct(b, 0, j);
          assert x in a;
          var i :| 0 <= i < |a| && a[i] == x;
          assert i != 0;
        }
      }
      AscendingUnique(a[1..], b[1..]);
      assert a == [a[0]] + a[1..] && b == [b[0]] + b[1..];
    }
  }
}
