/** Facts about lists that several modules need. */
module Sequences {

  ghost predicate Increasing(a: seq<int>) {
    forall i, j :: 0 <= i < j < |a| ==> a[i] < a[j]
  }

  lemma WithoutLast(a: seq<int>)
    requires Increasing(a) && a != []
    ensures Increasing(a[..|a| - 1])
    ensures forall v :: v in a[..|a| - 1] <==> v in a && v != a[|a| - 1]
  {
    assert a == a[..|a| - 1] + [a[|a| - 1]];
  }

  lemma SameLast(a: seq<int>, b: seq<int>)
    requires Increasing(a) && Increasing(b)
    requires forall v :: v in a <==> v in b
    ensures a == [] <==> b == []
    ensures a != [] ==> a[|a| - 1] == b[|b| - 1]
  {
    assert a != [] ==> a[|a| - 1] in a && a[|a| - 1] in b;
    assert b != [] ==> b[|b| - 1] in b && b[|b| - 1] in a;
  }

  /** Increasing lists of the same numbers are equal. */
  lemma {:induction false} IncreasingUnique(a: seq<int>, b: seq<int>)
    requires Increasing(a) && Increasing(b)
    requires forall v :: v in a <==> v in b
    ensures a == b
  {
    SameLast(a, b);
    if a != [] {
      hide Increasing;
      var last, front, front' := a[|a| - 1], a[..|a| - 1], b[..|b| - 1];
      assert a == front + [last] && b == front' + [last];
      WithoutLast(a);
      WithoutLast(b);
      forall v
        ensures v in front <==> v in front'
      {
        assert v in front <==> v in a && v != last;
        assert v in front' <==> v in b && v != last;
      }
      IncreasingUnique(front, front');
    }
  }

  ghost predicate NoDuplicates<T>(s: seq<T>) {
    forall i, j :: 0 <= i < j < |s| ==> s[i] != s[j]
  }

  function Elements<T(==)>(s: seq<T>): set<T> {
    set x | x in s
  }

  /** A list without duplicates has as many elements as positions. */
  lemma {:induction false} ElementsCount<T>(s: seq<T>)
    ensures |Elements(s)| <= |s|
    ensures NoDuplicates(s) ==> |Elements(s)| == |s|
  {
    if s == [] {
      assert Elements(s) == {};
    } else {
      var n := |s| - 1;
      ElementsCount(s[..n]);
      assert s == s[..n] + [s[n]];
      assert Elements(s) == Elements(s[..n]) + {s[n]};
      assert NoDuplicates(s) ==> s[n] !in s[..n];
    }
  }

  /** Counting on from p around n places. */
  lemma WrapAround(p: nat, i: nat, n: nat)
    requires p < n && i < n
    ensures (p + i) % n == if p + i < n then p + i else p + i - n
  {
  }

  /** `count` places in a row, around the end if need be. */
  function Around<T>(s: seq<T>, p: nat, n: nat, count: nat): (r: seq<T>)
    requires 0 < n <= |s|
    ensures |r| == count
    ensures forall i :: 0 <= i < count ==> r[i] == s[(p + i) % n]
  {
    seq(count, i requires 0 <= i < count => s[(p + i) % n])
  }

  /** No place is visited twice before all have been. */
  lemma AroundNoDuplicates<T>(s: seq<T>, p: nat, n: nat, count: nat)
    requires 0 < n <= |s| && p < n && count <= n && NoDuplicates(s)
    ensures NoDuplicates(Around(s, p, n, count))
    ensures count > 0 ==> Around(s, p, n, count)[0] == s[p]
  {
    var r := Around(s, p, n, count);
    forall i, j | 0 <= i < j < count
      ensures r[i] != r[j]
    {
      WrapAround(p, i, n);
      WrapAround(p, j, n);
    }
    WrapAround(p, 0, n);
  }

  lemma SameMap<K, V>(a: map<K, V>, b: map<K, V>)
    requires a.Keys == b.Keys && forall k :: k in a.Keys ==> a[k] == b[k]
    ensures a == b
  {
  }

  lemma {:induction false} CountsAtMostOnce<T>(s: seq<T>, x: T)
    ensures NoDuplicates(s) ==> multiset(s)[x] <= 1
    ensures !NoDuplicates(s) ==> exists y :: multiset(s)[y] >= 2
  {
    if s != [] {
      var n := |s| - 1;
      assert s == s[..n] + [s[n]];
      CountsAtMostOnce(s[..n], x);
      if NoDuplicates(s) {
        assert s[n] !in s[..n];
      } else if NoDuplicates(s[..n]) {
        assert s[n] in s[..n];
        assert multiset(s)[s[n]] >= 2;
      } else {
        var y :| multiset(s[..n])[y] >= 2;
        assert multiset(s)[y] >= 2;
      }
    }
  }

  lemma PermutationNoDuplicates<T>(a: seq<T>, b: seq<T>)
    requires NoDuplicates(a) && multiset(a) == multiset(b)
    ensures NoDuplicates(b)
  {
    if !NoDuplicates(b) && |b| > 0 {
      CountsAtMostOnce(b, b[0]);
      var y :| multiset(b)[y] >= 2;
      CountsAtMostOnce(a, y);
    }
  }
}
