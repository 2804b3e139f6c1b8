/** Revisions and their order (pkg/index/revision.go). */
module Revisions {

  /** A version of a key: a main number, a sub number and the stores that hold the value. */
  datatype Revision = Revision(main: int, sub: int, nodes: seq<string>)

  /** The zero value of a revision, which a fresh key index carries as `modified`. */
  const ZERO := Revision(0, 0, [])

  /** Main numbers decide, then sub numbers; the node list takes no part. */
  predicate GreaterThan(a: Revision, b: Revision) {
    a.main > b.main || (a.main == b.main && a.sub > b.sub)
  }

  /** Neither revision is newer than the other. */
  predicate SameAge(a: Revision, b: Revision) {
    a.main == b.main && a.sub == b.sub
  }

  /** Oldest first; equal ages may repeat. */
  ghost predicate Sorted(revs: seq<Revision>) {
    forall i, j :: 0 <= i < j < |revs| ==> !GreaterThan(revs[i], revs[j])
  }

  /** None of the revisions is newer than `bound`. */
  ghost predicate NoneNewer(revs: seq<Revision>, bound: Revision) {
    forall r :: r in revs ==> !GreaterThan(r, bound)
  }

  /** Where a revision belongs: right after the last one that is strictly older. */
  function Position(revs: seq<Revision>, rev: Revision): (p: nat)
    ensures p <= |revs|
    ensures p > 0 ==> GreaterThan(rev, revs[p - 1])
    ensures forall i :: p <= i < |revs| ==> !GreaterThan(rev, revs[i])
  {
    if revs == [] then 0
    else if GreaterThan(rev, revs[|revs| - 1]) then |revs|
    else Position(revs[..|revs| - 1], rev)
  }

  function Insert(revs: seq<Revision>, rev: Revision): (r: seq<Revision>)
    ensures |r| == |revs| + 1
  {
    var p := Position(revs, rev);
    revs[..p] + [rev] + revs[p..]
  }

  lemma InsertContents(revs: seq<Revision>, rev: Revision)
    ensures multiset(Insert(revs, rev)) == multiset(revs) + multiset{rev}
    ensures forall r :: r in Insert(revs, rev) <==> r in revs || r == rev
  {
    var p := Position(revs, rev);
    assert revs == revs[..p] + revs[p..];
  }

  /** In a sorted list everything before the insertion point is strictly older. */
  lemma OlderBefore(revs: seq<Revision>, rev: Revision)
    requires Sorted(revs)
    ensures forall i :: 0 <= i < Position(revs, rev) ==> GreaterThan(rev, revs[i])
  {
  }

  lemma InsertKeepsSorted(revs: seq<Revision>, rev: Revision)
    requires Sorted(revs)
    ensures Sorted(Insert(revs, rev))
  {
    OlderBefore(revs, rev);
  }

  /** No two different revisions of equal age. */
  ghost predicate AgesIdentify(revs: seq<Revision>) {
    forall i, j :: 0 <= i < j < |revs| && SameAge(revs[i], revs[j]) ==> revs[i] == revs[j]
  }

  /** A sorted list is determined by its contents, provided equal ages mean equal revisions. */
  lemma {:induction false} SortedUnique(a: seq<Revision>, b: seq<Revision>)
    requires Sorted(a) && Sorted(b) && multiset(a) == multiset(b)
    requires AgesIdentify(a)
    ensures a == b
  {
    assert |a| == |b| by {
      assert |multiset(a)| == |a| && |multiset(b)| == |b|;
    }
    if a != [] {
      SameNewest(a, b);
      WithoutNewest(a);
      WithoutNewest(b);
      SortedUnique(a[..|a| - 1], b[..|b| - 1]);
    }
  }

  lemma WithoutNewest(a: seq<Revision>)
    requires Sorted(a) && a != []
    ensures Sorted(a[..|a| - 1])
    ensures AgesIdentify(a) ==> AgesIdentify(a[..|a| - 1])
    ensures multiset(a[..|a| - 1]) == multiset(a) - multiset{a[|a| - 1]}
    ensures a == a[..|a| - 1] + [a[|a| - 1]]
  {
    assert a == a[..|a| - 1] + [a[|a| - 1]];
  }

  lemma SameNewest(a: seq<Revision>, b: seq<Revision>)
    requires Sorted(a) && Sorted(b) && multiset(a) == multiset(b)
    requires |a| == |b| > 0
    requires AgesIdentify(a)
    ensures a[|a| - 1] == b[|b| - 1]
  {
    var n := |a| - 1;
    assert a[n] in multiset(b) && b[n] in multiset(a);
    var i :| 0 <= i < |b| && b[i] == a[n];
    var j :| 0 <= j < |a| && a[j] == b[n];
    assert SameAge(a[n], a[j]);
  }
}
