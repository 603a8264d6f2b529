/** Inserting, removing and moving one element of a sequence. */
module Sequences {

  ghost predicate Distinct<T>(s: seq<T>) {
    forall i, j :: 0 <= i < j < |s| ==> s[i] != s[j]
  }

  function RemoveAt<T>(s: seq<T>, k: nat): (r: seq<T>)
    requires k < |s|
    ensures |r| == |s| - 1
    ensures forall i :: 0 <= i < |r| ==> r[i] == s[if i < k then i else i + 1]
  {
    seq(|s| - 1, i requires 0 <= i < |s| - 1 => s[if i < k then i else i + 1])
  }

  function InsertAt<T>(s: seq<T>, p: nat, x: T): (r: seq<T>)
    requires p <= |s|
    ensures |r| == |s| + 1
    ensures forall i {:trigger r[i]} :: 0 <= i < |r| ==> r[i] == if i < p then s[i] else if i == p then x else s[i - 1]
  {
    seq(|s| + 1, i requires 0 <= i < |s| + 1 => if i < p then s[i] else if i == p then x else s[i - 1])
  }

  /** Element k taken out and put back in front of the element that was at p. */
  function MoveTo<T>(s: seq<T>, k: nat, p: nat): seq<T>
    requires k < |s| && p <= |s|
  {
    InsertAt(RemoveAt(s, k), if k < p then p - 1 else p, s[k])
  }

  /** In front of itself or of its successor an element already is. */
  lemma MoveToSelf<T>(s: seq<T>, k: nat, p: nat)
    requires k < |s| && (p == k || p == k + 1)
    ensures MoveTo(s, k, p) == s
  {
  }

  lemma MoveToMembers<T>(s: seq<T>, k: nat, p: nat)
    requires k < |s| && p <= |s|
    ensures forall x :: x in MoveTo(s, k, p) <==> x in s
  {
    MoveToElements(s, k, p);
    SameElementsDistinct(s, MoveTo(s, k, p));
  }

  lemma InsertAtElements<T>(s: seq<T>, p: nat, x: T)
    requires p <= |s|
    ensures multiset(InsertAt(s, p, x)) == multiset(s) + multiset{x}
  {
    assert s == s[..p] + s[p..];
    assert InsertAt(s, p, x) == s[..p] + [x] + s[p..];
  }

  lemma InsertAtMember<T>(s: seq<T>, p: nat, x: T, y: T)
    requires p <= |s|
    ensures y in InsertAt(s, p, x) <==> y == x || y in s
  {
    InsertAtElements(s, p, x);
    assert y in InsertAt(s, p, x) <==> y in multiset(InsertAt(s, p, x));
  }

  lemma InsertAtMembers<T>(s: seq<T>, p: nat, x: T)
    requires p <= |s|
    ensures forall y :: y in InsertAt(s, p, x) <==> y == x || y in s
  {
    forall y
      ensures y in InsertAt(s, p, x) <==> y == x || y in s
    {
      InsertAtMember(s, p, x, y);
    }
  }

  lemma RemoveAtMembers<T>(s: seq<T>, k: nat)
    requires k < |s| && Distinct(s)
    ensures forall y :: y in RemoveAt(s, k) <==> y in s && y != s[k]
  {
    forall y
      ensures y in RemoveAt(s, k) <==> y in s && y != s[k]
    {
      RemoveAtMember(s, k, y);
    }
  }

  lemma InsertAtDistinct<T>(s: seq<T>, p: nat, x: T)
    requires p <= |s| && Distinct(s) && x !in s
    ensures Distinct(InsertAt(s, p, x))
  {
  }

  lemma RemoveAtDistinct<T>(s: seq<T>, k: nat)
    requires k < |s| && Distinct(s)
    ensures Distinct(RemoveAt(s, k)) && s[k] !in RemoveAt(s, k)
  {
  }

  lemma RemoveAtElements<T>(s: seq<T>, k: nat)
    requires k < |s|
    ensures multiset(RemoveAt(s, k)) == multiset(s) - multiset{s[k]}
    ensures s[k] in multiset(s)
  {
    assert s == s[..k] + [s[k]] + s[k + 1..];
    assert RemoveAt(s, k) == s[..k] + s[k + 1..];
  }

  lemma RemoveAtMember<T>(s: seq<T>, k: nat, y: T)
    requires k < |s|
    ensures y in RemoveAt(s, k) ==> y in s
    ensures Distinct(s) ==> (y in RemoveAt(s, k) <==> y in s && y != s[k])
  {
    var r := RemoveAt(s, k);
    if y in r {
      var i :| 0 <= i < |r| && r[i] == y;
      assert s[if i < k then i else i + 1] == y;
    }
    if y in s && y != s[k] {
      var i :| 0 <= i < |s| && s[i] == y;
      assert r[if i < k then i else i - 1] == y;
    }
  }

  lemma MoveToElements<T>(s: seq<T>, k: nat, p: nat)
    requires k < |s| && p <= |s|
    ensures multiset(MoveTo(s, k, p)) == multiset(s)
  {
    RemoveAtElements(s, k);
    InsertAtElements(RemoveAt(s, k), if k < p then p - 1 else p, s[k]);
  }

  /** Distinctness is a matter of multiplicities, so permuting a sequence keeps it. */
  lemma {:induction false} DistinctIffSingle<T>(s: seq<T>)
    ensures Distinct(s) <==> forall x :: x in multiset(s) ==> multiset(s)[x] == 1
  {
    if s != [] {
      var last := |s| - 1;
      var r := s[..last];
      assert s == r + [s[last]];
      assert multiset(s) == multiset(r) + multiset{s[last]};
      DistinctIffSingle(r);
      assert s[last] in r <==> s[last] in multiset(r);
      if Distinct(s) {
        assert Distinct(r);
      } else if Distinct(r) {
        assert s[last] in r;
        assert multiset(s)[s[last]] > 1;
      } else {
        var x :| x in multiset(r) && multiset(r)[x] != 1;
        assert x in multiset(s) && multiset(s)[x] > 1;
      }
    }
  }

  lemma SameElementsDistinct<T>(s: seq<T>, t: seq<T>)
    requires multiset(s) == multiset(t)
    ensures Distinct(s) <==> Distinct(t)
    ensures forall x :: x in s <==> x in t
  {
    DistinctIffSingle(s);
    DistinctIffSingle(t);
    forall x
      ensures x in s <==> x in t
    {
      assert x in s <==> x in multiset(s);
      assert x in t <==> x in multiset(t);
    }
  }

  /** The numbers below n. */
  function UpTo(n: nat): (s: set<nat>)
    ensures |s| == n && forall k: nat :: k in s <==> k < n
  {
    if n == 0 then {} else UpTo(n - 1) + {n - 1}
  }
}
