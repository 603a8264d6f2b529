/**
 The timer list of TinyWebServer/src/util/timermanager.h as a value: a sequence of
 (key, deadline) entries, front first. The functions below say where each operation
 puts an entry; the lemmas relate them to the plain table from keys to deadlines.
 */
module TimerQueue {
  import opened Sequences

  datatype Entry<K> = Entry(key: K, deadline: int)

  ghost predicate Sorted<K>(q: seq<Entry<K>>) {
    forall i, j :: 0 <= i < j < |q| ==> q[i].deadline <= q[j].deadline
  }

  function KeysOf<K>(q: seq<Entry<K>>): (keys: seq<K>)
    ensures |keys| == |q|
    ensures forall i :: 0 <= i < |q| ==> keys[i] == q[i].key
  {
    seq(|q|, i requires 0 <= i < |q| => q[i].key)
  }

  /** Where the backward search stops: right behind the last entry that is due before `d`. */
  function Rank<K>(q: seq<Entry<K>>, d: int): (p: nat)
    ensures p <= |q|
    ensures p > 0 ==> q[p - 1].deadline < d
    ensures forall j :: p <= j < |q| ==> d <= q[j].deadline
  {
    if q == [] then 0
    else if q[|q| - 1].deadline < d then |q|
    else Rank(q[..|q| - 1], d)
  }

  lemma RankUnique<K>(q: seq<Entry<K>>, d: int, p: nat)
    requires p <= |q|
    requires p > 0 ==> q[p - 1].deadline < d
    requires forall j :: p <= j < |q| ==> d <= q[j].deadline
    ensures p == Rank(q, d)
  {
    var r := Rank(q, d);
    assert r > 0 ==> q[r - 1].deadline < d;
    assert p > 0 ==> q[p - 1].deadline < d;
  }

  /** `start`: the new entry goes behind every entry that is due earlier. */
  function Started<K>(q: seq<Entry<K>>, e: Entry<K>): seq<Entry<K>> {
    InsertAt(q, Rank(q, e.deadline), e)
  }

  /** `restart`: the deadline is overwritten first, and only then a place is searched. */
  function Restarted<K>(q: seq<Entry<K>>, k: nat, d: int): seq<Entry<K>>
    requires k < |q|
  {
    Reposition(q[k := Entry(q[k].key, d)], k, |q|)
  }

  /** The search from position i: behind the first entry found that is due before the one at
      k; when no entry at all is due earlier, the one at k stays where it was. */
  function Reposition<K>(u: seq<Entry<K>>, k: nat, i: nat): seq<Entry<K>>
    requires k < |u| && i <= |u|
  {
    if i == 0 then u
    else if u[i - 1].deadline < u[k].deadline then MoveTo(u, k, i)
    else Reposition(u, k, i - 1)
  }

  /** Both in terms of the rank that the new deadline has. */
  lemma RestartedAt<K>(q: seq<Entry<K>>, k: nat, d: int)
    requires k < |q|
    ensures var u := q[k := Entry(q[k].key, d)];
            var p := Rank(u, d);
            Restarted(q, k, d) == if p == 0 then u else MoveTo(u, k, p)
  {
    var u := q[k := Entry(q[k].key, d)];
    RepositionAt(u, k, |u|);
  }

  lemma {:induction false} RepositionAt<K>(u: seq<Entry<K>>, k: nat, i: nat)
    requires k < |u| && Rank(u, u[k].deadline) <= i <= |u|
    ensures var p := Rank(u, u[k].deadline);
            Reposition(u, k, i) == if p == 0 then u else MoveTo(u, k, p)
  {
    if i > Rank(u, u[k].deadline) {
      RepositionAt(u, k, i - 1);
    }
  }

  /** `checkout`: how many entries are popped off the front. */
  function DuePrefix<K>(q: seq<Entry<K>>, now: int): (n: nat)
    ensures n <= |q|
    ensures forall i :: 0 <= i < n ==> q[i].deadline <= now
    ensures n < |q| ==> now < q[n].deadline
  {
    if q == [] || now < q[0].deadline then 0 else 1 + DuePrefix(q[1..], now)
  }

  lemma DuePrefixUnique<K>(q: seq<Entry<K>>, now: int, n: nat)
    requires n <= |q|
    requires forall i :: 0 <= i < n ==> q[i].deadline <= now
    requires n < |q| ==> now < q[n].deadline
    ensures n == DuePrefix(q, now)
  {
    var m := DuePrefix(q, now);
    assert m < |q| ==> now < q[m].deadline;
    assert n < |q| ==> now < q[n].deadline;
  }

  /** The position of a key, or |q| when it is absent. */
  function IndexOf<K(==)>(q: seq<Entry<K>>, key: K): (k: nat)
    ensures k <= |q|
    ensures k < |q| ==> q[k].key == key
    ensures forall i :: 0 <= i < k ==> q[i].key != key
  {
    IndexFrom(q, key, 0)
  }

  function IndexFrom<K(==)>(q: seq<Entry<K>>, key: K, i: nat): (k: nat)
    requires i <= |q|
    ensures i <= k <= |q|
    ensures k < |q| ==> q[k].key == key
    ensures forall j :: i <= j < k ==> q[j].key != key
    decreases |q| - i
  {
    if i == |q| || q[i].key == key then i else IndexFrom(q, key, i + 1)
  }

  // ---------- order ----------

  lemma StartedSorted<K>(q: seq<Entry<K>>, e: Entry<K>)
    requires Sorted(q)
    ensures Sorted(Started(q, e))
  {
  }

  /** `restart` keeps the order exactly when the entry was first, or its predecessor is not
      due later than the new deadline, or the front entry is due strictly before it. */
  ghost predicate RestartKeepsOrder<K>(q: seq<Entry<K>>, k: nat, d: int)
    requires k < |q|
  {
    k == 0 || q[k - 1].deadline <= d || q[0].deadline < d
  }

  /** Moving the updated entry to its rank among entries that are otherwise in order. */
  lemma MoveToRankSorted<K>(u: seq<Entry<K>>, k: nat, p: nat)
    requires k < |u| && 0 < p <= |u| && u[p - 1].deadline < u[k].deadline
    requires forall j :: p <= j < |u| ==> u[k].deadline <= u[j].deadline
    requires Sorted(RemoveAt(u, k))
    ensures Sorted(MoveTo(u, k, p))
  {
    var r := RemoveAt(u, k);
    var at := if k < p then p - 1 else p;
    assert p - 1 != k;
    if at > 0 {
      assert r[at - 1] == u[p - 1];
    }
    if at < |r| {
      assert r[at] == u[if at < k then at else at + 1];
    }
  }

  lemma RestartedSortedIff<K>(q: seq<Entry<K>>, k: nat, d: int)
    requires Sorted(q) && k < |q|
    ensures Sorted(Restarted(q, k, d)) <==> RestartKeepsOrder(q, k, d)
  {
    RestartedAt(q, k, d);
    var u := q[k := Entry(q[k].key, d)];
    if Rank(u, d) == 0 {
      UnmovedSortedIff(q, k, d);
    } else {
      MovedSorted(q, k, d);
    }
  }

  /** Nothing is due before the new deadline, so the timer stays where it is. */
  lemma UnmovedSortedIff<K>(q: seq<Entry<K>>, k: nat, d: int)
    requires Sorted(q) && k < |q| && Rank(q[k := Entry(q[k].key, d)], d) == 0
    ensures Sorted(q[k := Entry(q[k].key, d)]) <==> RestartKeepsOrder(q, k, d)
  {
    var u := q[k := Entry(q[k].key, d)];
    assert u[0].deadline >= d;
    if k > 0 {
      assert u[k - 1].deadline == q[k - 1].deadline;
      assert u[k].deadline == d;
    }
    assert forall i, j :: 0 <= i < j < |u| && i != k && j != k ==> u[i].deadline <= u[j].deadline;
    assert forall i :: 0 <= i < k - 1 ==> u[i].deadline <= u[k - 1].deadline;
  }

  lemma MovedSorted<K>(q: seq<Entry<K>>, k: nat, d: int)
    requires Sorted(q) && k < |q| && Rank(q[k := Entry(q[k].key, d)], d) > 0
    ensures var u := q[k := Entry(q[k].key, d)]; Sorted(MoveTo(u, k, Rank(u, d)))
    ensures RestartKeepsOrder(q, k, d)
  {
    var u := q[k := Entry(q[k].key, d)];
    var p := Rank(u, d);
    assert p - 1 != k;
    assert u[p - 1] == q[p - 1];
    MoveToRankSorted(u, k, p);
  }

  /** A clock that stands earlier than before can break the order: the second entry becomes
      due before the first, but since nothing is due before it, it is not moved. */
  lemma RestartCanBreakOrder()
    ensures var q := [Entry(1, 5), Entry(2, 9)];
            Sorted(q) && !RestartKeepsOrder(q, 1, 4) && !Sorted(Restarted(q, 1, 4))
  {
    var q := [Entry(1, 5), Entry(2, 9)];
    RestartedSortedIff(q, 1, 4);
  }

  /** With a clock that does not run back and an unchanged timeout the new deadline is at
      least the old one, and then the order is always kept. */
  lemma RestartedSorted<K>(q: seq<Entry<K>>, k: nat, d: int)
    requires Sorted(q) && k < |q| && q[k].deadline <= d
    ensures Sorted(Restarted(q, k, d))
  {
    RestartedSortedIff(q, k, d);
  }

  // ---------- agreement with the table ----------

  /** The plain table from keys to deadlines. */
  ghost function Table<K>(q: seq<Entry<K>>): map<K, int> {
    map key | key in KeysOf(q) :: q[IndexOf(q, key)].deadline
  }

  lemma TableEntries<K>(q: seq<Entry<K>>, e: Entry<K>)
    requires Distinct(KeysOf(q))
    ensures e in q <==> e.key in Table(q) && Table(q)[e.key] == e.deadline
  {
    var keys := KeysOf(q);
    if e in q {
      var i :| 0 <= i < |q| && q[i] == e;
      var k := IndexOf(q, e.key);
      assert keys[i] == e.key;
      assert k <= i && keys[k] == e.key;
    }
  }

  /** A queue without duplicate keys has the table t when it has the same entries as t. */
  lemma TableFromEntries<K>(q: seq<Entry<K>>, t: map<K, int>)
    requires Distinct(KeysOf(q))
    requires forall e :: e in q <==> e.key in t && t[e.key] == e.deadline
    ensures Table(q) == t
  {
    forall key
      ensures key in Table(q) <==> key in t
      ensures key in t && key in Table(q) ==> Table(q)[key] == t[key]
    {
      if key in t {
        var e := Entry(key, t[key]);
        assert e in q;
        TableEntries(q, e);
      } else if key in Table(q) {
        var e := Entry(key, Table(q)[key]);
        TableEntries(q, e);
      }
    }
  }

  lemma StartedTable<K>(q: seq<Entry<K>>, e: Entry<K>)
    requires Distinct(KeysOf(q)) && e.key !in KeysOf(q)
    ensures Distinct(KeysOf(Started(q, e)))
    ensures Table(Started(q, e)) == Table(q)[e.key := e.deadline]
  {
    var s, t := Started(q, e), Table(q)[e.key := e.deadline];
    KeysOfInsertAt(q, Rank(q, e.deadline), e);
    InsertAtDistinct(KeysOf(q), Rank(q, e.deadline), e.key);
    forall f
      ensures f in s <==> f.key in t && t[f.key] == f.deadline
    {
      TableEntries(q, f);
      InsertAtMember(q, Rank(q, e.deadline), e, f);
    }
    TableFromEntries(s, t);
  }

  lemma KeysOfInsertAt<K>(q: seq<Entry<K>>, p: nat, e: Entry<K>)
    requires p <= |q|
    ensures KeysOf(InsertAt(q, p, e)) == InsertAt(KeysOf(q), p, e.key)
  {
  }

  lemma KeysOfRemoveAt<K>(q: seq<Entry<K>>, k: nat)
    requires k < |q|
    ensures KeysOf(RemoveAt(q, k)) == RemoveAt(KeysOf(q), k)
  {
  }

  /** `restart` replaces one entry and permutes the rest. */
  lemma RestartedElements<K>(q: seq<Entry<K>>, k: nat, d: int)
    requires k < |q|
    ensures multiset(Restarted(q, k, d)) == multiset(q) - multiset{q[k]} + multiset{Entry(q[k].key, d)}
    ensures multiset(KeysOf(Restarted(q, k, d))) == multiset(KeysOf(q))
  {
    RestartedAt(q, k, d);
    var u := q[k := Entry(q[k].key, d)];
    var p := Rank(u, d);
    assert KeysOf(u) == KeysOf(q);
    MovedElements(u, k, p);
  }

  lemma MovedElements<K>(u: seq<Entry<K>>, k: nat, p: nat)
    requires k < |u| && p <= |u|
    ensures multiset(MoveTo(u, k, p)) == multiset(u) && multiset(KeysOf(MoveTo(u, k, p))) == multiset(KeysOf(u))
  {
    MoveToElements(u, k, p);
    assert KeysOf(MoveTo(u, k, p)) == MoveTo(KeysOf(u), k, p);
    MoveToElements(KeysOf(u), k, p);
  }

  lemma RestartedTable<K>(q: seq<Entry<K>>, k: nat, d: int)
    requires Distinct(KeysOf(q)) && k < |q|
    ensures Distinct(KeysOf(Restarted(q, k, d)))
    ensures Table(Restarted(q, k, d)) == Table(q)[q[k].key := d]
  {
    RestartedAt(q, k, d);
    var u := q[k := Entry(q[k].key, d)];
    var r := Restarted(q, k, d);
    RestartedElements(q, k, d);
    SameElementsDistinct(KeysOf(q), KeysOf(r));
    MoveToElements(u, k, Rank(u, d));
    SameElementsDistinct(u, r);
    UpdatedTable(q, k, d);
    forall e
      ensures e in r <==> e.key in Table(u) && Table(u)[e.key] == e.deadline
    {
      TableEntries(u, e);
    }
    TableFromEntries(r, Table(u));
  }

  lemma UpdatedTable<K>(q: seq<Entry<K>>, k: nat, d: int)
    requires Distinct(KeysOf(q)) && k < |q|
    ensures var u := q[k := Entry(q[k].key, d)];
            Distinct(KeysOf(u)) && Table(u) == Table(q)[q[k].key := d]
  {
    var u, t := q[k := Entry(q[k].key, d)], Table(q)[q[k].key := d];
    assert KeysOf(u) == KeysOf(q);
    forall e
      ensures e in u <==> e.key in t && t[e.key] == e.deadline
    {
      TableEntries(q, e);
    }
    TableFromEntries(u, t);
  }

  lemma RemovedTable<K>(q: seq<Entry<K>>, k: nat)
    requires Distinct(KeysOf(q)) && k < |q|
    ensures Distinct(KeysOf(RemoveAt(q, k)))
    ensures Table(RemoveAt(q, k)) == Table(q) - {q[k].key}
    ensures Sorted(q) ==> Sorted(RemoveAt(q, k))
  {
    var r := RemoveAt(q, k);
    var keys := KeysOf(q);
    KeysOfRemoveAt(q, k);
    RemoveAtDistinct(keys, k);
    assert keys[k] == q[k].key;
    forall e
      ensures e in r <==> e in q && e.key != q[k].key
    {
      if e in r {
        var i :| 0 <= i < |r| && r[i] == e;
        var j := if i < k then i else i + 1;
        assert keys[j] == e.key;
      }
      if e in q && e.key != q[k].key {
        var i :| 0 <= i < |q| && q[i] == e;
        assert r[if i < k then i else i - 1] == e;
      }
    }
    forall e
      ensures e in r <==> e.key in Table(q) - {q[k].key} && (Table(q) - {q[k].key})[e.key] == e.deadline
    {
      TableEntries(q, e);
    }
    TableFromEntries(r, Table(q) - {q[k].key});
  }

  /** On an ordered queue, popping a prefix takes out precisely what is due. */
  lemma CheckoutExact<K>(q: seq<Entry<K>>, now: int)
    requires Sorted(q)
    ensures var n := DuePrefix(q, now);
            && (forall i :: 0 <= i < |q| ==> (q[i].deadline <= now <==> i < n))
            && Sorted(q[..n]) && Sorted(q[n..])
  {
    var n := DuePrefix(q, now);
    forall i | n <= i < |q|
      ensures now < q[i].deadline
    {
      assert q[n].deadline <= q[i].deadline;
    }
  }

  /** `takeFirst` hands out an entry that no other is due before. */
  lemma TakeFirstIsMinimal<K>(q: seq<Entry<K>>)
    requires Distinct(KeysOf(q)) && Sorted(q) && q != []
    ensures q[0].key in Table(q) && Table(q[1..]) == Table(q) - {q[0].key}
    ensures forall key :: key in Table(q) ==> Table(q)[q[0].key] <= Table(q)[key]
  {
    RemovedTable(q, 0);
    assert RemoveAt(q, 0) == q[1..];
    TableEntries(q, q[0]);
    forall key | key in Table(q)
      ensures Table(q)[q[0].key] <= Table(q)[key]
    {
      TableEntries(q, Entry(key, Table(q)[key]));
    }
  }
}
