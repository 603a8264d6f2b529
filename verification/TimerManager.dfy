/**
 TinyWebServer/src/util/timermanager.h on the heap: a doubly linked list of timers whose
 nodes are the handles kept by the callers. `null` plays the role of the end iterator.
 Clock readings are parameters.
 */
module TimerManager {
  import opened Sequences
  import opened TimerQueue
  import opened Wrappers

  class Timer<T> {
    const userData: T
    const timeout: int
    var deadline: int
    var prev: Timer?<T>
    var next: Timer?<T>

    constructor (timeout: int, userData: T, now: int)
      ensures this.userData == userData && this.timeout == timeout
      ensures deadline == now + timeout
    {
      this.userData, this.timeout := userData, timeout;
      this.deadline := now + timeout;
      this.prev, this.next := null, null;
    }

    method Reset(now: int)
      modifies this`deadline
      ensures deadline == now + timeout
    {
      deadline := now + timeout;
    }
  }

  class TimerList<T> {
    var head: Timer?<T>
    var tail: Timer?<T>

    ghost var nodes: seq<Timer<T>>             // the linked nodes, front first
    ghost var queue: seq<Entry<Timer<T>>>      // each node with its deadline
    ghost var handles: set<Timer<T>>           // the handles that are good

    /** The node at position i, or the end iterator. */
    ghost function At(i: int): Timer?<T>
      reads this
    {
      if 0 <= i < |nodes| then nodes[i] else null
    }

    /** Neighbours in s point at each other, and the ends point at nothing. */
    static ghost predicate Chain(s: seq<Timer<T>>)
      reads s
    {
      && (forall j {:trigger s[j].prev} :: 0 <= j < |s| ==> s[j].prev == if j == 0 then null else s[j - 1])
      && (forall j {:trigger s[j].next} :: 0 <= j < |s| ==> s[j].next == if j == |s| - 1 then null else s[j + 1])
    }

    /** The nodes are the linked list, and `queue` describes them. */
    ghost predicate Linked()
      reads this, nodes
    {
      && Distinct(nodes)
      && head == At(0) && tail == At(|nodes| - 1)
      && Chain(nodes)
      && Stamped(nodes, queue)
    }

    /** The ends and the handles are right, and the first k nodes are in the list once each,
        linked to their neighbours. */
    ghost predicate InPlace(k: nat)
      reads this, nodes
    {
      if k == 0 then
        && head == At(0) && tail == At(|nodes| - 1)
        && |queue| == |nodes| && handles == set x | x in nodes
      else
        InPlace(k - 1) && NodeInPlace(k - 1)
    }

    ghost predicate NodeInPlace(j: nat)
      reads this, nodes
    {
      && j < |nodes| && j < |queue|
      && nodes[j].prev == At(j - 1) && nodes[j].next == At(j + 1)
      && queue[j] == Entry(nodes[j], nodes[j].deadline)
      && nodes[j] !in nodes[..j]
    }

    ghost predicate Valid()
      reads this, nodes
    {
      InPlace(|nodes|)
    }

    lemma {:induction false} EachInPlace(k: nat)
      requires InPlace(k)
      ensures InPlace(0) && forall j :: 0 <= j < k ==> NodeInPlace(j)
    {
      if k > 0 {
        EachInPlace(k - 1);
      }
    }

    lemma {:induction false} AllInPlace(k: nat)
      requires Linked() && k <= |nodes| && handles == set x | x in nodes
      ensures InPlace(k)
    {
      if k > 0 {
        AllInPlace(k - 1);
        assert nodes[k - 1].prev == At(k - 2) && nodes[k - 1].next == At(k);
        assert nodes[k - 1].deadline == queue[k - 1].deadline;
      }
    }

    /** A valid list, node by node ... */
    lemma Unfold()
      requires Valid()
      ensures Linked() && forall x :: x in handles <==> x in nodes
    {
      EachInPlace(|nodes|);
      forall i, j | 0 <= i < j < |nodes|
        ensures nodes[i] != nodes[j]
      {
        assert NodeInPlace(j) && nodes[..j][i] == nodes[i];
      }
      forall j | 0 <= j < |nodes|
        ensures nodes[j].prev == (if j == 0 then null else nodes[j - 1])
        ensures nodes[j].next == (if j == |nodes| - 1 then null else nodes[j + 1])
        ensures queue[j] == Entry(nodes[j], nodes[j].deadline)
      {
        assert NodeInPlace(j);
      }
    }

    /** ... and back. */
    lemma Fold()
      requires Linked() && forall x :: x in handles <==> x in nodes
      ensures Valid()
    {
      assert handles == set x | x in nodes;
      AllInPlace(|nodes|);
    }

    static ghost predicate Stamped(s: seq<Timer<T>>, q: seq<Entry<Timer<T>>>)
      reads s
    {
      && |s| == |q|
      && forall i {:trigger s[i].deadline} :: 0 <= i < |s| ==> q[i] == Entry(s[i], s[i].deadline)
    }

    constructor ()
      ensures Valid() && nodes == [] && queue == [] && handles == {}
    {
      head, tail := null, null;
      nodes, queue, handles := [], [], {};
    }

    /** Links x in front of `pos`, which stands at position i. */
    method Link(pos: Timer?<T>, x: Timer<T>, ghost i: nat)
      requires Linked() && x !in nodes
      requires i <= |nodes| && pos == At(i)
      modifies this`head, this`tail, this`nodes, this`queue, nodes`prev, nodes`next, x`prev, x`next
      ensures Linked()
      ensures nodes == InsertAt(old(nodes), i, x)
      ensures queue == InsertAt(old(queue), i, Entry(x, x.deadline))
    {
      var before := if pos == null then tail else pos.prev;
      ghost var s, q := nodes, queue;
      nodes, queue := InsertAt(s, i, x), InsertAt(q, i, Entry(x, x.deadline));
      x.prev, x.next := before, pos;
      if before == null {
        head := x;
      } else {
        before.next := x;
      }
      if pos == null {
        tail := x;
      } else {
        pos.prev := x;
      }
      InsertAtDistinct(s, i, x);
      LinkedAround(s, i, x);
      StampedInserted(s, q, i, x);
    }

    /** Node x stands between the nodes at positions i - 1 and i of s. */
    static ghost predicate Around(s: seq<Timer<T>>, i: nat, x: Timer<T>)
      requires i <= |s|
      reads s, x
    {
      && x.prev == (if i == 0 then null else s[i - 1])
      && x.next == (if i == |s| then null else s[i])
      && (forall j {:trigger s[j].prev} :: 0 <= j < |s| ==>
            s[j].prev == if j == i then x else if j == 0 then null else s[j - 1])
      && (forall j {:trigger s[j].next} :: 0 <= j < |s| ==>
            s[j].next == if j == i - 1 then x else if j == |s| - 1 then null else s[j + 1])
    }

    static lemma LinkedAround(s: seq<Timer<T>>, i: nat, x: Timer<T>)
      requires i <= |s| && Around(s, i, x)
      ensures Chain(InsertAt(s, i, x))
      ensures InsertAt(s, i, x)[0] == if i == 0 then x else s[0]
      ensures InsertAt(s, i, x)[|s|] == if i == |s| then x else s[|s| - 1]
    {
      var r := InsertAt(s, i, x);
      forall j | 0 <= j < |r|
        ensures r[j].prev == (if j == 0 then null else r[j - 1])
        ensures r[j].next == (if j == |r| - 1 then null else r[j + 1])
      {
        if j < i {
          assert r[j] == s[j];
        } else if j == i {
          assert r[j] == x;
        } else {
          assert r[j] == s[j - 1];
        }
      }
    }

    static lemma StampedInserted(s: seq<Timer<T>>, q: seq<Entry<Timer<T>>>, i: nat, x: Timer<T>)
      requires i <= |s| && Stamped(s, q)
      ensures Stamped(InsertAt(s, i, x), InsertAt(q, i, Entry(x, x.deadline)))
    {
    }

    /** Unlinks x, which stands at position k. */
    method Unlink(x: Timer<T>, ghost k: nat)
      requires Linked() && k < |nodes| && nodes[k] == x
      modifies this`head, this`tail, this`nodes, this`queue, nodes`prev, nodes`next
      ensures Linked()
      ensures nodes == RemoveAt(old(nodes), k) && x !in nodes
      ensures queue == RemoveAt(old(queue), k)
    {
      ghost var s, q := nodes, queue;
      nodes, queue := RemoveAt(s, k), RemoveAt(q, k);
      if x.prev == null {
        head := x.next;
      } else {
        x.prev.next := x.next;
      }
      if x.next == null {
        tail := x.prev;
      } else {
        x.next.prev := x.prev;
      }
      RemoveAtDistinct(s, k);
      LinkedBypassing(s, q, k);
    }

    /** The nodes of s other than the one at k are linked past it. */
    static ghost predicate Bypassed(s: seq<Timer<T>>, k: nat)
      requires k < |s|
      reads s
    {
      && (forall j {:trigger s[j].prev} :: 0 <= j < |s| && j != k ==>
            s[j].prev == if j == 0 || (j == 1 && k == 0) then null
                         else if j == k + 1 then s[k - 1] else s[j - 1])
      && (forall j {:trigger s[j].next} :: 0 <= j < |s| && j != k ==>
            s[j].next == if j == |s| - 1 || (j == k - 1 && k == |s| - 1) then null
                         else if j == k - 1 then s[k + 1] else s[j + 1])
    }

    static lemma LinkedBypassing(s: seq<Timer<T>>, q: seq<Entry<Timer<T>>>, k: nat)
      requires k < |s| && Bypassed(s, k) && Stamped(s, q)
      ensures Chain(RemoveAt(s, k)) && Stamped(RemoveAt(s, k), RemoveAt(q, k))
      ensures |s| > 1 ==> RemoveAt(s, k)[0] == s[if k == 0 then 1 else 0]
      ensures |s| > 1 ==> RemoveAt(s, k)[|s| - 2] == s[if k == |s| - 1 then |s| - 2 else |s| - 1]
    {
      var r := RemoveAt(s, k);
      forall j | 0 <= j < |r|
        ensures r[j].prev == (if j == 0 then null else r[j - 1])
        ensures r[j].next == (if j == |r| - 1 then null else r[j + 1])
      {
        if j < k {
          assert r[j] == s[j];
        } else {
          assert r[j] == s[j + 1];
        }
      }
    }

    /** The backward search of `start` and `restart`: stops at the first iterator, coming from
        the end, whose predecessor is due before the deadline, or else at the first node. */
    method SearchBack(deadline: int) returns (it: Timer?<T>, ghost i: nat)
      requires Linked()
      ensures i == Rank(queue, deadline) && it == At(i)
    {
      it, i := null, |nodes|;
      while it != head
        invariant i <= |nodes| && it == At(i)
        invariant forall j :: i <= j < |nodes| ==> deadline <= queue[j].deadline
        decreases i
      {
        var before := if it == null then tail else it.prev;
        assert before == nodes[i - 1];
        if before.deadline < deadline {
          break;
        }
        it, i := before, i - 1;
      }
      RankUnique(queue, deadline, i);
    }

    method Start(timeout: int, data: T, now: int) returns (timer: Timer<T>)
      requires Valid()
      modifies this, handles`prev, handles`next
      ensures Valid() && fresh(timer)
      ensures timer.userData == data && timer.timeout == timeout
      ensures queue == Started(old(queue), Entry(timer, now + timeout))
      ensures handles == old(handles) + {timer}
    {
      timer := new Timer(timeout, data, now);
      Emplace(timer);
    }

    /** Puts a node that is not in the list behind the last one that is due before it. */
    method Emplace(timer: Timer<T>)
      requires Valid() && timer !in handles
      modifies this, handles`prev, handles`next, timer`prev, timer`next
      ensures Valid() && handles == old(handles) + {timer}
      ensures queue == Started(old(queue), Entry(timer, timer.deadline))
    {
      Unfold();
      var it, i := SearchBack(timer.deadline);
      InsertAtMembers(nodes, i, timer);
      handles := handles + {timer};
      Link(it, timer, i);
      Fold();
    }

    lemma InHandles(k: nat)
      requires Valid() && k < |queue|
      ensures queue[k].key in handles
    {
      Unfold();
      assert queue[k] == Entry(nodes[k], nodes[k].deadline);
    }

    /** The position of a good handle. */
    ghost method Locate(timer: Timer<T>) returns (k: nat)
      requires Valid() && timer in handles
      ensures k < |nodes| && nodes[k] == timer && k == IndexOf(queue, timer)
    {
      Unfold();
      var i :| 0 <= i < |nodes| && nodes[i] == timer;
      k := IndexOf(queue, timer);
      assert queue[i] == Entry(nodes[i], nodes[i].deadline);
      assert queue[k] == Entry(nodes[k], nodes[k].deadline);
    }

    /** The timer moves in the list but stays the same node, so handles to it stay good.
        When the search ends at the first node, the timer is left where it is. */
    method Restart(timer: Timer<T>, now: int)
      requires Valid() && timer in handles
      modifies this, handles`prev, handles`next, timer`deadline
      ensures Valid() && handles == old(handles)
      ensures old(IndexOf(queue, timer) < |queue|)
      ensures queue == Restarted(old(queue), old(IndexOf(queue, timer)), now + timer.timeout)
    {
      ghost var k := Locate(timer);
      Unfold();
      Overwrite(timer, k, now);
      RestartedAt(old(queue), k, timer.deadline);
      Reorder(timer, k);
      Fold();
    }

    /** The second step of `restart`. */
    method Reorder(timer: Timer<T>, ghost k: nat)
      requires Linked() && k < |nodes| && nodes[k] == timer
      modifies this`head, this`tail, this`nodes, this`queue, nodes`prev, nodes`next
      ensures Linked() && forall y :: y in nodes <==> y in old(nodes)
      ensures var p := Rank(old(queue), timer.deadline);
              queue == if p == 0 then old(queue) else MoveTo(old(queue), k, p)
    {
      var it, i := SearchBack(timer.deadline);
      if it != head {
        Splice(it, timer, i, k);
      }
    }

    /** The first step of `restart`: a new deadline, and the list not yet put in order. */
    method Overwrite(timer: Timer<T>, ghost k: nat, now: int)
      requires Linked() && k < |nodes| && nodes[k] == timer
      modifies this`queue, timer`deadline
      ensures Linked()
      ensures timer.deadline == now + timer.timeout
      ensures queue == old(queue)[k := Entry(timer, timer.deadline)]
    {
      timer.Reset(now);
      queue := queue[k := Entry(timer, timer.deadline)];
    }

    /** Moves x in front of `pos`; in front of itself or of its successor nothing changes. */
    method Splice(pos: Timer?<T>, x: Timer<T>, ghost i: nat, ghost k: nat)
      requires Linked() && k < |nodes| && nodes[k] == x
      requires i <= |nodes| && pos == At(i)
      modifies this`head, this`tail, this`nodes, this`queue, nodes`prev, nodes`next
      ensures Linked()
      ensures nodes == MoveTo(old(nodes), k, i) && queue == MoveTo(old(queue), k, i)
      ensures forall y :: y in nodes <==> y in old(nodes)
    {
      MoveToMembers(nodes, k, i);
      if pos == x || pos == x.next {
        assert i == k || i == k + 1;
        MoveToSelf(nodes, k, i);
        MoveToSelf(queue, k, i);
        return;
      }
      assert i != k && i != k + 1;
      ghost var at := if k < i then i - 1 else i;
      Unlink(x, k);
      Link(pos, x, at);
    }

    method Destory(timer: Timer<T>)
      requires Valid()
      requires handles != {} ==> timer in handles
      modifies this, handles`prev, handles`next
      ensures Valid() && handles == old(handles) - {timer}
      ensures old(handles) == {} ==> queue == old(queue)
      ensures old(handles) != {} ==> old(IndexOf(queue, timer) < |queue|)
      ensures old(handles) != {} ==> queue == RemoveAt(old(queue), old(IndexOf(queue, timer)))
    {
      Unfold();
      if head != null {
        assert nodes[0] in handles;
        ghost var k := Locate(timer);
        RemoveAtMembers(nodes, k);
        handles := handles - {timer};
        Unlink(timer, k);
        Fold();
      }
    }

    lemma Front()
      requires Valid()
      ensures head == null <==> queue == []
      ensures head != null ==> queue[0].key == head && queue[0].deadline == head.deadline
    {
      EachInPlace(|nodes|);
      assert nodes != [] ==> NodeInPlace(0);
    }

    method PopFront()
      requires Valid() && queue != []
      modifies this, handles`prev, handles`next
      ensures Valid()
      ensures queue == old(queue)[1..] && handles == old(handles) - {old(queue)[0].key}
      ensures |nodes| < |old(nodes)|
    {
      Unfold();
      assert queue[0] == Entry(nodes[0], nodes[0].deadline);
      RemoveAtMembers(nodes, 0);
      handles := handles - {head};
      Unlink(head, 0);
      Fold();
    }

    static function UserData(q: seq<Entry<Timer<T>>>): seq<T> {
      seq(|q|, i requires 0 <= i < |q| => q[i].key.userData)
    }

    /** Appends the user data of every timer that is popped to the list it is given. */
    method Checkout(list: seq<T>, now: int) returns (r: seq<T>)
      requires Valid()
      modifies this, handles`prev, handles`next
      ensures Valid()
      ensures var n := DuePrefix(old(queue), now);
              && queue == old(queue)[n..]
              && r == list + UserData(old(queue)[..n])
              && handles <= old(handles)
              && forall h :: h in old(handles) ==> (h in handles <==> h !in KeysOf(old(queue)[..n]))
    {
      r := list;
      ghost var q, all, n := queue, handles, 0;
      while head != null && head.deadline <= now
        invariant Valid() && n <= |q|
        invariant queue == q[n..] && handles <= all
        invariant forall i :: 0 <= i < n ==> q[i].deadline <= now
        invariant r == list + UserData(q[..n])
        invariant Without(handles, all, KeysOf(q[..n]))
        decreases |nodes|
      {
        r := TakeDue(q, n, r, list, all);
        n := n + 1;
      }
      AllTaken(q, n, now);
    }

    /** What is left of the list `q` begins with a timer that is not due. */
    lemma AllTaken(q: seq<Entry<Timer<T>>>, n: nat, now: int)
      requires Valid() && (head == null || now < head.deadline) && n <= |q| && queue == q[n..]
      requires forall i :: 0 <= i < n ==> q[i].deadline <= now
      ensures n == DuePrefix(q, now)
    {
      Front();
      assert n < |q| ==> queue[0] == q[n];
      DuePrefixUnique(q, now, n);
    }

    /** The body of the loop: the front of what is left of the list `q` is popped. */
    method TakeDue(ghost q: seq<Entry<Timer<T>>>, ghost n: nat, taken: seq<T>, ghost list: seq<T>,
                   ghost all: set<Timer<T>>)
      returns (r: seq<T>)
      requires Valid() && head != null && n <= |q| && queue == q[n..]
      requires taken == list + UserData(q[..n]) && Without(handles, all, KeysOf(q[..n]))
      modifies this, handles`prev, handles`next
      ensures Valid() && n < |q| && queue == q[n + 1..] && q[n].deadline == old(head.deadline)
      ensures handles <= old(handles) && |nodes| < |old(nodes)|
      ensures r == list + UserData(q[..n + 1]) && Without(handles, all, KeysOf(q[..n + 1]))
    {
      Front();
      assert queue[0] == q[n];
      r := taken + [head.userData];
      PopFront();
    }

    static ghost predicate Without(left: set<Timer<T>>, all: set<Timer<T>>, gone: seq<Timer<T>>) {
      forall h :: h in all ==> (h in left <==> h !in gone)
    }

    method TakeFirst() returns (r: Option<T>)
      requires Valid()
      modifies this, handles`prev, handles`next
      ensures Valid()
      ensures old(queue) == [] ==> r == None && queue == [] && handles == old(handles)
      ensures old(queue) != [] ==>
                && r == Some(old(queue)[0].key.userData) && queue == old(queue)[1..]
                && handles == old(handles) - {old(queue)[0].key}
    {
      Front();
      if head == null {
        return None;
      }
      r := Some(head.userData);
      PopFront();
    }
  }
}
