/**
 The client sockets on the heap with the timer handle that each of them keeps
 (AbstractSocket::m_timer in TinyWebServer/src/abstract/abstractsocket.h), together with the
 timer list that the handles point into. A socket is known by its address.
 */
module ClientTimers {
  import opened Sequences
  import opened TimerQueue
  import opened TimerManager
  import opened Wrappers

  type Queue = seq<Entry<Timer<nat>>>

  /** The timer list with each handle replaced by the client that it is for. */
  function Ids(q: Queue): (r: seq<Entry<nat>>)
    ensures |r| == |q|
    ensures forall i {:trigger r[i]} :: 0 <= i < |q| ==> r[i] == Entry(q[i].key.userData, q[i].deadline)
  {
    seq(|q|, i requires 0 <= i < |q| => Entry(q[i].key.userData, q[i].deadline))
  }

  lemma IdsRank(q: Queue, d: int)
    ensures Rank(Ids(q), d) == Rank(q, d)
  {
    RankUnique(Ids(q), d, Rank(q, d));
  }

  lemma IdsStarted(q: Queue, timer: Timer<nat>, d: int)
    ensures Ids(Started(q, Entry(timer, d))) == Started(Ids(q), Entry(timer.userData, d))
  {
    IdsRank(q, d);
  }

  lemma IdsRestarted(q: Queue, k: nat, d: int)
    requires k < |q|
    ensures Ids(Restarted(q, k, d)) == Restarted(Ids(q), k, d)
  {
    var u := q[k := Entry(q[k].key, d)];
    assert Ids(u) == Ids(q)[k := Entry(Ids(q)[k].key, d)];
    RestartedAt(q, k, d);
    RestartedAt(Ids(q), k, d);
    IdsRank(u, d);
  }

  lemma IdsDue(q: Queue, now: int)
    ensures DuePrefix(Ids(q), now) == DuePrefix(q, now)
    ensures Ids(q[DuePrefix(q, now)..]) == Ids(q)[DuePrefix(q, now)..]
  {
    DuePrefixUnique(Ids(q), now, DuePrefix(q, now));
  }

  /** Every entry of the list is for the client that keeps its handle. */
  ghost predicate Pointing(q: Queue, handles: map<nat, Timer<nat>>, timeout: int) {
    forall i :: 0 <= i < |q| ==> PointsBack(q[i].key, handles, timeout)
  }

  ghost predicate PointsBack(timer: Timer<nat>, handles: map<nat, Timer<nat>>, timeout: int) {
    Denoted(timer, handles) && timer.timeout == timeout
  }

  /** The same without the timeout. */
  ghost predicate Denoting(q: Queue, handles: map<nat, Timer<nat>>) {
    forall i :: 0 <= i < |q| ==> Denoted(q[i].key, handles)
  }

  ghost predicate Denoted(timer: Timer<nat>, handles: map<nat, Timer<nat>>) {
    timer.userData in handles && handles[timer.userData] == timer
  }

  /** Handles that point back are found at the same place as their clients. */
  lemma IndexById(q: Queue, handles: map<nat, Timer<nat>>, client: nat)
    requires Denoting(q, handles) && client in handles && client in KeysOf(Ids(q))
    ensures IndexOf(q, handles[client]) == IndexOf(Ids(q), client) < |q|
    ensures handles[client].userData == client
  {
    var i :| 0 <= i < |q| && KeysOf(Ids(q))[i] == client;
    assert Ids(q)[i].key == client && Denoted(q[i].key, handles);
    var j, k := IndexOf(q, handles[client]), IndexOf(Ids(q), client);
    assert k <= i && Denoted(q[k].key, handles) && Ids(q)[k].key == client;
    assert j <= k;
    assert Ids(q)[j].key == client;
  }

  class Clients {
    const timeout: nat
    const manager: TimerList<nat>
    var handles: map<nat, Timer<nat>>       // the clients on the heap, each with its m_timer
    ghost var timers: seq<Entry<nat>>       // the timer list by client

    /** The list is in place and described by `timers`, and the first k timers are for the
        clients that keep their handles. */
    ghost predicate Kept(k: nat)
      reads this, manager, manager.nodes
    {
      if k == 0 then
        manager.Valid() && timers == Ids(manager.queue)
      else
        Kept(k - 1) && k <= |manager.queue| && PointsBack(manager.queue[k - 1].key, handles, timeout)
    }

    ghost predicate Valid()
      reads this, manager, manager.nodes
    {
      Kept(|timers|)
    }

    lemma {:induction false} Unfold(k: nat)
      requires Kept(k)
      ensures Kept(0) && k <= |manager.queue|
      ensures forall i :: 0 <= i < k ==> PointsBack(manager.queue[i].key, handles, timeout)
    {
      if k > 0 {
        Unfold(k - 1);
      }
    }

    lemma {:induction false} Fold(k: nat)
      requires Kept(0) && k <= |manager.queue| && Pointing(manager.queue, handles, timeout)
      ensures Kept(k)
    {
      if k > 0 {
        Fold(k - 1);
        assert PointsBack(manager.queue[k - 1].key, handles, timeout);
      }
    }

    constructor (timeout: nat)
      ensures Valid() && this.timeout == timeout && handles == map[] && timers == []
      ensures fresh(manager) && manager.handles == {}
    {
      this.timeout := timeout;
      manager := new TimerList<nat>();
      handles, timers := map[], [];
    }

    /** A new client with a running timer. */
    method Start(client: nat, now: int)
      requires Valid() && client !in handles
      modifies this`handles, this`timers, manager, manager.handles`prev, manager.handles`next
      ensures Valid() && handles.Keys == old(handles.Keys) + {client}
      ensures timers == Started(old(timers), Entry(client, now + timeout))
      ensures fresh(manager.handles - old(manager.handles))
    {
      Unfold(|timers|);
      var timer := StartTimer(client, now);
      handles, timers := handles[client := timer], Started(timers, Entry(client, now + timeout));
      Fold(|timers|);
    }

    method StartTimer(client: nat, now: int) returns (timer: Timer<nat>)
      requires manager.Valid() && Pointing(manager.queue, handles, timeout) && client !in handles
      modifies manager, manager.handles`prev, manager.handles`next
      ensures manager.Valid() && Pointing(manager.queue, handles[client := timer], timeout)
      ensures Ids(manager.queue) == Started(Ids(old(manager.queue)), Entry(client, now + timeout))
      ensures fresh(manager.handles - old(manager.handles))
    {
      timer := manager.Start(timeout, client, now);
      IdsStarted(old(manager.queue), timer, now + timeout);
    }

    lemma RestartedPoints(q: Queue, k: nat, d: int)
      requires Pointing(q, handles, timeout) && k < |q|
      ensures Pointing(Restarted(q, k, d), handles, timeout)
    {
      var u := q[k := Entry(q[k].key, d)];
      RestartedAt(q, k, d);
      MoveToMembers(u, k, Rank(u, d));
      var r := Restarted(q, k, d);
      forall i | 0 <= i < |r|
        ensures PointsBack(r[i].key, handles, timeout)
      {
        assert r[i] in u;
        var j :| 0 <= j < |u| && u[j] == r[i];
        assert PointsBack(q[j].key, handles, timeout);
      }
    }

    /** The timer of a client whose handle is good. */
    method Restart(client: nat, now: int)
      requires Valid() && client in handles && client in KeysOf(timers)
      modifies this`timers, manager, manager.handles`prev, manager.handles`next, manager.handles`deadline
      ensures Valid() && manager.handles == old(manager.handles)
      ensures old(IndexOf(timers, client) < |timers|)
      ensures timers == Restarted(old(timers), old(IndexOf(timers, client)), now + timeout)
    {
      Unfold(|timers|);
      ghost var q, k := manager.queue, IndexOf(timers, client);
      RestartTimer(client, now);
      IdsRestarted(q, k, now + timeout);
      RestartedPoints(q, k, now + timeout);
      timers := Restarted(timers, k, now + timeout);
      Fold(|timers|);
    }

    method RestartTimer(client: nat, now: int)
      requires manager.Valid() && Pointing(manager.queue, handles, timeout)
      requires client in handles && client in KeysOf(Ids(manager.queue))
      modifies manager, manager.handles`prev, manager.handles`next, manager.handles`deadline
      ensures manager.Valid() && manager.handles == old(manager.handles)
      ensures old(IndexOf(Ids(manager.queue), client) < |manager.queue|)
      ensures manager.queue == Restarted(old(manager.queue), old(IndexOf(Ids(manager.queue), client)), now + timeout)
    {
      var timer := handles[client];
      ghost var k := IndexOf(Ids(manager.queue), client);
      IndexById(manager.queue, handles, client);
      manager.InHandles(k);
      assert timer.timeout == timeout by {
        assert PointsBack(manager.queue[k].key, handles, timeout);
      }
      manager.Restart(timer, now);
    }

    /** Takes the timer of a client out of the list; its handle is dead from then on. */
    method Destory(client: nat)
      requires Valid() && client in handles && client in KeysOf(timers)
      modifies this`timers, manager, manager.handles`prev, manager.handles`next
      ensures Valid() && manager.handles <= old(manager.handles)
      ensures old(IndexOf(timers, client) < |timers|)
      ensures timers == RemoveAt(old(timers), old(IndexOf(timers, client)))
    {
      Unfold(|timers|);
      DestoryTimer(client);
      timers := RemoveAt(timers, IndexOf(timers, client));
      Fold(|timers|);
    }

    method DestoryTimer(client: nat)
      requires manager.Valid() && Pointing(manager.queue, handles, timeout)
      requires client in handles && client in KeysOf(Ids(manager.queue))
      modifies manager, manager.handles`prev, manager.handles`next
      ensures manager.Valid() && Pointing(manager.queue, handles, timeout) && manager.handles <= old(manager.handles)
      ensures old(IndexOf(Ids(manager.queue), client) < |manager.queue|)
      ensures Ids(manager.queue) == RemoveAt(Ids(old(manager.queue)), old(IndexOf(Ids(manager.queue), client)))
    {
      ghost var k := IndexOf(Ids(manager.queue), client);
      IndexById(manager.queue, handles, client);
      manager.InHandles(k);
      manager.Destory(handles[client]);
    }

    /** Pops the timers that are due; the clients stay on the heap. */
    method Checkout(list: seq<nat>, now: int) returns (r: seq<nat>)
      requires Valid()
      modifies this`timers, manager, manager.handles`prev, manager.handles`next
      ensures Valid() && manager.handles <= old(manager.handles)
      ensures var n := DuePrefix(old(timers), now);
              timers == old(timers)[n..] && r == list + KeysOf(old(timers)[..n])
    {
      Unfold(|timers|);
      r := CheckoutTimers(list, now);
      timers := timers[DuePrefix(timers, now)..];
      Fold(|timers|);
    }

    method CheckoutTimers(list: seq<nat>, now: int) returns (r: seq<nat>)
      requires manager.Valid() && Pointing(manager.queue, handles, timeout)
      modifies manager, manager.handles`prev, manager.handles`next
      ensures manager.Valid() && Pointing(manager.queue, handles, timeout) && manager.handles <= old(manager.handles)
      ensures var n := DuePrefix(Ids(old(manager.queue)), now);
              && Ids(manager.queue) == Ids(old(manager.queue))[n..]
              && r == list + KeysOf(Ids(old(manager.queue))[..n])
    {
      ghost var q := manager.queue;
      IdsDue(q, now);
      r := manager.Checkout(list, now);
      ghost var n := DuePrefix(q, now);
      assert TimerList.UserData(q[..n]) == KeysOf(Ids(q)[..n]);
      forall i | 0 <= i < |manager.queue|
        ensures PointsBack(manager.queue[i].key, handles, timeout)
      {
        assert manager.queue[i] == q[n + i];
      }
    }

    method TakeFirst() returns (r: Option<nat>)
      requires Valid()
      modifies this`timers, manager, manager.handles`prev, manager.handles`next
      ensures Valid() && manager.handles <= old(manager.handles)
      ensures old(timers) == [] ==> r == None && timers == []
      ensures old(timers) != [] ==> r == Some(old(timers)[0].key) && timers == old(timers)[1..]
    {
      Unfold(|timers|);
      ghost var q := manager.queue;
      r := manager.TakeFirst();
      if r.Some? {
        timers := timers[1..];
        assert Pointing(manager.queue, handles, timeout) by {
          forall i | 0 <= i < |manager.queue|
            ensures PointsBack(manager.queue[i].key, handles, timeout)
          {
            assert manager.queue[i] == q[i + 1];
          }
        }
        Fold(|timers|);
      }
    }

    /** `delete`: the client leaves the heap. No timer may refer to it any more. */
    method Delete(client: nat)
      requires Valid() && client in handles && client !in KeysOf(timers)
      modifies this`handles
      ensures Valid() && handles.Keys == old(handles.Keys) - {client}
    {
      Unfold(|timers|);
      forall i | 0 <= i < |manager.queue|
        ensures PointsBack(manager.queue[i].key, handles - {client}, timeout)
      {
        assert PointsBack(manager.queue[i].key, handles, timeout);
        assert KeysOf(timers)[i] == manager.queue[i].key.userData;
      }
      handles := handles - {client};
      Fold(|timers|);
    }
  }
}
