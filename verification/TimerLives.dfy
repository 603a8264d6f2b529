/**
 The timer list on the heap, driven by a list of operations: each timer has a timeout of its own,
 and is known by the number that is its user data. What the callers keep are handles.
 */
module TimerLives {
  import opened Sequences
  import opened TimerQueue
  import opened TimerManager
  import opened TimerRuns
  import opened ClientTimers

  /** What the list demands of its callers: a new number for a new timer, and a handle that is
      good; on an empty list any handle may be destroyed. */
  predicate Usable(s: Timers, op: Op) {
    Proper(s, op) || op.TakeFirst? || (op.Destory? && s.queue == [])
  }

  ghost predicate AllUsable(ops: seq<Op>, start: int) {
    forall i :: 0 <= i < |ops| ==> Usable(Run(ops[..i], start), ops[i])
  }

  /** The user data that an operation hands out. */
  function Taken(s: Timers, op: Op): seq<nat> {
    match op
    case Checkout(elapsed) => KeysOf(s.queue[..DuePrefix(s.queue, s.now + elapsed)])
    case TakeFirst => if s.queue == [] then [] else [s.queue[0].key]
    case _ => []
  }

  function AllTaken(ops: seq<Op>, start: int): seq<nat> {
    if ops == [] then []
    else
      var before := ops[..|ops| - 1];
      AllTaken(before, start) + Taken(Run(before, start), ops[|ops| - 1])
  }

  /** Every timer of the list is the one that is kept for its number, with its timeout. */
  ghost predicate Kept(q: Queue, handles: map<nat, Timer<nat>>, timeouts: map<nat, nat>) {
    forall i :: 0 <= i < |q| ==> KeptTimer(q[i].key, handles, timeouts)
  }

  ghost predicate KeptTimer(timer: Timer<nat>, handles: map<nat, Timer<nat>>, timeouts: map<nat, nat>) {
    Denoted(timer, handles) && timer.userData in timeouts && timeouts[timer.userData] == timer.timeout
  }

  /** The list on the heap is the list of the run. */
  ghost predicate Tracks(manager: TimerList<nat>, handles: map<nat, Timer<nat>>, s: Timers)
    reads manager, manager.nodes
  {
    manager.Valid() && s.queue == Ids(manager.queue) && Kept(manager.queue, handles, s.timeouts)
  }

  lemma StartedKept(q: Queue, handles: map<nat, Timer<nat>>, timeouts: map<nat, nat>, timer: Timer<nat>, d: int)
    requires Kept(q, handles, timeouts) && timer.userData !in KeysOf(Ids(q)) && timer.timeout >= 0
    ensures var key := timer.userData;
            Kept(Started(q, Entry(timer, d)), handles[key := timer], timeouts[key := timer.timeout])
  {
    var key, r := timer.userData, Started(q, Entry(timer, d));
    forall i | 0 <= i < |r|
      ensures KeptTimer(r[i].key, handles[key := timer], timeouts[key := timer.timeout])
    {
      var p := Rank(q, d);
      if i != p {
        var j := if i < p then i else i - 1;
        assert r[i] == q[j] && KeptTimer(q[j].key, handles, timeouts);
        assert KeysOf(Ids(q))[j] == q[j].key.userData;
      }
    }
  }

  lemma RestartedKept(q: Queue, handles: map<nat, Timer<nat>>, timeouts: map<nat, nat>, k: nat, d: int)
    requires Kept(q, handles, timeouts) && k < |q|
    ensures Kept(Restarted(q, k, d), handles, timeouts)
  {
    var u := q[k := Entry(q[k].key, d)];
    RestartedAt(q, k, d);
    MoveToMembers(u, k, Rank(u, d));
    var r := Restarted(q, k, d);
    forall i | 0 <= i < |r|
      ensures KeptTimer(r[i].key, handles, timeouts)
    {
      assert r[i] in u;
      var j :| 0 <= j < |u| && u[j] == r[i];
      assert KeptTimer(q[j].key, handles, timeouts);
    }
  }

  /** A handle that is kept is good while its timer is in the list. */
  lemma KeptIsGood(manager: TimerList<nat>, handles: map<nat, Timer<nat>>, s: Timers, key: nat)
    requires Tracks(manager, handles, s) && key in KeysOf(s.queue)
    ensures key in handles && handles[key] in manager.handles
    ensures IndexOf(manager.queue, handles[key]) == IndexOf(s.queue, key) < |s.queue|
    ensures key in s.timeouts && s.timeouts[key] == handles[key].timeout
  {
    var i :| 0 <= i < |s.queue| && KeysOf(s.queue)[i] == key;
    assert KeptTimer(manager.queue[i].key, handles, s.timeouts);
    IndexById(manager.queue, handles, key);
    manager.InHandles(IndexOf(s.queue, key));
  }

  method Start(manager: TimerList<nat>, handles: map<nat, Timer<nat>>, now: int, key: nat, timeout: nat,
               ghost s: Timers, ghost elapsed: nat)
    returns (handles': map<nat, Timer<nat>>)
    requires Tracks(manager, handles, s) && key !in KeysOf(s.queue) && now == s.now + elapsed
    modifies manager, manager.handles`prev, manager.handles`next
    ensures Tracks(manager, handles', Step(s, Op.Start(key, timeout, elapsed)))
    ensures fresh(manager.handles - old(manager.handles))
  {
    ghost var next := Step(s, Op.Start(key, timeout, elapsed));
    var timer := manager.Start(timeout, key, now);
    IdsStarted(old(manager.queue), timer, now + timeout);
    StartedKept(old(manager.queue), handles, s.timeouts, timer, now + timeout);
    handles' := handles[key := timer];
    assert next.queue == Ids(manager.queue);
    assert Kept(manager.queue, handles', next.timeouts);
  }

  method Restart(manager: TimerList<nat>, handles: map<nat, Timer<nat>>, now: int, key: nat,
                 ghost s: Timers, ghost elapsed: nat)
    requires Tracks(manager, handles, s) && key in KeysOf(s.queue) && now == s.now + elapsed
    modifies manager, manager.handles`prev, manager.handles`next, manager.handles`deadline
    ensures Tracks(manager, handles, Step(s, Op.Restart(key, elapsed)))
    ensures manager.handles == old(manager.handles)
  {
    KeptIsGood(manager, handles, s, key);
    ghost var k, d := IndexOf(s.queue, key), now + s.timeouts[key];
    IdsRestarted(manager.queue, k, d);
    RestartedKept(manager.queue, handles, s.timeouts, k, d);
    manager.Restart(handles[key], now);
  }

  method Destory(manager: TimerList<nat>, handles: map<nat, Timer<nat>>, key: nat, ghost s: Timers)
    requires Tracks(manager, handles, s) && (key in KeysOf(s.queue) || s.queue == [])
    modifies manager, manager.handles`prev, manager.handles`next
    ensures Tracks(manager, handles, Step(s, Op.Destory(key))) && manager.handles <= old(manager.handles)
  {
    if key in handles {
      if s.queue != [] {
        KeptIsGood(manager, handles, s, key);
      }
      manager.Destory(handles[key]);
    }
  }

  method Checkout(manager: TimerList<nat>, handles: map<nat, Timer<nat>>, now: int, ghost s: Timers,
                  ghost elapsed: nat)
    returns (taken: seq<nat>)
    requires Tracks(manager, handles, s) && now == s.now + elapsed
    modifies manager, manager.handles`prev, manager.handles`next
    ensures Tracks(manager, handles, Step(s, Op.Checkout(elapsed))) && manager.handles <= old(manager.handles)
    ensures taken == Taken(s, Op.Checkout(elapsed))
  {
    ghost var q, n := manager.queue, DuePrefix(manager.queue, now);
    IdsDue(q, now);
    taken := manager.Checkout([], now);
    assert TimerList.UserData(q[..n]) == KeysOf(Ids(q)[..n]);
  }

  method TakeFirst(manager: TimerList<nat>, handles: map<nat, Timer<nat>>, ghost s: Timers) returns (taken: seq<nat>)
    requires Tracks(manager, handles, s)
    modifies manager, manager.handles`prev, manager.handles`next
    ensures Tracks(manager, handles, Step(s, Op.TakeFirst)) && manager.handles <= old(manager.handles)
    ensures taken == Taken(s, Op.TakeFirst)
  {
    var first := manager.TakeFirst();
    return if first.Some? then [first.value] else [];
  }

  method Apply(manager: TimerList<nat>, handles: map<nat, Timer<nat>>, now: int, op: Op, ghost s: Timers)
    returns (handles': map<nat, Timer<nat>>, now': int, taken: seq<nat>)
    requires Tracks(manager, handles, s) && Usable(s, op) && now == s.now
    modifies manager, manager.handles`prev, manager.handles`next, manager.handles`deadline
    ensures Tracks(manager, handles', Step(s, op)) && now' == Step(s, op).now && taken == Taken(s, op)
    ensures fresh(manager.handles - old(manager.handles))
  {
    handles', now', taken := handles, now, [];
    match op
    case Start(key, timeout, elapsed) =>
      now' := now + elapsed;
      handles' := Start(manager, handles, now', key, timeout, s, elapsed);
    case Restart(key, elapsed) =>
      now' := now + elapsed;
      Restart(manager, handles, now', key, s, elapsed);
    case Destory(key) =>
      Destory(manager, handles, key, s);
    case Checkout(elapsed) =>
      now' := now + elapsed;
      taken := Checkout(manager, handles, now', s, elapsed);
    case TakeFirst =>
      taken := TakeFirst(manager, handles, s);
  }

  lemma OneMoreOp(ops: seq<Op>, i: nat, start: int)
    requires i < |ops|
    ensures Run(ops[..i + 1], start) == Step(Run(ops[..i], start), ops[i])
    ensures AllTaken(ops[..i + 1], start) == AllTaken(ops[..i], start) + Taken(Run(ops[..i], start), ops[i])
  {
    var more := ops[..i + 1];
    assert more[..|more| - 1] == ops[..i];
  }

  /** A whole life of the list: behind any usable operations it holds what the run of the value
      holds, in order, and has handed out the same user data in the same order. */
  method Live(ops: seq<Op>, start: int) returns (manager: TimerList<nat>, taken: seq<nat>)
    requires AllUsable(ops, start)
    ensures fresh(manager) && manager.Valid() && Sorted(manager.queue)
    ensures Ids(manager.queue) == Run(ops, start).queue
    ensures taken == AllTaken(ops, start)
  {
    manager := new TimerList<nat>();
    var handles, now, i := map[], start, 0;
    taken := [];
    assert ops[..0] == [];
    while i < |ops|
      invariant 0 <= i <= |ops|
      invariant fresh(manager) && fresh(manager.handles)
      invariant Tracks(manager, handles, Run(ops[..i], start)) && now == Run(ops[..i], start).now
      invariant taken == AllTaken(ops[..i], start)
    {
      ghost var s := Run(ops[..i], start);
      var more;
      handles, now, more := Apply(manager, handles, now, ops[i], s);
      OneMoreOp(ops, i, start);
      taken, i := taken + more, i + 1;
    }
    assert ops[..|ops|] == ops;
    RunRefines(ops, start);
    IdsSorted(manager.queue);
  }

  lemma IdsSorted(q: Queue)
    requires Sorted(Ids(q))
    ensures Sorted(q)
  {
    forall i, j | 0 <= i < j < |q|
      ensures q[i].deadline <= q[j].deadline
    {
      assert Ids(q)[i].deadline <= Ids(q)[j].deadline;
    }
  }
}
