/**
 What the inputs alone say about a run of the loop: a ledger of clock, clients and log that knows
 no timer list, no counter and no queues. Every run of the loop keeps it.
 */
module LoopLedger {
  import opened Sequences
  import opened TimerQueue
  import opened Wrappers
  import opened LoopModel
  import opened LoopTheorems

  /** The clients with their last sign of life, and the listeners that are still watched. */
  datatype Ledger = Ledger(
    clock: int,
    nextId: nat,
    seen: map<nat, int>,
    listening: set<nat>,
    log: seq<Event>)

  // ---------- what each input does ----------

  /** A connection takes the next number, and is accepted when it can be used. */
  function Connecting(l: Ledger, answer: Acceptance): Ledger
    requires !answer.NoDescriptor?
  {
    match answer
    case Unusable => l.(nextId := l.nextId + 1, log := l.log + [Discarded(l.nextId)])
    case Connected(elapsed) =>
      var now := l.clock + elapsed;
      Ledger(now, l.nextId + 1, l.seen[l.nextId := now], l.listening, l.log + [Accepted(l.nextId, now)])
  }

  /** All connections up to the first that is not there. */
  function Accepting(l: Ledger, answers: seq<Acceptance>): Ledger
    decreases |answers|
  {
    if answers == [] || answers[0].NoDescriptor? then l
    else Accepting(Connecting(l, answers[0]), answers[1..])
  }

  function Departed(l: Ledger, id: nat): Ledger {
    l.(seen := l.seen - {id}, log := l.log + [Closed(id)] + [Deleted(id)])
  }

  function Asked(l: Ledger, requests: seq<nat>): Ledger {
    l.(listening := l.listening - (set id | id in requests))
  }

  function Answering(l: Ledger, r: Report, listeners: nat): Ledger {
    var now := l.clock + r.elapsed;
    if r.id < listeners then Accepting(l, r.acceptances)
    else if r.keep then l.(clock := now, seen := l.seen[r.id := now], log := l.log + [Served(r.id, now)])
    else Departed(l, r.id)
  }

  /** A report without an error is answered if it is readable. */
  function Reading(l: Ledger, r: Report, listeners: nat): Ledger {
    if !r.error && r.input then Answering(Asked(l, r.requests), r, listeners) else l
  }

  function Failed(l: Ledger, r: Report, listeners: nat): Ledger {
    if !r.error then l
    else
      var asked := Asked(l, r.requests);
      if r.id < listeners then
        asked.(listening := asked.listening - {r.id}, log := l.log + [ListenerError(r.id)])
      else Departed(asked, r.id)
  }

  function AllRead(l: Ledger, reports: seq<Report>, listeners: nat): Ledger {
    if reports == [] then l
    else Reading(AllRead(l, reports[..|reports| - 1], listeners), reports[|reports| - 1], listeners)
  }

  function AllFailed(l: Ledger, reports: seq<Report>, listeners: nat): Ledger {
    if reports == [] then l
    else Failed(AllFailed(l, reports[..|reports| - 1], listeners), reports[|reports| - 1], listeners)
  }

  function Closings(ids: seq<nat>): seq<Event> {
    if ids == [] then [] else [Closed(ids[0]), Deleted(ids[0])] + Closings(ids[1..])
  }

  function Expiries(ids: seq<nat>, now: int): seq<Event> {
    if ids == [] then [] else [Expired(ids[0], now)] + Expiries(ids[1..], now)
  }

  /** These are the clients that have been idle for the timeout, the longest idle first. */
  ghost predicate Idle(l: Ledger, timeout: nat, now: int, ids: seq<nat>) {
    && Distinct(ids)
    && (forall id :: id in ids <==> id in l.seen && now - l.seen[id] >= timeout)
    && forall i, j :: 0 <= i < j < |ids| ==> ids[i] in l.seen && ids[j] in l.seen && l.seen[ids[i]] <= l.seen[ids[j]]
  }

  function TimingOut(l: Ledger, ids: seq<nat>, now: int): Ledger {
    l.(clock := now, seen := l.seen - (set id | id in ids), log := l.log + Expiries(ids, now) + Closings(ids))
  }

  /** The ledger when the timers are checked. */
  function BeforeTimeouts(l: Ledger, r: Round, listeners: nat): Ledger {
    var waiting := Asked(l, r.unregistered);
    var reports := Delivered(waiting.listening + waiting.seen.Keys, r.reports);
    Asked(AllFailed(AllRead(waiting, reports, listeners), reports, listeners), r.late)
  }

  ghost predicate RoundKept(l: Ledger, r: Round, timeout: nat, listeners: nat, ids: seq<nat>, l': Ledger) {
    var due := BeforeTimeouts(l, r, listeners);
    Idle(due, timeout, due.clock + r.elapsed, ids) && l' == TimingOut(due, ids, due.clock + r.elapsed)
  }

  // ---------- the ledger of a state ----------

  ghost function LedgerOf(st: State): Ledger {
    Ledger(st.clock, st.nextId,
           (map id | id in st.live && LastSeen(st.log, id).Some? :: LastSeen(st.log, id).value),
           (set id | id in st.registered && id < st.listeners), st.log)
  }

  /** Under the invariant every live client has been seen: its deadline is as far ahead. */
  lemma SeenLive(st: State, id: nat)
    requires Inv(st, []) && id in st.live
    ensures id in LedgerOf(st).seen
    ensures exists e :: e in st.timers && e.key == id && e.deadline == LedgerOf(st).seen[id] + st.timeout
  {
    var i :| 0 <= i < |st.timers| && KeysOf(st.timers)[i] == id;
    var e := st.timers[i];
    assert e in st.timers && TimedEntry(st, e);
  }

  /** A sign of life sets the entry of its client, and no other. */
  lemma SeenNoted(st: State, st': State, e: Event)
    requires (e.Accepted? || e.Served?) && st'.log == st.log + [e] && st'.live == st.live + {e.id}
    ensures LedgerOf(st').seen == LedgerOf(st).seen[e.id := e.at]
  {
    forall id
      ensures LastSeen(st'.log, id) == if id == e.id then Some(e.at) else LastSeen(st.log, id)
    {
    }
  }

  lemma AdmitKept(st: State, elapsed: nat)
    requires Inv(st, [])
    ensures LedgerOf(Admit(st, elapsed)) == Connecting(LedgerOf(st), Connected(elapsed))
  {
    var st' := Admit(st, elapsed);
    SeenNoted(st, st', Accepted(st.nextId, st.clock + elapsed));
    assert LedgerOf(st').listening == LedgerOf(st).listening;
  }

  lemma DiscardKept(st: State)
    ensures LedgerOf(Accept(st, Unusable)) == Connecting(LedgerOf(st), Unusable)
  {
  }

  lemma ConnectingKept(st: State, answer: Acceptance)
    requires Inv(st, []) && !answer.NoDescriptor?
    ensures LedgerOf(Accept(st, answer)) == Connecting(LedgerOf(st), answer)
  {
    match answer
    case Unusable => DiscardKept(st);
    case Connected(elapsed) => AdmitKept(st, elapsed);
  }

  lemma {:induction false} AcceptKept(st: State, answers: seq<Acceptance>)
    requires Inv(st, [])
    ensures LedgerOf(AcceptAll(st, answers)) == Accepting(LedgerOf(st), answers)
    decreases |answers|
  {
    if answers != [] && !answers[0].NoDescriptor? {
      AcceptOneKeeps(st, answers[0]);
      AcceptKept(Accept(st, answers[0]), answers[1..]);
      ConnectingKept(st, answers[0]);
    }
  }

  lemma TouchKept(st: State, id: nat, elapsed: nat)
    requires Inv(st, []) && id in st.live
    ensures var l, now := LedgerOf(st), st.clock + elapsed;
            var k := IndexOf(st.timers, id);
            k < |st.timers| && LedgerOf(Touch(st, k, elapsed)) ==
            l.(clock := now, seen := l.seen[id := now], log := l.log + [Served(id, now)])
  {
    var k, now := IndexOf(st.timers, id), st.clock + elapsed;
    var i :| 0 <= i < |st.timers| && KeysOf(st.timers)[i] == id;
    SeenNoted(st, Touch(st, k, elapsed), Served(id, now));
  }

  /** A client that is closed and deleted, however its timer and its registration go. */
  lemma ClosedKept(st: State, st': State, id: nat)
    requires st'.log == st.log + [Closed(id)] + [Deleted(id)] && st'.live == st.live - {id}
    requires st'.clock == st.clock && st'.nextId == st.nextId && st'.listeners == st.listeners <= id
    requires forall other :: other < st.listeners ==> (other in st'.registered <==> other in st.registered)
    ensures LedgerOf(st') == Departed(LedgerOf(st), id)
  {
    var l, l' := LedgerOf(st), LedgerOf(st');
    forall other
      ensures LastSeen(l'.log, other) == LastSeen(l.log, other)
    {
    }
    assert l'.seen == l.seen - {id};
    assert l'.listening == l.listening;
  }

  lemma {:induction false} AskedKept(st: State, ids: seq<nat>)
    ensures LedgerOf(UnregisterAll(st, ids)) == Asked(LedgerOf(st), ids)
    decreases |ids|
  {
    if ids == [] {
      assert Asked(LedgerOf(st), ids).listening == LedgerOf(st).listening;
    } else {
      var next := if ids[0] < st.listeners then Erase(st, ids[0]) else st;
      AskedKept(next, ids[1..]);
      assert LedgerOf(next).seen == LedgerOf(st).seen;
      assert LedgerOf(next).listening == LedgerOf(st).listening - {ids[0]};
      assert Asked(LedgerOf(next), ids[1..]).listening == Asked(LedgerOf(st), ids).listening;
    }
  }

  // ---------- the queues ----------

  lemma HandleKept(st: State, r: Report)
    requires Inv(st, []) && (r.id >= st.listeners ==> r.id in st.registered)
    ensures LedgerOf(Handle(st, r)) == Answering(LedgerOf(st), r, st.listeners)
  {
    if r.id < st.listeners {
      AcceptKept(st, r.acceptances);
    } else {
      assert r.id in st.live;
      if r.keep {
        TouchKept(st, r.id, r.elapsed);
      } else {
        ClosedKept(st, Handle(st, r), r.id);
      }
    }
  }

  lemma ServiceKept(st: State, r: Report)
    requires Inv(st, []) && (r.id >= st.listeners ==> r.id in st.registered)
    ensures LedgerOf(Service(st, r)) == Answering(Asked(LedgerOf(st), r.requests), r, st.listeners)
  {
    UnregisterKeeps(st, r.requests);
    AskedKept(st, r.requests);
    HandleKept(UnregisterAll(st, r.requests), r);
  }

  lemma FailureKept(st: State, r: Report)
    requires Inv(st, []) && (r.id >= st.listeners ==> r.id in st.registered) && r.error
    ensures LedgerOf(Failure(st, r)) == Failed(LedgerOf(st), r, st.listeners)
  {
    var asked := UnregisterAll(st, r.requests);
    UnregisterKeeps(st, r.requests);
    AskedKept(st, r.requests);
    if r.id < st.listeners {
      ListenerFailKept(asked, r.id);
    } else {
      ClosedKept(asked, Fail(asked, r.id), r.id);
    }
  }

  lemma ListenerFailKept(st: State, id: nat)
    requires id < st.listeners
    ensures var l := LedgerOf(st);
            LedgerOf(Fail(st, id)) == l.(listening := l.listening - {id}, log := l.log + [ListenerError(id)])
  {
    assert LedgerOf(Fail(st, id)).listening == LedgerOf(st).listening - {id};
  }

  lemma {:induction false} QueueAppend(st: State, queue: seq<Report>, r: Report)
    ensures ProcessQueue(st, queue + [r]) == Service(ProcessQueue(st, queue), r)
    decreases |queue|
  {
    if queue == [] {
      assert ProcessQueue(st, [r]) == ProcessQueue(Service(st, r), [r][1..]);
      assert queue + [r] == [r];
    } else {
      assert (queue + [r])[1..] == queue[1..] + [r];
      QueueAppend(Service(st, queue[0]), queue[1..], r);
    }
  }

  lemma {:induction false} ErrorsAppend(st: State, queue: seq<Report>, r: Report)
    ensures ProcessErrors(st, queue + [r]) == Failure(ProcessErrors(st, queue), r)
    decreases |queue|
  {
    if queue == [] {
      assert ProcessErrors(st, [r]) == ProcessErrors(Failure(st, r), [r][1..]);
      assert queue + [r] == [r];
    } else {
      assert (queue + [r])[1..] == queue[1..] + [r];
      ErrorsAppend(Failure(st, queue[0]), queue[1..], r);
    }
  }

  lemma SerialFront(st: State, reports: seq<Report>)
    requires Serviceable(st, reports) && reports != []
    ensures Serviceable(st, reports[..|reports| - 1])
    ensures var last := reports[|reports| - 1];
            && (last.id >= st.listeners ==> last.id in st.registered)
            && forall r :: r in reports[..|reports| - 1] ==> r.id != last.id
  {
    assert reports[|reports| - 1] in reports;
  }

  /** Reading the reports one by one is processing the queue that they are sorted into. */
  lemma {:induction false} QueueKept(st: State, reports: seq<Report>)
    requires Inv(st, []) && Serviceable(st, reports)
    ensures LedgerOf(ProcessQueue(st, Readable(reports))) == AllRead(LedgerOf(st), reports, st.listeners)
  {
    if reports != [] {
      var front, last := reports[..|reports| - 1], reports[|reports| - 1];
      SerialFront(st, reports);
      QueueKept(st, front);
      SplitReports(front);
      ProcessQueueKeeps(st, Readable(front));
      if !last.error && last.input {
        QueueAppend(st, Readable(front), last);
        ServiceKept(ProcessQueue(st, Readable(front)), last);
      } else {
        assert Readable(front) + [] == Readable(front);
      }
    }
  }

  lemma {:induction false} ErrorsKept(st: State, reports: seq<Report>)
    requires Inv(st, []) && Serviceable(st, Failing(reports)) && DistinctIds(reports)
    ensures LedgerOf(ProcessErrors(st, Failing(reports))) == AllFailed(LedgerOf(st), reports, st.listeners)
  {
    if reports != [] {
      var front, last := reports[..|reports| - 1], reports[|reports| - 1];
      if last.error {
        SerialFront(st, Failing(reports));
        assert Failing(reports)[..|Failing(reports)| - 1] == Failing(front);
        ErrorsKept(st, front);
        ErrorsLeave(st, Failing(front));
        ErrorsAppend(st, Failing(front), last);
        FailureKept(ProcessErrors(st, Failing(front)), last);
      } else {
        assert Failing(front) + [] == Failing(front);
        ErrorsKept(st, front);
      }
    }
  }

  /** The clients that are not in the error queue stay watched. */
  lemma {:induction false} ErrorsLeave(st: State, queue: seq<Report>)
    requires Inv(st, []) && Serviceable(st, queue)
    ensures Inv(ProcessErrors(st, queue), [])
    ensures forall id :: id in st.registered && id >= st.listeners && (forall r :: r in queue ==> r.id != id) ==>
              id in ProcessErrors(st, queue).registered
    decreases |queue|
  {
    if queue != [] {
      FailureKeeps(st, queue);
      UnregisterKeeps(st, queue[0].requests);
      FailKeeps(UnregisterAll(st, queue[0].requests), queue[0].id);
      ErrorsLeave(Failure(st, queue[0]), queue[1..]);
    }
  }

  // ---------- the timeouts ----------

  lemma {:induction false} ExpiriesAre(due: seq<Entry<nat>>, now: int)
    ensures Expirations(due, now) == Expiries(KeysOf(due), now)
  {
    if due != [] {
      ExpiriesAre(due[1..], now);
      assert KeysOf(due)[1..] == KeysOf(due[1..]);
      assert Expirations(due, now) == [Expired(due[0].key, now)] + Expirations(due[1..], now);
    }
  }

  lemma {:induction false} ClosingsAre(st: State, ids: seq<nat>)
    ensures var st' := ProcessTimeouts(st, ids);
            && st'.log == st.log + Closings(ids) && st'.live == st.live - (set id | id in ids)
            && st'.clock == st.clock && st'.nextId == st.nextId && st'.timers == st.timers
            && st'.registered == st.registered - (set id | id in ids)
    decreases |ids|
  {
    if ids != [] {
      var next := LoopModel.Expire(st, ids[0]);
      ClosingsAre(next, ids[1..]);
      assert next.log == st.log + [Closed(ids[0]), Deleted(ids[0])];
    }
  }

  lemma {:induction false} ClosingsUnseen(log: seq<Event>, ids: seq<nat>, id: nat)
    ensures LastSeen(log + Closings(ids), id) == LastSeen(log, id)
    decreases |ids|
  {
    if ids == [] {
      assert log + Closings(ids) == log;
    } else {
      var next := log + [Closed(ids[0])] + [Deleted(ids[0])];
      assert log + Closings(ids) == next + Closings(ids[1..]);
      ClosingsUnseen(next, ids[1..], id);
    }
  }

  lemma DueIsIdle(st: State, elapsed: nat)
    requires Inv(st, [])
    ensures Idle(LedgerOf(st), st.timeout, st.clock + elapsed, KeysOf(Due(st, elapsed)))
  {
    var l, now, due := LedgerOf(st), st.clock + elapsed, Due(st, elapsed);
    SplitKeys(st.timers, |due|);
    CheckoutExact(st.timers, now);
    forall i | 0 <= i < |due|
      ensures due[i].key in l.seen && l.seen[due[i].key] + st.timeout == due[i].deadline
    {
      DeadlineOf(st, i);
    }
    forall id
      ensures id in KeysOf(due) <==> id in l.seen && now - l.seen[id] >= st.timeout
    {
      DueIff(st, elapsed, id);
    }
  }

  lemma DueIff(st: State, elapsed: nat, id: nat)
    requires Inv(st, [])
    ensures var l := LedgerOf(st);
            id in KeysOf(Due(st, elapsed)) <==> id in l.seen && st.clock + elapsed - l.seen[id] >= st.timeout
  {
    var l, due := LedgerOf(st), Due(st, elapsed);
    CheckoutExact(st.timers, st.clock + elapsed);
    if id in KeysOf(due) {
      var j :| 0 <= j < |due| && KeysOf(due)[j] == id;
      DeadlineOf(st, j);
    }
    if id in l.seen {
      var i :| 0 <= i < |st.timers| && KeysOf(st.timers)[i] == id;
      DeadlineOf(st, i);
      assert i < |due| ==> KeysOf(due)[i] == id;
    }
  }

  lemma DeadlineOf(st: State, i: nat)
    requires Inv(st, []) && i < |st.timers|
    ensures var e := st.timers[i]; e.key in LedgerOf(st).seen && LedgerOf(st).seen[e.key] + st.timeout == e.deadline
  {
    var e := st.timers[i];
    assert e in st.timers && TimedEntry(st, e);
    assert KeysOf(st.timers)[i] == e.key;
  }

  /** Expiring and closing are no signs of life. */
  lemma TimeoutUnseen(log: seq<Event>, due: seq<Entry<nat>>, now: int, id: nat)
    requires Distinct(KeysOf(due))
    ensures LastSeen(log + Expiries(KeysOf(due), now) + Closings(KeysOf(due)), id) == LastSeen(log, id)
  {
    ExpiriesAre(due, now);
    ExpirationsRead(log, due, now, id);
    ClosingsUnseen(log + Expirations(due, now), KeysOf(due), id);
  }

  lemma TimedOutIs(st: State, elapsed: nat)
    ensures var st', now, ids := TimedOut(st, elapsed), st.clock + elapsed, KeysOf(Due(st, elapsed));
            && st'.log == st.log + Expiries(ids, now) + Closings(ids) && st'.clock == now
            && st'.nextId == st.nextId && st'.live == st.live - (set id | id in ids)
            && st'.registered == st.registered - (set id | id in ids) && st'.listeners == st.listeners
  {
    ExpiriesAre(Due(st, elapsed), st.clock + elapsed);
    ClosingsAre(Checkout(st, elapsed), KeysOf(Due(st, elapsed)));
  }

  lemma TimeoutKept(st: State, elapsed: nat)
    requires Inv(st, [])
    ensures LedgerOf(TimedOut(st, elapsed)) ==
            TimingOut(LedgerOf(st), KeysOf(Due(st, elapsed)), st.clock + elapsed)
  {
    var now, due := st.clock + elapsed, Due(st, elapsed);
    TimedOutIs(st, elapsed);
    SplitKeys(st.timers, |due|);
    forall id
      ensures LastSeen(TimedOut(st, elapsed).log, id) == LastSeen(st.log, id)
    {
      TimeoutUnseen(st.log, due, now, id);
    }
    SeenSame(st, TimedOut(st, elapsed), KeysOf(due));
  }

  /** Some clients have gone, and nothing else that concerns the ledger but for log and clock. */
  lemma SeenSame(st: State, st': State, ids: seq<nat>)
    requires st'.live == st.live - (set id | id in ids) && st'.registered == st.registered - (set id | id in ids)
    requires st'.listeners == st.listeners && forall id :: id in ids ==> id >= st.listeners
    requires forall id :: LastSeen(st'.log, id) == LastSeen(st.log, id)
    ensures LedgerOf(st').seen == LedgerOf(st).seen - (set id | id in ids)
    ensures LedgerOf(st').listening == LedgerOf(st).listening
  {
  }

  // ---------- iterations and runs ----------

  /** The state when the timers are checked. */
  function Waited(st: State, r: Round): State {
    var waiting := UnregisterAll(st, r.unregistered);
    UnregisterAll(Serviced(waiting, Delivered(waiting.registered, r.reports)), r.late)
  }

  lemma ServicedKept(st: State, reports: seq<Report>)
    requires Inv(st, []) && Serviceable(st, reports)
    ensures Inv(Serviced(st, reports), [])
    ensures LedgerOf(Serviced(st, reports)) ==
            AllFailed(AllRead(LedgerOf(st), reports, st.listeners), reports, st.listeners)
  {
    FailingServiceable(st, reports);
    QueueKept(st, reports);
    ErrorsKept(ProcessQueue(st, Readable(reports)), reports);
    ServiceKeeps(st, reports);
  }

  lemma WaitedKept(st: State, r: Round)
    requires Inv(st, [])
    ensures Inv(Waited(st, r), []) && LedgerOf(Waited(st, r)) == BeforeTimeouts(LedgerOf(st), r, st.listeners)
  {
    var waiting := UnregisterAll(st, r.unregistered);
    var reports := Delivered(waiting.registered, r.reports);
    UnregisterKeeps(st, r.unregistered);
    AskedKept(st, r.unregistered);
    WatchedAre(waiting);
    ServicedKept(waiting, reports);
    AskedKept(Serviced(waiting, reports), r.late);
    UnregisterKeeps(Serviced(waiting, reports), r.late);
  }

  /** One iteration does to the ledger what its inputs say. */
  lemma IterationKept(st: State, r: Round) returns (ids: seq<nat>)
    requires Inv(st, [])
    ensures RoundKept(LedgerOf(st), r, st.timeout, st.listeners, ids, LedgerOf(Iterate(st, r)))
    ensures Inv(Iterate(st, r), [])
  {
    IterateKeeps(st, r);
    var late := Waited(st, r);
    WaitedKept(st, r);
    DueIsIdle(late, r.elapsed);
    TimeoutKept(late, r.elapsed);
    ids := KeysOf(Due(late, r.elapsed));
  }

  /** What epoll watches are the listeners that are left and the clients. */
  lemma WatchedAre(st: State)
    requires Inv(st, [])
    ensures st.registered == LedgerOf(st).listening + LedgerOf(st).seen.Keys
  {
    forall id | id in st.live
      ensures id in LedgerOf(st).seen
    {
      SeenLive(st, id);
    }
  }

  /** A number of iterations, one after the other. */
  ghost predicate RoundsKept(l: Ledger, rounds: seq<Round>, timeout: nat, listeners: nat, l': Ledger)
    decreases |rounds|
  {
    if rounds == [] then l' == l
    else
      exists ids, next ::
        RoundKept(l, rounds[0], timeout, listeners, ids, next) && RoundsKept(next, rounds[1..], timeout, listeners, l')
  }

  lemma OneMoreRound(l: Ledger, rounds: seq<Round>, timeout: nat, listeners: nat, ids: seq<nat>, next: Ledger,
                     l': Ledger)
    requires rounds != [] && RoundKept(l, rounds[0], timeout, listeners, ids, next)
    requires RoundsKept(next, rounds[1..], timeout, listeners, l')
    ensures RoundsKept(l, rounds, timeout, listeners, l')
  {
  }

  /** The loop does so many iterations, and fewer than there could be only when its counter is
      zero. */
  lemma {:induction false} ExecKept(st: State, rounds: seq<Round>) returns (n: nat)
    requires Inv(st, [])
    ensures n <= |rounds| && (n < |rounds| ==> Exec(st, rounds).count == 0)
    ensures RoundsKept(LedgerOf(st), rounds[..n], st.timeout, st.listeners, LedgerOf(Exec(st, rounds)))
    decreases |rounds|
  {
    if rounds == [] || st.count == 0 {
      n := 0;
    } else {
      var next := Iterate(st, rounds[0]);
      var ids := IterationKept(st, rounds[0]);
      var m := ExecKept(next, rounds[1..]);
      n := m + 1;
      var l, l' := LedgerOf(st), LedgerOf(Exec(st, rounds));
      assert rounds[..n][1..] == rounds[1..][..m];
      OneMoreRound(l, rounds[..n], st.timeout, st.listeners, ids, LedgerOf(next), l');
    }
  }

  lemma {:induction false} RegisterKept(st: State, first: nat)
    requires first <= st.listeners
    requires forall id: nat :: id < st.listeners ==> (id in st.registered <==> id < first)
    ensures var st' := RegisterFrom(st, first);
            && (forall id: nat :: id < st.listeners ==> id in st'.registered)
            && st' == st.(registered := st'.registered, count := st'.count, surplus := st'.surplus)
    decreases st.listeners - first
  {
    if first < st.listeners {
      RegisterKept(Insert(st, first), first + 1);
    }
  }

  /** A ledger in which all listeners are watched and nothing has happened. */
  function Blank(listeners: nat, clock: int): Ledger {
    Ledger(clock, listeners, map[], UpTo(listeners), [])
  }

  /** Every run: the clock, the clients with their last sign of life, the listeners that are
      watched and the whole log are what the inputs of its iterations say. */
  lemma RunKept(timeout: nat, listeners: nat, clock: int, rounds: seq<Round>) returns (n: nat)
    ensures var st := Running(timeout, listeners, clock, rounds);
            && n <= |rounds| && (n < |rounds| ==> st.count == 0)
            && RoundsKept(Blank(listeners, clock), rounds[..n], timeout, listeners, LedgerOf(st))
  {
    var empty := Fresh(timeout, listeners, clock);
    var start := RegisterFrom(empty, 0);
    FreshInv(timeout, listeners, clock);
    RegisterKeeps(empty, 0);
    RegisterKept(empty, 0);
    assert LedgerOf(start).listening == Blank(listeners, clock).listening;
    n := ExecKept(start, rounds);
  }
}
