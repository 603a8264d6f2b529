/**
 What holds in every run of the event loop: who owns which client, the life of a client,
 how long it may be idle, and what the registration counter says.
 */
module LoopTheorems {
  import opened Sequences
  import opened TimerQueue
  import opened Wrappers
  import opened LoopModel

  // ---------- reading the log ----------

  datatype Life = Unborn | Open | Expiring | Closing | Gone | Refused | Broken

  function NextLife(l: Life, e: Event): Life {
    match (l, e)
    case (Unborn, Accepted(_, _)) => Open
    case (Unborn, Discarded(_)) => Refused
    case (Open, Served(_, _)) => Open
    case (Open, Expired(_, _)) => Expiring
    case (Open, Closed(_)) => Closing
    case (Expiring, Closed(_)) => Closing
    case (Closing, Deleted(_)) => Gone
    case _ => Broken
  }

  predicate Concerns(e: Event, id: nat) {
    !e.ListenerError? && e.id == id
  }

  /** Where the log leaves client `id`. */
  function LifeOf(log: seq<Event>, id: nat): Life {
    if log == [] then Unborn
    else
      var before := LifeOf(log[..|log| - 1], id);
      if Concerns(log[|log| - 1], id) then NextLife(before, log[|log| - 1]) else before
  }

  /** The clock reading of the last acceptance or successful service of client `id`. */
  function LastSeen(log: seq<Event>, id: nat): Option<int> {
    if log == [] then None
    else
      var e := log[|log| - 1];
      if (e.Accepted? || e.Served?) && e.id == id then Some(e.at) else LastSeen(log[..|log| - 1], id)
  }

  /** Nobody is expired before having been idle for the whole timeout. */
  ghost predicate Timely(log: seq<Event>, timeout: nat) {
    log == [] ||
    var before, e := log[..|log| - 1], log[|log| - 1];
    && Timely(before, timeout)
    && (e.Expired? ==> LastSeen(before, e.id).Some? && e.at - LastSeen(before, e.id).value >= timeout)
  }

  lemma LifeNoted(log: seq<Event>, e: Event, id: nat)
    ensures LifeOf(log + [e], id) ==
            if Concerns(e, id) then NextLife(LifeOf(log, id), e) else LifeOf(log, id)
  {
    assert (log + [e])[..|log|] == log;
  }

  lemma TimelyNoted(log: seq<Event>, e: Event, timeout: nat)
    requires Timely(log, timeout)
    requires e.Expired? ==> LastSeen(log, e.id).Some? && e.at - LastSeen(log, e.id).value >= timeout
    ensures Timely(log + [e], timeout)
  {
    assert (log + [e])[..|log|] == log;
  }

  // ---------- the invariant ----------

  /** Live clients, watched clients and the timers' user data are the same set, apart from
      clients that `checkout` has just popped and that still have to be closed. */
  ghost predicate Owned(st: State, popped: seq<nat>) {
    && Distinct(KeysOf(st.timers)) && Distinct(popped)
    && (forall id :: id in popped ==> id !in KeysOf(st.timers))
    && (forall id :: id in st.live <==> id in KeysOf(st.timers) || id in popped)
    && (forall id :: id in st.live ==> id in st.registered && st.listeners <= id < st.nextId)
    && (forall id :: id in st.registered ==> id in st.live || id < st.listeners)
    && st.listeners <= st.nextId
  }

  ghost predicate Lived(st: State, popped: seq<nat>) {
    forall id: nat :: LifeOfIs(st, popped, id)
  }

  ghost predicate LifeOfIs(st: State, popped: seq<nat>, id: nat) {
    var l := LifeOf(st.log, id);
    if id in popped then l == Expiring
    else if id in st.live then l == Open
    else if st.listeners <= id < st.nextId then l == Gone || l == Refused
    else l == Unborn
  }

  /** A deadline is the last sign of life plus the timeout. */
  ghost predicate Timed(st: State) {
    && Sorted(st.timers)
    && Timely(st.log, st.timeout)
    && forall e :: e in st.timers ==> TimedEntry(st, e)
  }

  ghost predicate TimedEntry(st: State, e: Entry<nat>) {
    e.deadline <= st.clock + st.timeout && LastSeen(st.log, e.key) == Some(e.deadline - st.timeout)
  }

  ghost predicate Counted(st: State) {
    st.count == (|st.registered| + st.surplus) % COUNT_LIMIT
  }

  ghost predicate Inv(st: State, popped: seq<nat>) {
    Owned(st, popped) && Lived(st, popped) && Timed(st) && Counted(st)
  }

  // ---------- registration ----------

  lemma InsertCounted(st: State, id: nat)
    requires Counted(st)
    ensures Counted(Insert(st, id))
  {
    if id in st.registered {
      assert st.registered + {id} == st.registered;
    }
  }

  lemma EraseCounted(st: State, id: nat)
    requires Counted(st)
    ensures Counted(Erase(st, id))
  {
    if id !in st.registered {
      assert st.registered - {id} == st.registered;
    }
  }

  /** The counter has 32 bits: below zero it goes on from the top. */
  lemma CounterWraps(st: State, id: nat)
    requires 0 <= st.count <= 0xFFFF_FFFF
    ensures Erase(st, id).count == if st.count == 0 then 0xFFFF_FFFF else st.count - 1
    ensures Insert(st, id).count == if st.count == 0xFFFF_FFFF then 0 else st.count + 1
  {
  }

  // ---------- one event at a time ----------

  /** An event only matters for the client that it is about. */
  lemma LivedNoted(st: State, popped: seq<nat>, st': State, popped': seq<nat>, e: Event)
    requires Lived(st, popped) && st'.log == st.log + [e] && st'.listeners == st.listeners
    requires e.ListenerError? || LifeOfIs(st', popped', e.id)
    requires forall id: nat :: e.ListenerError? || id != e.id ==>
               && (id in popped' <==> id in popped) && (id in st'.live <==> id in st.live)
               && (id < st'.nextId <==> id < st.nextId)
    ensures Lived(st', popped')
  {
    forall id: nat
      ensures LifeOfIs(st', popped', id)
    {
      assert LifeOfIs(st, popped, id);
      LifeNoted(st.log, e, id);
    }
  }

  /** Entries of other clients stay timed, and time may pass. */
  lemma TimedNoted(st: State, st': State, e: Event, entry: Entry<nat>)
    requires TimedEntry(st, entry)
    requires st'.log == st.log + [e] && st'.timeout == st.timeout && st.clock <= st'.clock
    requires (!e.Accepted? && !e.Served?) || e.id != entry.key
    ensures TimedEntry(st', entry)
  {
  }

  // ---------- accepting ----------

  lemma AdmitOwned(st: State, elapsed: nat)
    requires Owned(st, [])
    ensures Owned(Admit(st, elapsed), [])
  {
    var st' := Admit(st, elapsed);
    var e := Entry(st.nextId, st.clock + elapsed + st.timeout);
    var p := Rank(st.timers, e.deadline);
    KeysOfInsertAt(st.timers, p, e);
    assert st.nextId !in st.live;
    InsertAtDistinct(KeysOf(st.timers), p, e.key);
    forall id
      ensures id in KeysOf(st'.timers) <==> id == st.nextId || id in KeysOf(st.timers)
    {
      InsertAtMember(KeysOf(st.timers), p, st.nextId, id);
    }
  }

  lemma AdmitLived(st: State, elapsed: nat)
    requires Owned(st, []) && Lived(st, [])
    ensures Lived(Admit(st, elapsed), [])
  {
    var st' := Admit(st, elapsed);
    var e := Accepted(st.nextId, st'.clock);
    assert LifeOfIs(st, [], st.nextId);
    LifeNoted(st.log, e, st.nextId);
    LivedNoted(st, [], st', [], e);
  }

  lemma AdmitTimed(st: State, elapsed: nat)
    requires Owned(st, []) && Timed(st)
    ensures Timed(Admit(st, elapsed))
  {
    var st' := Admit(st, elapsed);
    var e := Entry(st.nextId, st.clock + elapsed + st.timeout);
    var accepted := Accepted(st.nextId, st'.clock);
    StartedSorted(st.timers, e);
    TimelyNoted(st.log, accepted, st.timeout);
    forall f | f in st'.timers
      ensures TimedEntry(st', f)
    {
      InsertAtMember(st.timers, Rank(st.timers, e.deadline), e, f);
      if f != e {
        TimedNoted(st, st', accepted, f);
      }
    }
  }

  lemma AdmitCounted(st: State, elapsed: nat)
    requires Counted(st) && st.nextId !in st.registered
    ensures Counted(Admit(st, elapsed)) && Admit(st, elapsed).surplus == st.surplus
  {
    InsertCounted(st, st.nextId);
    assert Admit(st, elapsed).registered == Insert(st, st.nextId).registered;
  }

  lemma AdmitKeeps(st: State, elapsed: nat)
    requires Inv(st, [])
    ensures Inv(Admit(st, elapsed), [])
    ensures Admit(st, elapsed).surplus == st.surplus
  {
    AdmitOwned(st, elapsed);
    AdmitLived(st, elapsed);
    AdmitTimed(st, elapsed);
    AdmitCounted(st, elapsed);
  }

  lemma DiscardKeeps(st: State)
    requires Inv(st, [])
    ensures Inv(Note(st.(nextId := st.nextId + 1), Discarded(st.nextId)), [])
  {
    var discarded := Discarded(st.nextId);
    var st' := Note(st.(nextId := st.nextId + 1), discarded);
    assert LifeOfIs(st, [], st.nextId);
    LifeNoted(st.log, discarded, st.nextId);
    LivedNoted(st, [], st', [], discarded);
    TimelyNoted(st.log, discarded, st.timeout);
    forall e | e in st'.timers
      ensures TimedEntry(st', e)
    {
      TimedNoted(st, st', discarded, e);
    }
  }

  lemma AcceptOneKeeps(st: State, answer: Acceptance)
    requires Inv(st, []) && !answer.NoDescriptor?
    ensures Inv(Accept(st, answer), []) && st.nextId !in st.live
    ensures Accept(st, answer).surplus == st.surplus
  {
    if answer.Unusable? {
      DiscardKeeps(st);
    } else {
      AdmitKeeps(st, answer.elapsed);
    }
  }

  lemma {:induction false} AcceptKeeps(st: State, answers: seq<Acceptance>)
    requires Inv(st, [])
    ensures Inv(AcceptAll(st, answers), [])
    ensures AcceptAll(st, answers).registered >= st.registered
    ensures AcceptAll(st, answers).surplus == st.surplus
    decreases |answers|
  {
    if answers == [] || answers[0].NoDescriptor? {
      assert AcceptAll(st, answers) == st;
    } else {
      var next := Accept(st, answers[0]);
      assert AcceptAll(st, answers) == AcceptAll(next, answers[1..]);
      AcceptOneKeeps(st, answers[0]);
      AcceptKeeps(next, answers[1..]);
    }
  }

  // ---------- serving ----------

  /** After a restart an entry is the restarted one or one of the others as it was. */
  lemma RestartedMember(q: seq<Entry<nat>>, k: nat, d: int, e: Entry<nat>)
    requires k < |q| && Distinct(KeysOf(q))
    ensures e in Restarted(q, k, d) <==> if e.key == q[k].key then e.deadline == d else e in q
  {
    var u := q[k := Entry(q[k].key, d)];
    RestartedAt(q, k, d);
    MoveToElements(u, k, Rank(u, d));
    assert multiset(Restarted(q, k, d)) == multiset(u);
    assert e in Restarted(q, k, d) <==> e in multiset(u);
  }

  lemma TouchOwned(st: State, k: nat, elapsed: nat)
    requires Owned(st, []) && k < |st.timers|
    ensures Owned(Touch(st, k, elapsed), [])
  {
    var st' := Touch(st, k, elapsed);
    RestartedElements(st.timers, k, st'.clock + st.timeout);
    SameElementsDistinct(KeysOf(st.timers), KeysOf(st'.timers));
  }

  lemma TouchTimedEntry(st: State, k: nat, elapsed: nat, e: Entry<nat>)
    requires Distinct(KeysOf(st.timers)) && Timed(st) && k < |st.timers|
    requires e in Touch(st, k, elapsed).timers
    ensures TimedEntry(Touch(st, k, elapsed), e)
  {
    var st' := Touch(st, k, elapsed);
    var id := st.timers[k].key;
    RestartedMember(st.timers, k, st'.clock + st.timeout, e);
    if e.key != id {
      TimedNoted(st, st', Served(id, st'.clock), e);
    }
  }

  lemma TouchTimed(st: State, k: nat, elapsed: nat)
    requires Distinct(KeysOf(st.timers)) && Timed(st) && k < |st.timers|
    ensures Timed(Touch(st, k, elapsed))
  {
    var st' := Touch(st, k, elapsed);
    assert TimedEntry(st, st.timers[k]);
    RestartedSorted(st.timers, k, st'.clock + st.timeout);
    TimelyNoted(st.log, Served(st.timers[k].key, st'.clock), st.timeout);
    forall e | e in st'.timers
      ensures TimedEntry(st', e)
    {
      TouchTimedEntry(st, k, elapsed, e);
    }
  }

  lemma TouchKeeps(st: State, k: nat, elapsed: nat)
    requires Inv(st, []) && k < |st.timers|
    ensures Inv(Touch(st, k, elapsed), [])
  {
    var st' := Touch(st, k, elapsed);
    var id := st.timers[k].key;
    TouchOwned(st, k, elapsed);
    TouchTimed(st, k, elapsed);
    assert KeysOf(st.timers)[k] == id;
    assert LifeOfIs(st, [], id);
    LifeNoted(st.log, Served(id, st'.clock), id);
    LivedNoted(st, [], st', [], Served(id, st'.clock));
  }

  // ---------- closing ----------

  /** A client is closed and deleted: what happens to its own life and to that of the others. */
  lemma ClosedLived(st: State, popped: seq<nat>, st': State, popped': seq<nat>, id: nat)
    requires Lived(st, popped) && id in st.live && st.listeners <= id < st.nextId
    requires st'.log == st.log + [Closed(id)] + [Deleted(id)]
    requires st'.live == st.live - {id} && st'.nextId == st.nextId && st'.listeners == st.listeners
    requires id !in popped'
    requires forall other :: other != id ==> (other in popped' <==> other in popped)
    ensures Lived(st', popped')
  {
    forall other: nat
      ensures LifeOfIs(st', popped', other)
    {
      assert LifeOfIs(st, popped, other);
      LifeNoted(st.log, Closed(id), other);
      LifeNoted(st.log + [Closed(id)], Deleted(id), other);
    }
  }

  lemma ClosedTimed(st: State, st': State, id: nat)
    requires Timed(st)
    requires st'.log == st.log + [Closed(id)] + [Deleted(id)]
    requires st'.timeout == st.timeout && st'.clock == st.clock
    requires Sorted(st'.timers) && forall e :: e in st'.timers ==> e in st.timers
    ensures Timed(st')
  {
    TimelyNoted(st.log, Closed(id), st.timeout);
    TimelyNoted(st.log + [Closed(id)], Deleted(id), st.timeout);
    forall e | e in st'.timers
      ensures TimedEntry(st', e)
    {
      assert TimedEntry(st, e);
    }
  }

  lemma StopTimerKeeps(st: State, id: nat)
    requires Distinct(KeysOf(st.timers)) && id in KeysOf(st.timers)
    ensures var st' := StopTimer(st, id);
            && Distinct(KeysOf(st'.timers))
            && (Sorted(st.timers) ==> Sorted(st'.timers))
            && (forall other :: other in KeysOf(st'.timers) <==> other in KeysOf(st.timers) && other != id)
            && (forall e :: e in st'.timers ==> e in st.timers)
            && st' == st.(timers := st'.timers)
  {
    var k := IndexOf(st.timers, id);
    RemovedTable(st.timers, k);
    KeysOfRemoveAt(st.timers, k);
    forall other
      ensures other in RemoveAt(KeysOf(st.timers), k) <==> other in KeysOf(st.timers) && other != id
    {
      RemoveAtMember(KeysOf(st.timers), k, other);
    }
    forall e
      ensures e in RemoveAt(st.timers, k) ==> e in st.timers
    {
      RemoveAtMember(st.timers, k, e);
    }
  }

  /** The client is erased, stopped, closed and deleted; the order does not matter here. */
  function CloseClient(st: State, id: nat): State {
    var stopped := StopTimer(Erase(st, id), id);
    stopped.(live := st.live - {id}, log := st.log + [Closed(id)] + [Deleted(id)])
  }

  lemma CloseKeeps(st: State, id: nat)
    requires Inv(st, []) && id in st.live
    ensures Inv(CloseClient(st, id), [])
    ensures CloseClient(st, id).registered == st.registered - {id}
    ensures CloseClient(st, id).surplus == st.surplus
  {
    var st' := CloseClient(st, id);
    StopTimerKeeps(Erase(st, id), id);
    ClosedLived(st, [], st', [], id);
    ClosedTimed(st, st', id);
    EraseCounted(st, id);
  }

  lemma ListenerFailKeeps(st: State, id: nat)
    requires Inv(st, []) && id < st.listeners
    ensures Inv(Fail(st, id), [])
  {
    var st' := Fail(st, id);
    EraseCounted(st, id);
    LivedNoted(st, [], st', [], ListenerError(id));
    TimelyNoted(st.log, ListenerError(id), st.timeout);
    forall e | e in st'.timers
      ensures TimedEntry(st', e)
    {
      TimedNoted(st, st', ListenerError(id), e);
    }
  }

  // ---------- the phases ----------

  /** Each descriptor is reported once, and the clients among them are watched. */
  ghost predicate Serviceable(st: State, queue: seq<Report>) {
    && (forall r :: r in queue && r.id >= st.listeners ==> r.id in st.registered)
    && DistinctIds(queue)
  }

  ghost predicate DistinctIds(queue: seq<Report>) {
    forall i, j :: 0 <= i < j < |queue| ==> queue[i].id != queue[j].id
  }

  /** Handling one entry leaves every other client and every listener as it was. */
  lemma HandleKeeps(st: State, r: Report)
    requires Inv(st, []) && (r.id >= st.listeners ==> r.id in st.registered)
    ensures var st' := Handle(st, r);
            && Inv(st', []) && st'.surplus == st.surplus && st'.registered >= st.registered - {r.id}
            && forall id :: id < st.listeners ==> (id in st'.registered <==> id in st.registered)
  {
    if r.id < st.listeners {
      AcceptKeeps(st, r.acceptances);
      AcceptKeepsListeners(st, r.acceptances);
    } else {
      assert r.id in st.live;
      if r.keep {
        TouchKeeps(st, IndexOf(st.timers, r.id), r.elapsed);
      } else {
        CloseKeeps(st, r.id);
      }
    }
  }

  lemma {:induction false} AcceptKeepsListeners(st: State, answers: seq<Acceptance>)
    requires st.listeners <= st.nextId
    ensures var st' := AcceptAll(st, answers);
            forall id :: id < st.listeners ==> (id in st'.registered <==> id in st.registered)
    decreases |answers|
  {
    if answers != [] && !answers[0].NoDescriptor? {
      var next := Accept(st, answers[0]);
      assert AcceptAll(st, answers) == AcceptAll(next, answers[1..]);
      AcceptKeepsListeners(next, answers[1..]);
    }
  }

  /** One entry of the queue, with the requests in front of it, leaves all other clients watched. */
  lemma ServeKeeps(st: State, r: Report)
    requires Inv(st, []) && (r.id >= st.listeners ==> r.id in st.registered)
    ensures var st' := Service(st, r);
            && Inv(st', [])
            && forall id :: id in st.registered && id >= st.listeners && id != r.id ==> id in st'.registered
  {
    UnregisterKeeps(st, r.requests);
    HandleKeeps(UnregisterAll(st, r.requests), r);
  }

  lemma {:induction false} ProcessQueueKeeps(st: State, queue: seq<Report>)
    requires Inv(st, []) && Serviceable(st, queue)
    ensures Inv(ProcessQueue(st, queue), [])
    ensures forall id :: id in st.registered && id >= st.listeners && (forall r :: r in queue ==> r.id != id) ==>
              id in ProcessQueue(st, queue).registered
    decreases |queue|
  {
    if queue != [] {
      var next := Service(st, queue[0]);
      assert ProcessQueue(st, queue) == ProcessQueue(next, queue[1..]);
      ServeKeeps(st, queue[0]);
      ServiceableTail(st, queue);
      ProcessQueueKeeps(next, queue[1..]);
    }
  }

  lemma ServiceableTail(st: State, queue: seq<Report>)
    requires Inv(st, []) && Serviceable(st, queue) && queue != []
    ensures Serviceable(Service(st, queue[0]), queue[1..])
  {
    ServeKeeps(st, queue[0]);
    assert forall i :: 0 <= i < |queue| - 1 ==> queue[1..][i] == queue[i + 1];
  }

  /** What servicing a descriptor relies on: that its socket exists and, for a client, that
      its timer is in the list, once. */
  ghost predicate UsableSocket(st: State, id: nat) {
    if id < st.listeners then forall other :: other in st.live ==> other < st.nextId
    else id in st.live && id in KeysOf(st.timers) && Distinct(KeysOf(st.timers))
  }

  /** At each entry of the queue the socket can still be used, when its turn comes. */
  ghost predicate QueueUsable(st: State, queue: seq<Report>)
    decreases |queue|
  {
    queue == [] ||
    (UsableSocket(UnregisterAll(st, queue[0].requests), queue[0].id) && QueueUsable(Service(st, queue[0]), queue[1..]))
  }

  ghost predicate ErrorsUsable(st: State, queue: seq<Report>)
    decreases |queue|
  {
    queue == [] ||
    (UsableSocket(UnregisterAll(st, queue[0].requests), queue[0].id) && ErrorsUsable(Failure(st, queue[0]), queue[1..]))
  }

  ghost predicate ExpiryUsable(st: State, queue: seq<nat>)
    decreases |queue|
  {
    queue == [] ||
    (queue[0] in st.live && queue[0] !in KeysOf(st.timers) && ExpiryUsable(LoopModel.Expire(st, queue[0]), queue[1..]))
  }

  lemma {:induction false} QueueIsUsable(st: State, queue: seq<Report>)
    requires Inv(st, []) && Serviceable(st, queue)
    ensures QueueUsable(st, queue)
    decreases |queue|
  {
    if queue != [] {
      UnregisterKeeps(st, queue[0].requests);
      ServeKeeps(st, queue[0]);
      ServiceableTail(st, queue);
      QueueIsUsable(Service(st, queue[0]), queue[1..]);
    }
  }

  lemma {:induction false} ErrorsAreUsable(st: State, queue: seq<Report>)
    requires Inv(st, []) && Serviceable(st, queue)
    ensures ErrorsUsable(st, queue)
    decreases |queue|
  {
    if queue != [] {
      UnregisterKeeps(st, queue[0].requests);
      FailureKeeps(st, queue);
      ErrorsAreUsable(Failure(st, queue[0]), queue[1..]);
    }
  }

  lemma {:induction false} ExpiryIsUsable(st: State, popped: seq<nat>)
    requires Inv(st, popped)
    ensures ExpiryUsable(st, popped)
    decreases |popped|
  {
    if popped != [] {
      ExpireKeeps(st, popped);
      ExpiryIsUsable(LoopModel.Expire(st, popped[0]), popped[1..]);
    }
  }

  lemma FailKeeps(st: State, id: nat)
    requires Inv(st, []) && (id >= st.listeners ==> id in st.registered)
    ensures Inv(Fail(st, id), [])
    ensures Fail(st, id).registered == st.registered - {id}
    ensures Fail(st, id).surplus == if id in st.registered then st.surplus else st.surplus - 1
  {
    if id < st.listeners {
      ListenerFailKeeps(st, id);
    } else {
      CloseKeeps(st, id);
    }
  }

  lemma FailureKeeps(st: State, queue: seq<Report>)
    requires Inv(st, []) && Serviceable(st, queue) && queue != []
    ensures Inv(Failure(st, queue[0]), []) && Serviceable(Failure(st, queue[0]), queue[1..])
  {
    UnregisterKeeps(st, queue[0].requests);
    FailKeeps(UnregisterAll(st, queue[0].requests), queue[0].id);
    assert forall i :: 0 <= i < |queue| - 1 ==> queue[1..][i] == queue[i + 1];
  }

  lemma {:induction false} ProcessErrorsKeeps(st: State, queue: seq<Report>)
    requires Inv(st, []) && Serviceable(st, queue)
    ensures Inv(ProcessErrors(st, queue), [])
    decreases |queue|
  {
    if queue == [] {
      assert ProcessErrors(st, queue) == st;
    } else {
      var next := Failure(st, queue[0]);
      assert ProcessErrors(st, queue) == ProcessErrors(next, queue[1..]);
      FailureKeeps(st, queue);
      ProcessErrorsKeeps(next, queue[1..]);
    }
  }

  /** The split by flags: the two queues never share a descriptor. */
  lemma {:induction false} SplitReports(reports: seq<Report>)
    requires DistinctIds(reports)
    ensures DistinctIds(Readable(reports)) && DistinctIds(Failing(reports))
    ensures forall r :: r in Readable(reports) <==> r in reports && !r.error && r.input
    ensures forall r :: r in Failing(reports) <==> r in reports && r.error
    ensures forall r, f :: r in Readable(reports) && f in Failing(reports) ==> r.id != f.id
  {
    ReadableReports(reports);
    FailingReports(reports);
    forall r, f | r in Readable(reports) && f in Failing(reports)
      ensures r.id != f.id
    {
      assert r != f;
      var i :| 0 <= i < |reports| && reports[i] == r;
      var j :| 0 <= j < |reports| && reports[j] == f;
      assert i != j;
    }
  }

  lemma {:induction false} ReadableReports(reports: seq<Report>)
    requires DistinctIds(reports)
    ensures DistinctIds(Readable(reports))
    ensures forall r :: r in Readable(reports) <==> r in reports && !r.error && r.input
  {
    if reports != [] {
      ReadableReports(reports[..|reports| - 1]);
      assert reports == reports[..|reports| - 1] + [reports[|reports| - 1]];
    }
  }

  lemma {:induction false} FailingReports(reports: seq<Report>)
    requires DistinctIds(reports)
    ensures DistinctIds(Failing(reports)) && forall r :: r in Failing(reports) <==> r in reports && r.error
  {
    if reports != [] {
      FailingReports(reports[..|reports| - 1]);
      assert reports == reports[..|reports| - 1] + [reports[|reports| - 1]];
    }
  }

  // ---------- checkout ----------

  lemma {:induction false} ExpirationsRead(log: seq<Event>, due: seq<Entry<nat>>, now: int, id: nat)
    requires Distinct(KeysOf(due))
    ensures LastSeen(log + Expirations(due, now), id) == LastSeen(log, id)
    ensures LifeOf(log + Expirations(due, now), id) ==
            if id in KeysOf(due) then NextLife(LifeOf(log, id), Expired(id, now)) else LifeOf(log, id)
  {
    if due == [] {
      assert log + Expirations(due, now) == log;
    } else {
      var m := |due| - 1;
      var shorter := due[..m];
      ExpirationsRead(log, shorter, now, id);
      var before := log + Expirations(shorter, now);
      assert log + Expirations(due, now) == before + [Expired(due[m].key, now)];
      LifeNoted(before, Expired(due[m].key, now), id);
      assert KeysOf(due) == KeysOf(shorter) + [due[m].key];
      assert forall i :: 0 <= i < m ==> KeysOf(due)[i] != KeysOf(due)[m];
    }
  }

  lemma {:induction false} ExpirationsTimely(log: seq<Event>, due: seq<Entry<nat>>, now: int, timeout: nat)
    requires Distinct(KeysOf(due)) && Timely(log, timeout)
    requires forall e :: e in due ==> e.deadline <= now && LastSeen(log, e.key) == Some(e.deadline - timeout)
    ensures Timely(log + Expirations(due, now), timeout)
  {
    if due == [] {
      assert log + Expirations(due, now) == log;
    } else {
      var m := |due| - 1;
      var shorter := due[..m];
      assert KeysOf(due) == KeysOf(shorter) + [due[m].key];
      ExpirationsTimely(log, shorter, now, timeout);
      ExpirationsRead(log, shorter, now, due[m].key);
      var before := log + Expirations(shorter, now);
      assert log + Expirations(due, now) == before + [Expired(due[m].key, now)];
      assert due[m] in due;
      TimelyNoted(before, Expired(due[m].key, now), timeout);
    }
  }

  lemma SplitKeys(q: seq<Entry<nat>>, n: nat)
    requires n <= |q| && Distinct(KeysOf(q))
    ensures Distinct(KeysOf(q[..n])) && Distinct(KeysOf(q[n..]))
    ensures forall id :: id in KeysOf(q) <==> id in KeysOf(q[..n]) || id in KeysOf(q[n..])
    ensures forall id :: id in KeysOf(q[..n]) ==> id !in KeysOf(q[n..])
  {
    assert KeysOf(q) == KeysOf(q[..n]) + KeysOf(q[n..]);
  }

  lemma CheckoutTimely(st: State, elapsed: nat)
    requires Distinct(KeysOf(st.timers)) && Timed(st)
    ensures Timely(Checkout(st, elapsed).log, st.timeout)
  {
    var now := st.clock + elapsed;
    var due := Due(st, elapsed);
    SplitKeys(st.timers, |due|);
    forall e | e in due
      ensures e.deadline <= now && LastSeen(st.log, e.key) == Some(e.deadline - st.timeout)
    {
      assert TimedEntry(st, e);
    }
    ExpirationsTimely(st.log, due, now, st.timeout);
  }

  lemma CheckoutTimedEntry(st: State, elapsed: nat, e: Entry<nat>)
    requires Distinct(KeysOf(st.timers)) && TimedEntry(st, e)
    ensures TimedEntry(Checkout(st, elapsed), e)
  {
    SplitKeys(st.timers, |Due(st, elapsed)|);
    ExpirationsRead(st.log, Due(st, elapsed), st.clock + elapsed, e.key);
  }

  lemma CheckoutTimed(st: State, elapsed: nat)
    requires Distinct(KeysOf(st.timers)) && Timed(st)
    ensures Timed(Checkout(st, elapsed))
  {
    CheckoutExact(st.timers, st.clock + elapsed);
    CheckoutTimely(st, elapsed);
    forall e | e in Checkout(st, elapsed).timers
      ensures TimedEntry(Checkout(st, elapsed), e)
    {
      assert e in st.timers;
      CheckoutTimedEntry(st, elapsed, e);
    }
  }

  lemma CheckoutKeeps(st: State, elapsed: nat)
    requires Inv(st, [])
    ensures Inv(Checkout(st, elapsed), KeysOf(Due(st, elapsed)))
  {
    var st' := Checkout(st, elapsed);
    var due := Due(st, elapsed);
    SplitKeys(st.timers, |due|);
    CheckoutTimed(st, elapsed);
    assert Lived(st', KeysOf(due)) by {
      forall id: nat
        ensures LifeOfIs(st', KeysOf(due), id)
      {
        assert LifeOfIs(st, [], id);
        ExpirationsRead(st.log, due, st'.clock, id);
      }
    }
  }

  lemma ExpireKeeps(st: State, popped: seq<nat>)
    requires Inv(st, popped) && popped != []
    ensures Inv(Expire(st, popped[0]), popped[1..])
    ensures Expire(st, popped[0]).surplus == st.surplus
  {
    var id := popped[0];
    var st' := Expire(st, id);
    ClosedLived(st, popped, st', popped[1..], id);
    ClosedTimed(st, st', id);
    EraseCounted(st, id);
  }

  lemma {:induction false} ProcessTimeoutsKeeps(st: State, popped: seq<nat>)
    requires Inv(st, popped)
    ensures Inv(ProcessTimeouts(st, popped), [])
    ensures ProcessTimeouts(st, popped).surplus == st.surplus
    ensures ProcessTimeouts(st, popped).timers == st.timers
    ensures ProcessTimeouts(st, popped).clock == st.clock
    decreases |popped|
  {
    if popped == [] {
      assert ProcessTimeouts(st, popped) == st;
    } else {
      var next := Expire(st, popped[0]);
      assert ProcessTimeouts(st, popped) == ProcessTimeouts(next, popped[1..]);
      ExpireKeeps(st, popped);
      ProcessTimeoutsKeeps(next, popped[1..]);
    }
  }

  // ---------- runs ----------

  /** No remaining client has been idle for the timeout or longer. */
  ghost predicate NobodyOverdue(st: State) {
    forall id :: id in st.live ==>
      LastSeen(st.log, id).Some? && st.clock - LastSeen(st.log, id).value < st.timeout
  }

  lemma CheckoutLeavesRecent(st: State, elapsed: nat)
    requires Sorted(st.timers)
    ensures var st' := Checkout(st, elapsed); forall e :: e in st'.timers ==> st'.clock < e.deadline
  {
    CheckoutExact(st.timers, st.clock + elapsed);
  }

  lemma RecentNotOverdue(st: State)
    requires Inv(st, []) && forall e :: e in st.timers ==> st.clock < e.deadline
    ensures NobodyOverdue(st)
  {
    forall id | id in st.live
      ensures LastSeen(st.log, id).Some? && st.clock - LastSeen(st.log, id).value < st.timeout
    {
      var e := st.timers[IndexOf(st.timers, id)];
      assert e in st.timers && TimedEntry(st, e);
    }
  }

  lemma {:induction false} UnregisterKeeps(st: State, ids: seq<nat>)
    requires Inv(st, [])
    ensures Inv(UnregisterAll(st, ids), [])
    ensures UnregisterAll(st, ids).registered <= st.registered
    ensures forall id :: id >= st.listeners ==> (id in UnregisterAll(st, ids).registered <==> id in st.registered)
    decreases |ids|
  {
    if ids == [] {
      assert UnregisterAll(st, ids) == st;
    } else {
      var next := if ids[0] < st.listeners then Erase(st, ids[0]) else st;
      assert UnregisterAll(st, ids) == UnregisterAll(next, ids[1..]);
      EraseCounted(st, ids[0]);
      if ids[0] < st.listeners {
        ErasedListener(st, ids[0]);
      }
      UnregisterKeeps(next, ids[1..]);
    }
  }

  lemma ErasedListener(st: State, id: nat)
    requires Inv(st, []) && id < st.listeners
    ensures Inv(Erase(st, id), [])
  {
    EraseCounted(st, id);
    SameLogKeeps(st, Erase(st, id));
  }

  /** Watching a listener or not says nothing about the clients. */
  lemma SameLogKeeps(st: State, st': State)
    requires Inv(st, [])
    requires st' == st.(registered := st'.registered, count := st'.count, surplus := st'.surplus)
    requires forall id :: id >= st.listeners ==> (id in st'.registered <==> id in st.registered)
    requires Counted(st')
    ensures Inv(st', [])
  {
    forall id: nat
      ensures LifeOfIs(st', [], id)
    {
      assert LifeOfIs(st, [], id);
    }
    forall e | e in st'.timers
      ensures TimedEntry(st', e)
    {
      assert TimedEntry(st, e);
    }
  }

  /** The failing clients are still registered when the error queue is processed. */
  lemma FailingServiceable(st: State, reports: seq<Report>)
    requires Inv(st, []) && Serviceable(st, reports)
    ensures Serviceable(st, Readable(reports)) && Inv(ProcessQueue(st, Readable(reports)), [])
    ensures Serviceable(ProcessQueue(st, Readable(reports)), Failing(reports))
  {
    SplitReports(reports);
    ProcessQueueKeeps(st, Readable(reports));
  }

  lemma ServiceKeeps(st: State, reports: seq<Report>)
    requires Inv(st, []) && Serviceable(st, reports)
    ensures Inv(Serviced(st, reports), [])
  {
    FailingServiceable(st, reports);
    ProcessErrorsKeeps(ProcessQueue(st, Readable(reports)), Failing(reports));
  }

  lemma TimedOutKeeps(st: State, elapsed: nat)
    requires Inv(st, [])
    ensures Inv(TimedOut(st, elapsed), []) && NobodyOverdue(TimedOut(st, elapsed))
    ensures TimedOut(st, elapsed).surplus == st.surplus
    ensures ExpiryUsable(Checkout(st, elapsed), KeysOf(Due(st, elapsed)))
  {
    var out, due := Checkout(st, elapsed), KeysOf(Due(st, elapsed));
    CheckoutKeeps(st, elapsed);
    CheckoutLeavesRecent(st, elapsed);
    ExpiryIsUsable(out, due);
    ProcessTimeoutsKeeps(out, due);
    RecentNotOverdue(TimedOut(st, elapsed));
  }

  /** What every iteration keeps, and that it leaves no client behind that is overdue. */
  lemma IterateKeeps(st: State, r: Round)
    requires Inv(st, [])
    ensures Inv(Iterate(st, r), []) && NobodyOverdue(Iterate(st, r))
  {
    UnregisterKeeps(st, r.unregistered);
    var waiting := UnregisterAll(st, r.unregistered);
    var reports := Delivered(waiting.registered, r.reports);
    ServiceKeeps(waiting, reports);
    UnregisterKeeps(Serviced(waiting, reports), r.late);
    TimedOutKeeps(UnregisterAll(Serviced(waiting, reports), r.late), r.elapsed);
  }

  ghost predicate ServiceUsable(st: State, reports: seq<Report>) {
    && QueueUsable(st, Readable(reports))
    && ErrorsUsable(LoopModel.ProcessQueue(st, Readable(reports)), Failing(reports))
  }

  ghost predicate TimeoutUsable(st: State, elapsed: nat) {
    ExpiryUsable(Checkout(st, elapsed), KeysOf(Due(st, elapsed)))
  }

  /** In every iteration, every socket that is used can be used. */
  ghost predicate RoundsUsable(st: State, rounds: seq<Round>)
    decreases |rounds|
  {
    rounds == [] || st.count == 0 ||
    var waiting := UnregisterAll(st, rounds[0].unregistered);
    var reports := Delivered(waiting.registered, rounds[0].reports);
    && ServiceUsable(waiting, reports)
    && TimeoutUsable(UnregisterAll(Serviced(waiting, reports), rounds[0].late), rounds[0].elapsed)
    && RoundsUsable(Iterate(st, rounds[0]), rounds[1..])
  }

  /** The states between the iterations of a run that ends in `goal`. */
  ghost predicate Trace(states: seq<State>, rounds: seq<Round>, goal: State) {
    && 0 < |states| <= |rounds| + 1 && states[|states| - 1] == goal
    && (|states| <= |rounds| ==> goal.count == 0)
    && forall k :: 0 <= k < |states| - 1 ==> Linked(states, rounds, k)
  }

  ghost predicate Linked(states: seq<State>, rounds: seq<Round>, k: nat) {
    && k + 1 < |states| && k < |rounds| && states[k].count != 0
    && RoundsUsable(states[k], [rounds[k]]) && states[k + 1] == Iterate(states[k], rounds[k])
  }

  lemma {:induction false} TraceOf(st: State, rounds: seq<Round>) returns (states: seq<State>)
    requires RoundsUsable(st, rounds)
    ensures Trace(states, rounds, Exec(st, rounds)) && states[0] == st
    decreases |rounds|
  {
    if rounds == [] || st.count == 0 {
      states := [st];
    } else {
      var rest := TraceOf(Iterate(st, rounds[0]), rounds[1..]);
      TraceCons(st, rest, rounds, Exec(st, rounds));
      states := [st] + rest;
    }
  }

  lemma {:induction false} TraceCons(st: State, rest: seq<State>, rounds: seq<Round>, goal: State)
    requires rounds != [] && st.count != 0 && RoundsUsable(st, [rounds[0]])
    requires Trace(rest, rounds[1..], goal) && rest[0] == Iterate(st, rounds[0])
    ensures Trace([st] + rest, rounds, goal)
  {
    var states := [st] + rest;
    assert Linked(states, rounds, 0);
    forall k | 0 < k < |states| - 1
      ensures Linked(states, rounds, k)
    {
      assert Linked(rest, rounds[1..], k - 1);
    }
  }

  /** The loop stops where the trace does. */
  lemma TraceEnds(states: seq<State>, rounds: seq<Round>, goal: State, i: nat)
    requires Trace(states, rounds, goal) && i < |states|
    ensures i < |rounds| && states[i].count != 0 <==> i < |states| - 1
  {
    assert i < |states| - 1 ==> Linked(states, rounds, i);
  }

  lemma ServiceIsUsable(st: State, reports: seq<Report>)
    requires Inv(st, []) && Serviceable(st, reports)
    ensures ServiceUsable(st, reports)
  {
    FailingServiceable(st, reports);
    QueueIsUsable(st, Readable(reports));
    ErrorsAreUsable(LoopModel.ProcessQueue(st, Readable(reports)), Failing(reports));
  }

  lemma {:induction false} RoundsAreUsable(st: State, rounds: seq<Round>)
    requires Inv(st, [])
    ensures RoundsUsable(st, rounds)
    decreases |rounds|
  {
    if rounds != [] && st.count != 0 {
      UnregisterKeeps(st, rounds[0].unregistered);
      var waiting := UnregisterAll(st, rounds[0].unregistered);
      var reports := Delivered(waiting.registered, rounds[0].reports);
      ServiceIsUsable(waiting, reports);
      ServiceKeeps(waiting, reports);
      UnregisterKeeps(Serviced(waiting, reports), rounds[0].late);
      TimedOutKeeps(UnregisterAll(Serviced(waiting, reports), rounds[0].late), rounds[0].elapsed);
      IterateKeeps(st, rounds[0]);
      RoundsAreUsable(Iterate(st, rounds[0]), rounds[1..]);
    }
  }

  lemma {:induction false} ExecKeeps(st: State, rounds: seq<Round>)
    requires Inv(st, [])
    ensures Inv(Exec(st, rounds), [])
    ensures NobodyOverdue(st) || (rounds != [] && st.count != 0) ==> NobodyOverdue(Exec(st, rounds))
    decreases |rounds|
  {
    if rounds == [] || st.count == 0 {
      assert Exec(st, rounds) == st;
    } else {
      var next := Iterate(st, rounds[0]);
      assert Exec(st, rounds) == Exec(next, rounds[1..]);
      IterateKeeps(st, rounds[0]);
      ExecKeeps(next, rounds[1..]);
    }
  }

  lemma FreshInv(timeout: nat, listeners: nat, clock: int)
    ensures Inv(Fresh(timeout, listeners, clock), [])
  {
    forall id: nat
      ensures LifeOfIs(Fresh(timeout, listeners, clock), [], id)
    {
    }
  }

  lemma {:induction false} RegisterKeeps(st: State, first: nat)
    requires Inv(st, [])
    ensures Inv(RegisterFrom(st, first), [])
    decreases st.listeners - first
  {
    if first >= st.listeners {
      assert RegisterFrom(st, first) == st;
    } else {
      var next := Insert(st, first);
      assert RegisterFrom(st, first) == RegisterFrom(next, first + 1);
      InsertCounted(st, first);
      SameLogKeeps(st, next);
      RegisterKeeps(next, first + 1);
    }
  }

  /** The ownership invariant in every run: between iterations the live clients, the watched
      clients and the timers' user data are the same set, every client is open, no deadline is
      out of place, and nobody is overdue. */
  lemma RunOwnership(timeout: nat, listeners: nat, clock: int, rounds: seq<Round>)
    ensures var st := Running(timeout, listeners, clock, rounds);
            && Inv(st, [])
            && st.live == (set id | id in KeysOf(st.timers))
            && st.live == (set id | id in st.registered && id >= st.listeners)
            && (forall id: nat :: id in st.live <==> LifeOf(st.log, id) == Open)
            && NobodyOverdue(st)
  {
    var empty := Fresh(timeout, listeners, clock);
    FreshInv(timeout, listeners, clock);
    RegisterKeeps(empty, 0);
    RegisterTouchesNoClient(empty, 0);
    ExecKeeps(RegisterFrom(empty, 0), rounds);
    var st := Running(timeout, listeners, clock, rounds);
    forall id: nat
      ensures id in st.live <==> LifeOf(st.log, id) == Open
    {
      assert LifeOfIs(st, [], id);
    }
    forall id
      ensures id in st.live <==> id in st.registered && id >= st.listeners
    {
    }
  }

  // ---------- requests at other moments ----------

  lemma EraseErase(st: State, a: nat, b: nat)
    requires a != b
    ensures Erase(Erase(st, a), b) == Erase(Erase(st, b), a)
  {
    assert (st.registered - {a}) - {b} == (st.registered - {b}) - {a};
  }

  lemma AdmitCommutes(st: State, elapsed: nat, id: nat)
    requires id < st.nextId
    ensures Admit(Erase(st, id), elapsed) == Erase(Admit(st, elapsed), id)
  {
  }

  lemma {:induction false} AcceptCommutes(st: State, answers: seq<Acceptance>, id: nat)
    requires id < st.nextId
    ensures AcceptAll(Erase(st, id), answers) == Erase(AcceptAll(st, answers), id)
    decreases |answers|
  {
    if answers != [] && !answers[0].NoDescriptor? {
      if answers[0].Connected? {
        AdmitCommutes(st, answers[0].elapsed, id);
      }
      assert Accept(Erase(st, id), answers[0]) == Erase(Accept(st, answers[0]), id);
      AcceptCommutes(Accept(st, answers[0]), answers[1..], id);
    }
  }

  /** A request commutes with the handling of any socket of the queue, so it makes no difference
      at which moment of it the request falls ... */
  lemma HandleCommutes(st: State, r: Report, id: nat)
    requires id < st.listeners <= st.nextId
    ensures Handle(Erase(st, id), r) == Erase(Handle(st, r), id)
  {
    if r.id < st.listeners {
      AcceptCommutes(st, r.acceptances, id);
    } else if !r.keep {
      EraseErase(Note(st, Closed(r.id)), id, r.id);
    }
  }

  /** ... and so with that of any other socket of the error queue, and of the timeout queue. */
  lemma FailCommutes(st: State, other: nat, id: nat)
    requires id < st.listeners && other != id
    ensures Fail(Erase(st, id), other) == Erase(Fail(st, other), id)
  {
    EraseErase(st, id, other);
  }

  lemma ExpireCommutes(st: State, client: nat, id: nat)
    requires id < st.listeners <= client
    ensures LoopModel.Expire(Erase(st, id), client) == Erase(LoopModel.Expire(st, client), id)
  {
    EraseErase(st, id, client);
  }

  // ---------- between the phases ----------

  /** Live clients, watched clients, and the timers' user data together with what `checkout` has
      popped are the same set; the popped ones are expiring, the others open. */
  ghost predicate SameClients(st: State, popped: seq<nat>) {
    && st.live == (set id | id in KeysOf(st.timers)) + (set id | id in popped)
    && st.live == (set id | id in st.registered && id >= st.listeners)
    && (forall id: nat :: id in popped <==> LifeOf(st.log, id) == Expiring)
    && (forall id: nat :: id in KeysOf(st.timers) <==> LifeOf(st.log, id) == Open)
  }

  lemma InvSameClients(st: State, popped: seq<nat>)
    requires Inv(st, popped)
    ensures SameClients(st, popped)
  {
    forall id: nat
      ensures id in popped <==> LifeOf(st.log, id) == Expiring
      ensures id in KeysOf(st.timers) <==> LifeOf(st.log, id) == Open
    {
      assert LifeOfIs(st, popped, id);
    }
    forall id
      ensures id in st.live <==> id in st.registered && id >= st.listeners
    {
    }
  }

  /** At each point between two phases of each iteration. */
  ghost predicate PhasesOwned(st: State, rounds: seq<Round>)
    decreases |rounds|
  {
    rounds == [] || st.count == 0 ||
    (IterationOwned(UnregisterAll(st, rounds[0].unregistered), rounds[0]) &&
     PhasesOwned(Iterate(st, rounds[0]), rounds[1..]))
  }

  ghost predicate IterationOwned(waiting: State, r: Round) {
    var reports := Delivered(waiting.registered, r.reports);
    var serviced := UnregisterAll(Serviced(waiting, reports), r.late);
    && SameClients(waiting, [])
    && SameClients(ProcessQueue(waiting, Readable(reports)), [])
    && SameClients(Serviced(waiting, reports), [])
    && SameClients(serviced, [])
    && SameClients(Checkout(serviced, r.elapsed), KeysOf(Due(serviced, r.elapsed)))
    && SameClients(TimedOut(serviced, r.elapsed), [])
  }

  lemma IterationIsOwned(waiting: State, r: Round)
    requires Inv(waiting, [])
    ensures IterationOwned(waiting, r)
  {
    var reports := Delivered(waiting.registered, r.reports);
    var serviced := UnregisterAll(Serviced(waiting, reports), r.late);
    FailingServiceable(waiting, reports);
    ServiceKeeps(waiting, reports);
    UnregisterKeeps(Serviced(waiting, reports), r.late);
    CheckoutKeeps(serviced, r.elapsed);
    TimedOutKeeps(serviced, r.elapsed);
    InvSameClients(waiting, []);
    InvSameClients(ProcessQueue(waiting, Readable(reports)), []);
    InvSameClients(Serviced(waiting, reports), []);
    InvSameClients(serviced, []);
    InvSameClients(Checkout(serviced, r.elapsed), KeysOf(Due(serviced, r.elapsed)));
    InvSameClients(TimedOut(serviced, r.elapsed), []);
  }

  lemma {:induction false} PhasesAreOwned(st: State, rounds: seq<Round>)
    requires Inv(st, [])
    ensures PhasesOwned(st, rounds)
    decreases |rounds|
  {
    if rounds != [] && st.count != 0 {
      UnregisterKeeps(st, rounds[0].unregistered);
      IterationIsOwned(UnregisterAll(st, rounds[0].unregistered), rounds[0]);
      IterateKeeps(st, rounds[0]);
      PhasesAreOwned(Iterate(st, rounds[0]), rounds[1..]);
    }
  }

  /** The ownership invariant between any two phases of any run. */
  lemma RunPhases(timeout: nat, listeners: nat, clock: int, rounds: seq<Round>)
    ensures PhasesOwned(RegisterFrom(Fresh(timeout, listeners, clock), 0), rounds)
  {
    FreshInv(timeout, listeners, clock);
    RegisterKeeps(Fresh(timeout, listeners, clock), 0);
    PhasesAreOwned(RegisterFrom(Fresh(timeout, listeners, clock), 0), rounds);
  }

  lemma {:induction false} RegisterTouchesNoClient(st: State, first: nat)
    ensures RegisterFrom(st, first).live == st.live
    decreases st.listeners - first
  {
    if first < st.listeners {
      RegisterTouchesNoClient(Insert(st, first), first + 1);
    }
  }

  // ---------- the destructor ----------

  /** The destructor's steps leave nothing alive. Epoll is not told: its descriptors go with
      the sockets, so only ownership, lives and times are claimed of the states in between. */
  lemma {:induction false} DestroyKeeps(st: State)
    requires OwnedAlone(st) && Lived(st, []) && Timed(st)
    ensures DestroyUsable(st)
    ensures var st' := Destroy(st);
            && OwnedAlone(st') && Lived(st', []) && Timed(st')
            && st'.timers == [] && st'.nextId == st.nextId && st'.listeners == st.listeners
    decreases |st.timers|
  {
    if st.timers == [] {
      assert Destroy(st) == st;
    } else {
      var next := DestroyFirst(st);
      assert Destroy(st) == Destroy(next);
      DestroyFirstKeeps(st);
      DestroyKeeps(next);
    }
  }

  /** Whatever the destructor takes out of the list exists, and no other timer is for it. */
  ghost predicate DestroyUsable(st: State)
    decreases |st.timers|
  {
    st.timers == [] ||
    (st.timers[0].key in st.live && st.timers[0].key !in KeysOf(st.timers[1..]) && DestroyUsable(DestroyFirst(st)))
  }

  /** Ownership without epoll's part of it. */
  ghost predicate OwnedAlone(st: State) {
    && Distinct(KeysOf(st.timers))
    && (forall id :: id in st.live <==> id in KeysOf(st.timers))
    && (forall id :: id in st.live ==> st.listeners <= id < st.nextId)
  }

  lemma DestroyFirstKeeps(st: State)
    requires OwnedAlone(st) && Lived(st, []) && Timed(st) && st.timers != []
    ensures var st' := DestroyFirst(st); OwnedAlone(st') && Lived(st', []) && Timed(st')
    ensures st.timers[0].key in st.live && st.timers[0].key !in KeysOf(st.timers[1..])
  {
    var st' := DestroyFirst(st);
    var id := st.timers[0].key;
    assert KeysOf(st.timers) == [id] + KeysOf(st'.timers);
    assert KeysOf(st.timers)[0] == id;
    ClosedLived(st, [], st', [], id);
    ClosedTimed(st, st', id);
  }

  /** In a whole life of the loop, no socket is used that does not exist, and no timer handle
      that is dead. */
  lemma RunUsable(timeout: nat, listeners: nat, clock: int, rounds: seq<Round>)
    ensures RoundsUsable(RegisterFrom(Fresh(timeout, listeners, clock), 0), rounds)
    ensures DestroyUsable(Running(timeout, listeners, clock, rounds))
  {
    FreshInv(timeout, listeners, clock);
    RegisterKeeps(Fresh(timeout, listeners, clock), 0);
    RoundsAreUsable(RegisterFrom(Fresh(timeout, listeners, clock), 0), rounds);
    RunOwnership(timeout, listeners, clock, rounds);
    DestroyKeeps(Running(timeout, listeners, clock, rounds));
  }

  // ---------- what a life looks like in the log ----------

  /** The one acceptance, the one close and the one deletion of a client, in this order. */
  ghost predicate LivedOnce(log: seq<Event>, id: nat) {
    exists i, j, k :: LivedAt(log, id, i, j, k) && 0 <= i < j < k
  }

  /** The positions of a client's acceptance, close and deletion; -1 for what has not happened.
      It is served and expired only between acceptance and close. */
  ghost predicate LivedAt(log: seq<Event>, id: nat, i: int, j: int, k: int) {
    && -1 <= k < |log| && -1 <= j < |log| && -1 <= i < |log|
    && forall m {:trigger log[m]} :: 0 <= m < |log| && Concerns(log[m], id) ==>
         && (log[m].Accepted? <==> m == i) && (log[m].Closed? <==> m == j) && (log[m].Deleted? <==> m == k)
         && (log[m].Served? || log[m].Expired? ==> i < m && (j == -1 || m < j))
  }

  lemma {:induction false} Positions(log: seq<Event>, id: nat) returns (i: int, j: int, k: int)
    requires LifeOf(log, id) in {Unborn, Open, Expiring, Closing, Gone}
    ensures LivedAt(log, id, i, j, k)
    ensures LifeOf(log, id) == Unborn ==>
              i == j == k == -1 && forall m {:trigger log[m]} :: 0 <= m < |log| ==> !Concerns(log[m], id)
    ensures LifeOf(log, id) in {Open, Expiring} ==> 0 <= i && j == k == -1
    ensures LifeOf(log, id) == Closing ==> 0 <= i < j && k == -1
    ensures LifeOf(log, id) == Gone ==> 0 <= i < j < k
    decreases |log|
  {
    if log == [] {
      i, j, k := -1, -1, -1;
    } else {
      var m := |log| - 1;
      i, j, k := Positions(log[..m], id);
      if Concerns(log[m], id) {
        match log[m]
        case Accepted(_, _) => i := m;
        case Closed(_) => j := m;
        case Deleted(_) => k := m;
        case _ =>
      }
      forall n {:trigger log[n]} | 0 <= n < m && Concerns(log[n], id)
        ensures (log[n].Accepted? <==> n == i) && (log[n].Closed? <==> n == j) && (log[n].Deleted? <==> n == k)
        ensures log[n].Served? || log[n].Expired? ==> i < n && (j == -1 || n < j)
      {
        assert log[..m][n] == log[n];
      }
      forall n {:trigger log[n]} | 0 <= n < m && LifeOf(log, id) == Unborn
        ensures !Concerns(log[n], id)
      {
        assert log[..m][n] == log[n];
      }
    }
  }

  /** Conservation over a whole life of the loop, destructor included: nothing is left alive or
      pending, and every client that was admitted was accepted, closed and deleted exactly
      once, in this order; one that was not admitted was discarded. */
  lemma RunLifecycle(timeout: nat, listeners: nat, clock: int, rounds: seq<Round>)
    ensures var end := Destroy(Running(timeout, listeners, clock, rounds));
            && end.live == {} && end.timers == []
            && (forall id: nat :: listeners <= id < end.nextId ==>
                  LivedOnce(end.log, id) || LifeOf(end.log, id) == Refused)
            && (forall id: nat :: id < listeners || id >= end.nextId ==> LifeOf(end.log, id) == Unborn)
  {
    var st := Running(timeout, listeners, clock, rounds);
    RunOwnership(timeout, listeners, clock, rounds);
    DestroyKeeps(st);
    var end := Destroy(st);
    forall id: nat
      ensures listeners <= id < end.nextId ==> LivedOnce(end.log, id) || LifeOf(end.log, id) == Refused
      ensures id < listeners || id >= end.nextId ==> LifeOf(end.log, id) == Unborn
    {
      assert LifeOfIs(end, [], id);
      if LifeOf(end.log, id) == Gone {
        var i, j, k := Positions(end.log, id);
        assert LivedAt(end.log, id, i, j, k);
      }
    }
  }

  /** Every expiry in a run, read directly off the log: the client had shown its last sign of
      life at least the timeout before. */
  lemma RunExpiries(timeout: nat, listeners: nat, clock: int, rounds: seq<Round>, i: nat)
    requires i < |Destroy(Running(timeout, listeners, clock, rounds)).log|
    ensures var log := Destroy(Running(timeout, listeners, clock, rounds)).log;
            log[i].Expired? ==>
              && LastSeen(log[..i], log[i].id).Some?
              && log[i].at - LastSeen(log[..i], log[i].id).value >= timeout
  {
    RunOwnership(timeout, listeners, clock, rounds);
    DestroyKeeps(Running(timeout, listeners, clock, rounds));
    TimelyAt(Destroy(Running(timeout, listeners, clock, rounds)).log, timeout, i);
  }

  lemma {:induction false} TimelyAt(log: seq<Event>, timeout: nat, i: nat)
    requires Timely(log, timeout) && i < |log|
    ensures log[i].Expired? ==>
              && LastSeen(log[..i], log[i].id).Some?
              && log[i].at - LastSeen(log[..i], log[i].id).value >= timeout
    decreases |log|
  {
    var m := |log| - 1;
    if i < m {
      TimelyAt(log[..m], timeout, i);
      assert log[..m][..i] == log[..i];
    }
  }

  // ---------- the registration counter ----------

  /** Every request hits a listener that is registered and does not wait in the error queue, where
      the loop is going to erase it itself. */
  predicate ProperUnregister(st: State, ids: seq<nat>, waiting: seq<nat>)
    decreases |ids|
  {
    ids == [] ||
    ((ids[0] < st.listeners ==> ids[0] in st.registered && ids[0] !in waiting) &&
     ProperUnregister(if ids[0] < st.listeners then Erase(st, ids[0]) else st, ids[1..], waiting))
  }

  predicate ProperQueue(st: State, queue: seq<Report>, waiting: seq<nat>)
    decreases |queue|
  {
    queue == [] ||
    (ProperUnregister(st, queue[0].requests, waiting) && ProperQueue(Service(st, queue[0]), queue[1..], waiting))
  }

  predicate ProperErrors(st: State, queue: seq<Report>)
    decreases |queue|
  {
    queue == [] ||
    (ProperUnregister(st, queue[0].requests, Numbers(queue)) && ProperErrors(Failure(st, queue[0]), queue[1..]))
  }

  /** ... at each point of an iteration. */
  predicate ProperRound(st: State, r: Round) {
    var waiting := UnregisterAll(st, r.unregistered);
    var reports := Delivered(waiting.registered, r.reports);
    && ProperUnregister(st, r.unregistered, [])
    && ProperQueue(waiting, Readable(reports), Numbers(Failing(reports)))
    && ProperErrors(ProcessQueue(waiting, Readable(reports)), Failing(reports))
    && ProperUnregister(Serviced(waiting, reports), r.late, [])
  }

  predicate ProperRounds(st: State, rounds: seq<Round>)
    decreases |rounds|
  {
    rounds == [] || st.count == 0 || (ProperRound(st, rounds[0]) && ProperRounds(Iterate(st, rounds[0]), rounds[1..]))
  }

  /** A counter of zero means that nothing is watched if the erasures that hit nothing and the
      insertions of what was there already cancel out. */
  lemma StopMeaning(st: State)
    requires Inv(st, []) && st.count == 0 && |st.registered| < COUNT_LIMIT
    ensures st.registered == {} <==> st.surplus % COUNT_LIMIT == 0
    ensures st.registered == {} ==> st.timers == [] && st.live == {}
  {
    assert st.registered == {} <==> |st.registered| == 0;
    if st.surplus % COUNT_LIMIT == 0 {
      assert |st.registered| % COUNT_LIMIT == 0;
    }
    assert st.live <= st.registered;
    assert st.timers != [] ==> KeysOf(st.timers)[0] in KeysOf(st.timers);
  }

  /** How many of the waiting listeners have been unregistered: the loop will miss them. */
  function Missing(st: State, waiting: seq<nat>): nat {
    if waiting == [] then 0
    else (if waiting[0] < st.listeners && waiting[0] !in st.registered then 1 else 0) + Missing(st, waiting[1..])
  }

  /** What the counter will have lost when the error queue has been processed. */
  function Prospect(st: State, waiting: seq<nat>): int {
    st.surplus - Missing(st, waiting)
  }

  lemma {:induction false} MissingSame(st: State, st': State, waiting: seq<nat>)
    requires st'.listeners == st.listeners
    requires forall id :: id in waiting && id < st.listeners ==> (id in st'.registered <==> id in st.registered)
    ensures Missing(st', waiting) == Missing(st, waiting)
  {
    if waiting != [] {
      MissingSame(st, st', waiting[1..]);
    }
  }

  lemma {:induction false} MissingErased(st: State, id: nat, waiting: seq<nat>)
    requires Distinct(waiting) && id < st.listeners
    ensures Missing(Erase(st, id), waiting) ==
            Missing(st, waiting) + if id in waiting && id in st.registered then 1 else 0
  {
    if waiting != [] {
      var rest := waiting[1..];
      assert forall i :: 0 <= i < |rest| ==> rest[i] == waiting[i + 1];
      if waiting[0] == id {
        MissingSame(st, Erase(st, id), rest);
      } else {
        MissingErased(st, id, rest);
      }
    }
  }

  /** A request that hits a registered listener which does not wait costs nothing; any other
      costs one, at once or when the turn of the listener comes. */
  lemma {:induction false} UnregisterCost(st: State, ids: seq<nat>, waiting: seq<nat>)
    requires Distinct(waiting)
    ensures var st' := UnregisterAll(st, ids);
            && Prospect(st, waiting) - |ids| <= Prospect(st', waiting) <= Prospect(st, waiting)
            && (Prospect(st', waiting) == Prospect(st, waiting) <==> ProperUnregister(st, ids, waiting))
    decreases |ids|
  {
    if ids != [] {
      var next := if ids[0] < st.listeners then Erase(st, ids[0]) else st;
      assert UnregisterAll(st, ids) == UnregisterAll(next, ids[1..]);
      if ids[0] < st.listeners {
        MissingErased(st, ids[0], waiting);
      }
      UnregisterCost(next, ids[1..], waiting);
    }
  }

  function RequestsIn(queue: seq<Report>): nat {
    if queue == [] then 0 else |queue[0].requests| + RequestsIn(queue[1..])
  }

  lemma {:induction false} QueueCost(st: State, queue: seq<Report>, waiting: seq<nat>)
    requires Inv(st, []) && Serviceable(st, queue) && Distinct(waiting)
    ensures var st' := ProcessQueue(st, queue);
            && Prospect(st, waiting) - RequestsIn(queue) <= Prospect(st', waiting) <= Prospect(st, waiting)
            && (Prospect(st', waiting) == Prospect(st, waiting) <==> ProperQueue(st, queue, waiting))
    decreases |queue|
  {
    if queue != [] {
      var asked, next := UnregisterAll(st, queue[0].requests), Service(st, queue[0]);
      assert ProcessQueue(st, queue) == ProcessQueue(next, queue[1..]);
      UnregisterCost(st, queue[0].requests, waiting);
      UnregisterKeeps(st, queue[0].requests);
      HandleKeeps(asked, queue[0]);
      MissingSame(asked, next, waiting);
      ServeKeeps(st, queue[0]);
      ServiceableTail(st, queue);
      QueueCost(next, queue[1..], waiting);
    }
  }

  lemma NumbersCons(queue: seq<Report>)
    requires queue != []
    ensures Numbers(queue)[0] == queue[0].id && Numbers(queue)[1..] == Numbers(queue[1..])
    ensures DistinctIds(queue) ==> Distinct(Numbers(queue))
  {
  }

  /** The turn of a listener settles what it was going to cost. */
  lemma FailCost(st: State, queue: seq<Report>)
    requires Inv(st, []) && Serviceable(st, queue) && queue != []
    ensures Prospect(Fail(st, queue[0].id), Numbers(queue[1..])) == Prospect(st, Numbers(queue))
  {
    var id, rest := queue[0].id, Numbers(queue[1..]);
    FailKeeps(st, id);
    NumbersCons(queue);
    assert forall i :: 0 <= i < |rest| ==> rest[i] == queue[i + 1].id != id;
    MissingSame(st, Fail(st, id), rest);
  }

  lemma {:induction false} ErrorsCost(st: State, queue: seq<Report>)
    requires Inv(st, []) && Serviceable(st, queue)
    ensures var st', due := ProcessErrors(st, queue), Prospect(st, Numbers(queue));
            && due - RequestsIn(queue) <= st'.surplus <= due
            && (st'.surplus == due <==> ProperErrors(st, queue))
    decreases |queue|
  {
    if queue == [] {
      assert ProcessErrors(st, queue) == st;
    } else {
      var asked, next := UnregisterAll(st, queue[0].requests), Failure(st, queue[0]);
      assert ProcessErrors(st, queue) == ProcessErrors(next, queue[1..]);
      NumbersCons(queue);
      UnregisterCost(st, queue[0].requests, Numbers(queue));
      UnregisterKeeps(st, queue[0].requests);
      FailCost(asked, queue);
      FailureKeeps(st, queue);
      ErrorsCost(next, queue[1..]);
    }
  }

  lemma {:induction false} RequestsAppend(queue: seq<Report>, r: Report)
    ensures RequestsIn(queue + [r]) == RequestsIn(queue) + |r.requests|
  {
    if queue == [] {
      assert [] + [r] == [r] && [r][1..] == [];
    } else {
      assert (queue + [r])[0] == queue[0] && (queue + [r])[1..] == queue[1..] + [r];
      RequestsAppend(queue[1..], r);
    }
  }

  lemma {:induction false} RequestsSplit(reports: seq<Report>)
    ensures RequestsIn(Readable(reports)) + RequestsIn(Failing(reports)) <= RequestsIn(reports)
  {
    if reports != [] {
      var before, last := reports[..|reports| - 1], reports[|reports| - 1];
      RequestsSplit(before);
      RequestsLast(reports, before, last);
      var taken := !last.error && last.input;
      assert Readable(reports) == Readable(before) + if taken then [last] else [];
      assert Failing(reports) == Failing(before) + if last.error then [last] else [];
      RequestsWith(Readable(before), taken, last);
      RequestsWith(Failing(before), last.error, last);
    }
  }

  lemma RequestsLast(reports: seq<Report>, before: seq<Report>, last: Report)
    requires reports != [] && before == reports[..|reports| - 1] && last == reports[|reports| - 1]
    ensures RequestsIn(reports) == RequestsIn(before) + |last.requests|
  {
    assert reports == before + [last];
    RequestsAppend(before, last);
  }

  lemma RequestsWith(queue: seq<Report>, taken: bool, r: Report)
    ensures RequestsIn(queue + if taken then [r] else []) == RequestsIn(queue) + if taken then |r.requests| else 0
  {
    if taken {
      RequestsAppend(queue, r);
    } else {
      assert queue + [] == queue;
    }
  }

  lemma {:induction false} NobodyMissing(st: State, waiting: seq<nat>)
    requires forall id :: id in waiting ==> id in st.registered
    ensures Missing(st, waiting) == 0
  {
    if waiting != [] {
      NobodyMissing(st, waiting[1..]);
    }
  }

  /** Whoever is reported is registered, so nothing is owed when the reports are delivered. */
  lemma NothingOwed(st: State, reports: seq<Report>)
    requires Reportable(st.registered, reports)
    ensures Distinct(Numbers(Failing(reports))) && Missing(st, Numbers(Failing(reports))) == 0
  {
    SplitReports(reports);
    forall id | id in Numbers(Failing(reports))
      ensures id in st.registered
    {
      var i :| 0 <= i < |Failing(reports)| && Failing(reports)[i].id == id;
      assert Failing(reports)[i] in reports;
    }
    NobodyMissing(st, Numbers(Failing(reports)));
  }

  /** The two service phases. */
  lemma ServiceCost(st: State, reports: seq<Report>)
    requires Inv(st, []) && Reportable(st.registered, reports)
    ensures var served, st' := ProcessQueue(st, Readable(reports)), Serviced(st, reports);
            && st.surplus - RequestsIn(reports) <= st'.surplus <= st.surplus
            && (st'.surplus == st.surplus <==>
                  && ProperQueue(st, Readable(reports), Numbers(Failing(reports)))
                  && ProperErrors(served, Failing(reports)))
  {
    NothingOwed(st, reports);
    FailingServiceable(st, reports);
    RequestsSplit(reports);
    QueueCost(st, Readable(reports), Numbers(Failing(reports)));
    ErrorsCost(ProcessQueue(st, Readable(reports)), Failing(reports));
  }

  function RequestsOf(r: Round): nat {
    |r.unregistered| + RequestsIn(r.reports) + |r.late|
  }

  lemma RoundCost(st: State, r: Round)
    requires Inv(st, [])
    ensures st.surplus - RequestsOf(r) <= Iterate(st, r).surplus <= st.surplus
    ensures Iterate(st, r).surplus == st.surplus <==> ProperRound(st, r)
  {
    var waiting := UnregisterAll(st, r.unregistered);
    var reports := Delivered(waiting.registered, r.reports);
    var serviced := Serviced(waiting, reports);
    UnregisterKeeps(st, r.unregistered);
    UnregisterCost(st, r.unregistered, []);
    ServiceCost(waiting, reports);
    ServiceKeeps(waiting, reports);
    UnregisterCost(serviced, r.late, []);
    UnregisterKeeps(serviced, r.late);
    TimedOutKeeps(UnregisterAll(serviced, r.late), r.elapsed);
  }

  /** How many times listeners are asked to be unregistered in all. */
  function Requests(rounds: seq<Round>): nat {
    if rounds == [] then 0 else RequestsOf(rounds[0]) + Requests(rounds[1..])
  }

  lemma {:induction false} RoundsSurplus(st: State, rounds: seq<Round>)
    requires Inv(st, [])
    ensures st.surplus - Requests(rounds) <= Exec(st, rounds).surplus <= st.surplus
    ensures Exec(st, rounds).surplus == st.surplus <==> ProperRounds(st, rounds)
    decreases |rounds|
  {
    if rounds == [] || st.count == 0 {
      assert Exec(st, rounds) == st;
    } else {
      var next := Iterate(st, rounds[0]);
      assert Exec(st, rounds) == Exec(next, rounds[1..]);
      IterateKeeps(st, rounds[0]);
      RoundCost(st, rounds[0]);
      RoundsSurplus(next, rounds[1..]);
    }
  }

  lemma {:induction false} RegisterSurplus(st: State, first: nat)
    requires forall id :: id in st.registered ==> id < first
    ensures RegisterFrom(st, first).surplus == st.surplus
    decreases st.listeners - first
  {
    if first < st.listeners {
      RegisterSurplus(Insert(st, first), first + 1);
    }
  }

  /** The loop ends by itself only when every client is gone, provided that listeners are only
      unregistered while they are registered and do not wait in the error queue. */
  lemma RunStopsEmpty(timeout: nat, listeners: nat, clock: int, rounds: seq<Round>)
    requires ProperRounds(RegisterFrom(Fresh(timeout, listeners, clock), 0), rounds)
    requires |Running(timeout, listeners, clock, rounds).registered| < COUNT_LIMIT
    ensures var st := Running(timeout, listeners, clock, rounds);
            st.count == 0 ==> st.registered == {} && st.timers == [] && st.live == {}
  {
    var empty := Fresh(timeout, listeners, clock);
    FreshInv(timeout, listeners, clock);
    RegisterKeeps(empty, 0);
    RegisterSurplus(empty, 0);
    ExecKeeps(RegisterFrom(empty, 0), rounds);
    RoundsSurplus(RegisterFrom(empty, 0), rounds);
    var st := Running(timeout, listeners, clock, rounds);
    if st.count == 0 {
      StopMeaning(st);
    }
  }

  /** When the loop ends by itself, everything is gone exactly if listeners were only ever
      unregistered while they were registered and did not wait in the error queue. */
  lemma RunStopsEmptyIff(timeout: nat, listeners: nat, clock: int, rounds: seq<Round>)
    requires Running(timeout, listeners, clock, rounds).count == 0
    requires |Running(timeout, listeners, clock, rounds).registered| < COUNT_LIMIT && Requests(rounds) < COUNT_LIMIT
    ensures Running(timeout, listeners, clock, rounds).registered == {} <==>
            ProperRounds(RegisterFrom(Fresh(timeout, listeners, clock), 0), rounds)
    ensures var st := Running(timeout, listeners, clock, rounds);
            st.registered == {} ==> st.timers == [] && st.live == {}
  {
    var empty, st := Fresh(timeout, listeners, clock), Running(timeout, listeners, clock, rounds);
    FreshInv(timeout, listeners, clock);
    RegisterKeeps(empty, 0);
    RegisterSurplus(empty, 0);
    RoundsSurplus(RegisterFrom(empty, 0), rounds);
    ExecKeeps(RegisterFrom(empty, 0), rounds);
    FewMisses(st);
  }

  lemma FewMisses(st: State)
    requires Inv(st, []) && st.count == 0 && |st.registered| < COUNT_LIMIT
    requires -(COUNT_LIMIT as int) < st.surplus <= 0
    ensures st.registered == {} <==> st.surplus == 0
    ensures st.registered == {} ==> st.timers == [] && st.live == {}
  {
    StopMeaning(st);
    assert st.surplus % COUNT_LIMIT == 0 <==> st.surplus == 0;
  }

  /** One client, due after the timeout, and the log so far. */
  function OneClient(t: nat, now: int, registered: set<nat>, count: nat, surplus: int, log: seq<Event>): State {
    State(t, 1, [Entry(1, now + t)], registered, count, surplus, {1}, 2, now, log)
  }

  lemma SplitOne(r: Report)
    ensures Readable([r]) == if !r.error && r.input then [r] else []
    ensures Failing([r]) == if r.error then [r] else []
  {
    assert [r][..0] == [];
  }

  /** A round in which one client connects. */
  lemma AcceptRound(t: nat, now: int, r: Report)
    requires t > 0 && r == Report(0, false, true, [Connected(0)], false, 0, [])
    ensures Iterate(State(t, 1, [], {0}, 1, 0, {}, 1, now, []), Round([], [r], [], 0))
            == OneClient(t, now, {0, 1}, 2, 0, [Accepted(1, now)])
  {
    var st := State(t, 1, [], {0}, 1, 0, {}, 1, now, []);
    assert [r][1..] == [];
    SplitOne(r);
    assert AcceptAll(st, r.acceptances) == AcceptAll(Admit(st, 0), r.acceptances[1..]);
    assert Admit(st, 0) == OneClient(t, now, {0, 1}, 2, 0, [Accepted(1, now)]);
    assert Service(st, r) == AcceptAll(st, r.acceptances);
    assert ProcessQueue(st, [r]) == ProcessQueue(Service(st, r), []);
  }

  lemma EarlyAccept(t: nat, now: int, r: Report, rest: seq<Round>)
    requires t > 0 && r == Report(0, false, true, [Connected(0)], false, 0, [])
    ensures Exec(State(t, 1, [], {0}, 1, 0, {}, 1, now, []), [Round([], [r], [], 0)] + rest)
            == Exec(OneClient(t, now, {0, 1}, 2, 0, [Accepted(1, now)]), rest)
  {
    AcceptRound(t, now, r);
  }

  /** A round in which the client is served and kept. */
  lemma ServeRound(t: nat, now: int, log: seq<Event>, r: Report)
    requires t > 0 && r == Report(1, false, true, [], true, 0, [])
    ensures Iterate(OneClient(t, now, {0, 1}, 2, 0, log), Round([], [r], [], 0))
            == OneClient(t, now, {0, 1}, 2, 0, log + [Served(1, now)])
  {
    var st, next := OneClient(t, now, {0, 1}, 2, 0, log), OneClient(t, now, {0, 1}, 2, 0, log + [Served(1, now)]);
    assert [r][1..] == [];
    SplitOne(r);
    assert IndexOf(st.timers, 1) == 0;
    RestartedAt(st.timers, 0, now + t);
    assert Touch(st, 0, 0) == next;
    assert ProcessQueue(st, [r]) == ProcessQueue(Service(st, r), []) == next;
    assert Checkout(next, 0).log == next.log && Checkout(next, 0).timers == next.timers;
    assert ProcessTimeouts(next, KeysOf(Due(next, 0))) == next;
  }

  lemma EarlyFailure(t: nat, now: int, r: Report, rest: seq<Round>)
    requires t > 0 && r == Report(0, true, false, [], false, 0, [])
    ensures Exec(OneClient(t, now, {0, 1}, 2, 0, [Accepted(1, now)]), [Round([], [r], [], 0)] + rest)
            == Exec(OneClient(t, now, {1}, 1, 0, [Accepted(1, now), ListenerError(0)]), rest)
  {
    var st := OneClient(t, now, {0, 1}, 2, 0, [Accepted(1, now)]);
    var next := OneClient(t, now, {1}, 1, 0, [Accepted(1, now), ListenerError(0)]);
    assert Iterate(st, Round([], [r], [], 0)) == next by {
      assert [r][1..] == [];
      SplitOne(r);
      assert Failure(st, r) == next;
      assert ProcessErrors(st, [r]) == ProcessErrors(next, []) == next;
      assert Checkout(next, 0).log == next.log && Checkout(next, 0).timers == next.timers;
      assert ProcessTimeouts(next, KeysOf(Due(next, 0))) == next;
    }
  }

  lemma EarlyUnregister(t: nat, now: int, log: seq<Event>, rest: seq<Round>)
    requires t > 0
    ensures Exec(OneClient(t, now, {1}, 1, 0, log), [Round([0], [], [], 0)] + rest)
            == Exec(OneClient(t, now, {1}, 0, -1, log), rest)
  {
    var st := OneClient(t, now, {1}, 1, 0, log);
    assert Iterate(st, Round([0], [], [], 0)) == OneClient(t, now, {1}, 0, -1, log) by {
      assert UnregisterAll(st, [0]) == UnregisterAll(Erase(st, 0), [0][1..]);
    }
  }

  lemma ErasureServiced(t: nat, now: int, r: Report, log: seq<Event>)
    requires r == Report(0, true, false, [], false, 0, [0])
    ensures Serviced(OneClient(t, now, {0, 1}, 2, 0, log), [r])
            == OneClient(t, now, {1}, 0, -1, log + [ListenerError(0)])
  {
    var st, next := OneClient(t, now, {0, 1}, 2, 0, log), OneClient(t, now, {1}, 0, -1, log + [ListenerError(0)]);
    SplitOne(r);
    assert UnregisterAll(st, [0]) == UnregisterAll(Erase(st, 0), [0][1..]) == OneClient(t, now, {1}, 1, 0, log);
    assert Failure(st, r) == next;
    assert [r][1..] == [];
    assert ProcessErrors(st, [r]) == ProcessErrors(next, []) == next;
  }

  /** A round in which the listener is reported to have failed, and is unregistered before its
      turn comes. */
  lemma EarlyErasure(t: nat, now: int, r: Report, log: seq<Event>, rest: seq<Round>)
    requires t > 0 && r == Report(0, true, false, [], false, 0, [0])
    ensures Exec(OneClient(t, now, {0, 1}, 2, 0, log), [Round([], [r], [], 0)] + rest)
            == Exec(OneClient(t, now, {1}, 0, -1, log + [ListenerError(0)]), rest)
  {
    ErasureServiced(t, now, r, log);
  }

  lemma EarlyStart(t: nat, now: int)
    ensures RegisterFrom(Fresh(t, 1, now), 0) == State(t, 1, [], {0}, 1, 0, {}, 1, now, [])
  {
    assert RegisterFrom(Fresh(t, 1, now), 0) == RegisterFrom(Insert(Fresh(t, 1, now), 0), 1);
  }

  lemma EarlyLife(now: int)
    ensures LifeOf([Accepted(1, now), ListenerError(0)], 1) == Open
  {
    LifeNoted([Accepted(1, now)], ListenerError(0), 1);
    LifeNoted([], Accepted(1, now), 1);
    assert [Accepted(1, now), ListenerError(0)] == [Accepted(1, now)] + [ListenerError(0)];
    assert [Accepted(1, now)] == [] + [Accepted(1, now)];
  }

  /** Without the proviso it fails: a listener that has failed was erased by the loop already,
      and when it is unregistered once more the counter reaches 0 with a client still open. */
  lemma RunCanStopEarly(t: nat, now: int) returns (rounds: seq<Round>)
    requires t > 0
    ensures var st := Running(t, 1, now, rounds);
            st.count == 0 && st.timers == [Entry(1, now + t)] && LifeOf(st.log, 1) == Open
  {
    var accept := Report(0, false, true, [Connected(0)], false, 0, []);
    var failure := Report(0, true, false, [], false, 0, []);
    var third := [Round([0], [], [], 0)] + [];
    var second := [Round([], [failure], [], 0)] + third;
    rounds := [Round([], [accept], [], 0)] + second;
    EarlyStart(t, now);
    EarlyAccept(t, now, accept, second);
    EarlyFailure(t, now, failure, third);
    EarlyUnregister(t, now, [Accepted(1, now), ListenerError(0)], []);
    EarlyLife(now);
  }

  /** Nor is it enough that the listener is registered when it is unregistered: once it waits in
      the error queue the loop is going to erase it again. */
  lemma RunCanStopBehindReport(t: nat, now: int) returns (rounds: seq<Round>)
    requires t > 0
    ensures var st := Running(t, 1, now, rounds);
            st.count == 0 && st.timers == [Entry(1, now + t)] && LifeOf(st.log, 1) == Open
    ensures |rounds| == 2 && rounds[0].unregistered == rounds[0].late == [] && RequestsIn(rounds[0].reports) == 0
    ensures rounds[1].unregistered == rounds[1].late == []
    ensures |rounds[1].reports| == 1 && rounds[1].reports[0].error && rounds[1].reports[0].requests == [0]
  {
    var accept := Report(0, false, true, [Connected(0)], false, 0, []);
    var failure := Report(0, true, false, [], false, 0, [0]);
    var second := [Round([], [failure], [], 0)] + [];
    rounds := [Round([], [accept], [], 0)] + second;
    BehindReport(t, now, accept, failure, second);
    EarlyLife(now);
  }

  lemma BehindReport(t: nat, now: int, accept: Report, failure: Report, second: seq<Round>)
    requires t > 0 && accept == Report(0, false, true, [Connected(0)], false, 0, [])
    requires failure == Report(0, true, false, [], false, 0, [0])
    requires second == [Round([], [failure], [], 0)] + []
    ensures Running(t, 1, now, [Round([], [accept], [], 0)] + second)
            == OneClient(t, now, {1}, 0, -1, [Accepted(1, now), ListenerError(0)])
  {
    EarlyStart(t, now);
    EarlyAccept(t, now, accept, second);
    EarlyErasure(t, now, failure, [Accepted(1, now)], []);
    assert [Accepted(1, now)] + [ListenerError(0)] == [Accepted(1, now), ListenerError(0)];
  }
}
