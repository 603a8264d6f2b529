/**
 One connection over its whole life: the counter and the early returns of `process` in
 TinyWebServer/src/http/httpservices.cpp together with the close branch of the event loop.
 */
module Connection {
  import opened TimerQueue
  import opened LoopModel
  import opened LoopTheorems

  /** What one call of `process` comes to. */
  datatype Outcome =
    | InvalidRequest                // the parser does not accept what was read
    | InvalidResponse               // the handler has left a state that cannot be sent
    | HeaderFailed
    | BodyFailed
    | Written(keepAlive: bool)      // the whole response has gone out

  /** The counter of the socket behind the call. Counting is off when the limit is 0. */
  function Counted(max: nat, times: nat, o: Outcome): nat {
    if max > 0 && !o.InvalidRequest? then times + 1 else times
  }

  /** What `process` returns, with the counter behind the call. */
  predicate Keeps(max: nat, times: nat, o: Outcome) {
    match o
    case InvalidResponse => true
    case Written(keepAlive) => keepAlive && times <= max
    case _ => false
  }

  /** What one call after the other returns. */
  function Results(max: nat, times: nat, outcomes: seq<Outcome>): (results: seq<bool>)
    ensures |results| == |outcomes|
    decreases |outcomes|
  {
    if outcomes == [] then []
    else
      var next := Counted(max, times, outcomes[0]);
      [Keeps(max, next, outcomes[0])] + Results(max, next, outcomes[1..])
  }

  /** The counter behind a number of calls. */
  function TimesBehind(max: nat, times: nat, outcomes: seq<Outcome>): nat
    decreases |outcomes|
  {
    if outcomes == [] then times else TimesBehind(max, Counted(max, times, outcomes[0]), outcomes[1..])
  }

  lemma {:induction false} OneMoreResult(max: nat, times: nat, outcomes: seq<Outcome>, o: Outcome)
    ensures var next := Counted(max, TimesBehind(max, times, outcomes), o);
            && TimesBehind(max, times, outcomes + [o]) == next
            && Results(max, times, outcomes + [o]) == Results(max, times, outcomes) + [Keeps(max, next, o)]
    decreases |outcomes|
  {
    if outcomes == [] {
      assert [] + [o] == [o] && [o][1..] == [];
    } else {
      assert (outcomes + [o])[0] == outcomes[0] && (outcomes + [o])[1..] == outcomes[1..] + [o];
      OneMoreResult(max, Counted(max, times, outcomes[0]), outcomes[1..], o);
    }
  }

  /** Nothing comes behind a false. */
  predicate EndsAtFalse(results: seq<bool>) {
    forall i :: 0 <= i < |results| - 1 ==> results[i]
  }

  function CountWritten(outcomes: seq<Outcome>): nat {
    if outcomes == [] then 0
    else (if outcomes[0].Written? then 1 else 0) + CountWritten(outcomes[1..])
  }

  // ---------- the counter ----------

  lemma EndsAtFalseTail(results: seq<bool>)
    requires results != [] && EndsAtFalse(results)
    ensures EndsAtFalse(results[1..]) && (!results[0] ==> results[1..] == [])
  {
    assert forall i :: 0 <= i < |results| - 2 ==> results[1..][i] == results[i + 1];
  }

  /** How many responses can still be written. */
  function Left(max: nat, times: nat): nat {
    if times <= max then max + 1 - times else 1
  }

  lemma {:induction false} WrittenBound(max: nat, times: nat, outcomes: seq<Outcome>)
    requires max > 0 && EndsAtFalse(Results(max, times, outcomes))
    ensures CountWritten(outcomes) <= Left(max, times)
    decreases |outcomes|
  {
    if outcomes != [] {
      var next, results := Counted(max, times, outcomes[0]), Results(max, times, outcomes);
      EndsAtFalseTail(results);
      assert results[1..] == Results(max, next, outcomes[1..]);
      WrittenBound(max, next, outcomes[1..]);
    }
  }

  /** Without a limit every call returns what the outcome alone says. */
  lemma {:induction false} WithoutLimit(outcomes: seq<Outcome>)
    ensures forall i :: 0 <= i < |outcomes| ==>
              (Results(0, 0, outcomes)[i] <==> outcomes[i].InvalidResponse? || outcomes[i] == Written(true))
  {
    if outcomes != [] {
      WithoutLimit(outcomes[1..]);
      forall i | 0 <= i < |outcomes|
        ensures Results(0, 0, outcomes)[i] <==> outcomes[i].InvalidResponse? || outcomes[i] == Written(true)
      {
        assert i > 0 ==> Results(0, 0, outcomes)[i] == Results(0, 0, outcomes[1..])[i - 1];
      }
    }
  }

  /** The calls that came to a valid request. */
  function CountValid(outcomes: seq<Outcome>): nat {
    if outcomes == [] then 0
    else CountValid(outcomes[..|outcomes| - 1]) + if outcomes[|outcomes| - 1].InvalidRequest? then 0 else 1
  }

  lemma {:induction false} ResultAt(max: nat, outcomes: seq<Outcome>)
    ensures TimesBehind(max, 0, outcomes) == if max > 0 then CountValid(outcomes) else 0
    ensures forall i :: 0 <= i < |outcomes| ==>
              (Results(max, 0, outcomes)[i] <==> Keeps(max, TimesBehind(max, 0, outcomes[..i + 1]), outcomes[i]))
    decreases |outcomes|
  {
    if outcomes != [] {
      var front, last := outcomes[..|outcomes| - 1], outcomes[|outcomes| - 1];
      assert outcomes == front + [last];
      ResultAt(max, front);
      OneMoreResult(max, 0, front, last);
      forall i | 0 <= i < |outcomes|
        ensures Results(max, 0, outcomes)[i] <==> Keeps(max, TimesBehind(max, 0, outcomes[..i + 1]), outcomes[i])
      {
        assert i < |front| ==> outcomes[..i + 1] == front[..i + 1];
        assert i == |front| ==> outcomes[..i + 1] == outcomes;
      }
    }
  }

  /** When the connection is kept: the response cannot be sent, or it has gone out, asks to keep it,
      and no more valid requests have come than the limit, if there is one. */
  lemma ResultsMean(max: nat, outcomes: seq<Outcome>, i: nat)
    requires i < |outcomes|
    ensures Results(max, 0, outcomes)[i] <==>
            || outcomes[i] == InvalidResponse
            || (outcomes[i] == Written(true) && (max == 0 || CountValid(outcomes[..i + 1]) <= max))
  {
    ResultAt(max, outcomes);
    ResultAt(max, outcomes[..i + 1]);
  }

  function Persistent(n: nat): (outcomes: seq<Outcome>)
    ensures |outcomes| == n
  {
    seq(n, _ => Written(true))
  }

  lemma {:induction false} PersistentResults(max: nat, times: nat, n: nat)
    requires max > 0 && n > 0 && times + n == max + 1
    ensures EndsAtFalse(Results(max, times, Persistent(n))) && CountWritten(Persistent(n)) == n
    ensures !Results(max, times, Persistent(n))[n - 1]
    decreases n
  {
    assert Persistent(n)[1..] == Persistent(n - 1);
    if n > 1 {
      PersistentResults(max, times + 1, n - 1);
      var results, rest := Results(max, times, Persistent(n)), Results(max, times + 1, Persistent(n - 1));
      assert results == [true] + rest;
    } else {
      assert Persistent(0) == [];
    }
  }

  lemma EndsAtFalseBehind(calls: seq<bool>, rest: seq<bool>)
    requires |calls| <= 1 && EndsAtFalse(rest) && (calls == [false] ==> rest == [])
    ensures EndsAtFalse(calls + rest)
  {
    assert |calls| == 1 ==> calls == [calls[0]];
  }

  // ---------- the loop ----------

  /** What `process` returns for client `id` while the queue is serviced. */
  function CallsInQueue(queue: seq<Report>, listeners: nat, id: nat): seq<bool> {
    if queue == [] then []
    else (if queue[0].id == id && id >= listeners then [queue[0].keep] else [])
         + CallsInQueue(queue[1..], listeners, id)
  }

  function Queue(st: State, r: Round): seq<Report> {
    Readable(Delivered(UnregisterAll(st, r.unregistered).registered, r.reports))
  }

  /** ... and in a whole run. */
  function Calls(st: State, rounds: seq<Round>, id: nat): seq<bool>
    decreases |rounds|
  {
    if rounds == [] || st.count == 0 then []
    else CallsInQueue(Queue(st, rounds[0]), st.listeners, id) + Calls(Iterate(st, rounds[0]), rounds[1..], id)
  }

  /** A client that has been deleted. */
  predicate Ended(st: State, id: nat) {
    st.listeners <= id < st.nextId && id !in st.live
  }

  lemma {:induction false} AcceptingEndsNobody(st: State, answers: seq<Acceptance>, id: nat)
    requires Ended(st, id)
    ensures Ended(AcceptAll(st, answers), id)
    decreases |answers|
  {
    if answers != [] && !answers[0].NoDescriptor? {
      AcceptingEndsNobody(Accept(st, answers[0]), answers[1..], id);
    }
  }

  lemma ServiceStaysEnded(st: State, r: Report, id: nat)
    requires Ended(st, id)
    ensures Ended(Service(st, r), id)
  {
    var asked := UnregisterAll(st, r.requests);
    UnregisterStaysEnded(st, r.requests, id);
    if r.id < st.listeners {
      AcceptingEndsNobody(asked, r.acceptances, id);
    }
  }

  lemma {:induction false} QueueStaysEnded(st: State, queue: seq<Report>, id: nat)
    requires Ended(st, id)
    ensures Ended(ProcessQueue(st, queue), id)
    decreases |queue|
  {
    if queue != [] {
      ServiceStaysEnded(st, queue[0], id);
      QueueStaysEnded(Service(st, queue[0]), queue[1..], id);
    }
  }

  lemma {:induction false} ErrorsStayEnded(st: State, queue: seq<Report>, id: nat)
    requires Ended(st, id)
    ensures Ended(ProcessErrors(st, queue), id)
    decreases |queue|
  {
    if queue != [] {
      UnregisterStaysEnded(st, queue[0].requests, id);
      ErrorsStayEnded(Failure(st, queue[0]), queue[1..], id);
    }
  }

  lemma {:induction false} TimeoutsStayEnded(st: State, due: seq<nat>, id: nat)
    requires Ended(st, id)
    ensures Ended(ProcessTimeouts(st, due), id)
    decreases |due|
  {
    if due != [] {
      TimeoutsStayEnded(Expire(st, due[0]), due[1..], id);
    }
  }

  lemma {:induction false} UnregisterStaysEnded(st: State, ids: seq<nat>, id: nat)
    ensures Ended(UnregisterAll(st, ids), id) <==> Ended(st, id)
    decreases |ids|
  {
    if ids != [] {
      UnregisterStaysEnded(if ids[0] < st.listeners then Erase(st, ids[0]) else st, ids[1..], id);
    }
  }

  /** The phases behind the queue. */
  lemma RestStaysEnded(st: State, r: Round, id: nat)
    requires Ended(ProcessQueue(UnregisterAll(st, r.unregistered), Queue(st, r)), id)
    ensures Ended(Iterate(st, r), id)
  {
    var waiting := UnregisterAll(st, r.unregistered);
    var reports := Delivered(waiting.registered, r.reports);
    var served := ProcessQueue(waiting, Readable(reports));
    ErrorsStayEnded(served, Failing(reports), id);
    UnregisterStaysEnded(Serviced(waiting, reports), r.late, id);
    var serviced := UnregisterAll(Serviced(waiting, reports), r.late);
    TimeoutsStayEnded(Checkout(serviced, r.elapsed), KeysOf(Due(serviced, r.elapsed)), id);
  }

  lemma {:induction false} NotInQueue(queue: seq<Report>, listeners: nat, id: nat)
    requires forall i :: 0 <= i < |queue| ==> queue[i].id != id
    ensures CallsInQueue(queue, listeners, id) == []
  {
    if queue != [] {
      NotInQueue(queue[1..], listeners, id);
    }
  }

  lemma FalseCloses(st: State, r: Report)
    requires Inv(st, []) && r.id in st.registered && r.id >= st.listeners && !r.keep
    ensures Ended(Service(st, r), r.id)
  {
    UnregisterKeeps(st, r.requests);
    assert r.id in UnregisterAll(st, r.requests).live;
  }

  /** A false ends the client, and is the only call of the queue. */
  lemma {:induction false} FalseEnds(st: State, queue: seq<Report>, id: nat)
    requires Inv(st, []) && Serviceable(st, queue)
    ensures var calls := CallsInQueue(queue, st.listeners, id);
            |calls| <= 1 && (calls == [false] ==> Ended(ProcessQueue(st, queue), id))
    decreases |queue|
  {
    if queue != [] {
      var next, rest := Service(st, queue[0]), queue[1..];
      assert ProcessQueue(st, queue) == ProcessQueue(next, rest);
      assert queue[0] in queue;
      ServeKeeps(st, queue[0]);
      ServiceableTail(st, queue);
      if queue[0].id == id && id >= st.listeners {
        NotInQueue(rest, st.listeners, id);
        assert CallsInQueue(queue, st.listeners, id)[0] == queue[0].keep;
        if !queue[0].keep {
          FalseCloses(st, queue[0]);
          QueueStaysEnded(next, rest, id);
        }
      } else {
        FalseEnds(next, rest, id);
      }
    }
  }

  lemma EndedNotCalled(st: State, queue: seq<Report>, id: nat)
    requires Inv(st, []) && Serviceable(st, queue) && Ended(st, id)
    ensures CallsInQueue(queue, st.listeners, id) == []
  {
    forall i | 0 <= i < |queue|
      ensures queue[i].id != id
    {
      assert queue[i] in queue;
    }
    NotInQueue(queue, st.listeners, id);
  }

  lemma QueueServiceable(st: State, r: Round)
    requires Inv(st, [])
    ensures var waiting := UnregisterAll(st, r.unregistered);
            Inv(waiting, []) && Serviceable(waiting, Queue(st, r))
  {
    UnregisterKeeps(st, r.unregistered);
    var waiting := UnregisterAll(st, r.unregistered);
    FailingServiceable(waiting, Delivered(waiting.registered, r.reports));
  }

  lemma {:induction false} EndedNeverCalled(st: State, rounds: seq<Round>, id: nat)
    requires Inv(st, []) && Ended(st, id)
    ensures Calls(st, rounds, id) == []
    decreases |rounds|
  {
    if rounds != [] && st.count != 0 {
      var waiting := UnregisterAll(st, rounds[0].unregistered);
      QueueServiceable(st, rounds[0]);
      UnregisterStaysEnded(st, rounds[0].unregistered, id);
      EndedNotCalled(waiting, Queue(st, rounds[0]), id);
      QueueStaysEnded(waiting, Queue(st, rounds[0]), id);
      RestStaysEnded(st, rounds[0], id);
      IterateKeeps(st, rounds[0]);
      EndedNeverCalled(Iterate(st, rounds[0]), rounds[1..], id);
    }
  }

  /** In every run `process` is never called again for a client for which it returned false. */
  lemma {:induction false} CallsEnd(st: State, rounds: seq<Round>, id: nat)
    requires Inv(st, [])
    ensures EndsAtFalse(Calls(st, rounds, id))
    decreases |rounds|
  {
    if rounds != [] && st.count != 0 {
      var next := Iterate(st, rounds[0]);
      QueueServiceable(st, rounds[0]);
      FalseEnds(UnregisterAll(st, rounds[0].unregistered), Queue(st, rounds[0]), id);
      IterateKeeps(st, rounds[0]);
      CallsEnd(next, rounds[1..], id);
      var calls := CallsInQueue(Queue(st, rounds[0]), st.listeners, id);
      if calls == [false] {
        RestStaysEnded(st, rounds[0], id);
        EndedNeverCalled(next, rounds[1..], id);
      }
      EndsAtFalseBehind(calls, Calls(next, rounds[1..], id));
    }
  }

  // ---------- the bound ----------

  /** The calls for a client in a run of the loop, when they come to these outcomes. */
  predicate RunsTo(timeout: nat, listeners: nat, clock: int, rounds: seq<Round>, id: nat,
                   max: nat, outcomes: seq<Outcome>) {
    Calls(RegisterFrom(Fresh(timeout, listeners, clock), 0), rounds, id) == Results(max, 0, outcomes)
  }

  /** Over the whole life of a connection, with a limit of n, at most n + 1 responses are
      written. */
  lemma ConnectionBound(timeout: nat, listeners: nat, clock: int, rounds: seq<Round>, id: nat,
                        max: nat, outcomes: seq<Outcome>)
    requires max > 0 && RunsTo(timeout, listeners, clock, rounds, id, max, outcomes)
    ensures CountWritten(outcomes) <= max + 1
  {
    var empty := Fresh(timeout, listeners, clock);
    FreshInv(timeout, listeners, clock);
    RegisterKeeps(empty, 0);
    CallsEnd(RegisterFrom(empty, 0), rounds, id);
    WrittenBound(max, 0, outcomes);
  }

  /** The client asks n times, and is kept but for the last time. */
  function Asking(n: nat): seq<Round> {
    if n == 0 then [] else [AskOnce(n > 1)] + Asking(n - 1)
  }

  function AskOnce(keep: bool): Round {
    Round([], [Report(1, false, true, [], keep, 0, [])], [], 0)
  }

  lemma CallsStep(st: State, r: Round, rest: seq<Round>, id: nat)
    requires st.count != 0
    ensures Calls(st, [r] + rest, id) ==
            CallsInQueue(Queue(st, r), st.listeners, id) + Calls(Iterate(st, r), rest, id)
  {
    assert ([r] + rest)[1..] == rest;
  }

  lemma PersistentStep(max: nat, times: nat, n: nat)
    requires max > 0 && n > 0 && times + n == max + 1
    ensures Results(max, times, Persistent(n)) == [n > 1] + Results(max, times + 1, Persistent(n - 1))
  {
    assert Persistent(n)[1..] == Persistent(n - 1);
  }

  lemma AskingStep(t: nat, now: int, log: seq<Event>, n: nat)
    requires t > 0 && n > 1
    ensures Calls(OneClient(t, now, {0, 1}, 2, 0, log), Asking(n), 1) ==
            [true] + Calls(OneClient(t, now, {0, 1}, 2, 0, log + [Served(1, now)]), Asking(n - 1), 1)
  {
    CallsStep(OneClient(t, now, {0, 1}, 2, 0, log), AskOnce(true), Asking(n - 1), 1);
    ServeRound(t, now, log, Report(1, false, true, [], true, 0, []));
  }

  lemma AskingEnds(t: nat, now: int, log: seq<Event>, n: nat)
    requires n == 1
    ensures Calls(OneClient(t, now, {0, 1}, 2, 0, log), Asking(n), 1) == [false]
  {
    var st := OneClient(t, now, {0, 1}, 2, 0, log);
    assert Asking(n) == [AskOnce(false)] + Asking(n - 1);
    CallsStep(st, AskOnce(false), [], 1);
  }

  lemma {:induction false} AskingResults(st: State, t: nat, now: int, log: seq<Event>, max: nat, times: nat, n: nat)
    requires t > 0 && max > 0 && n > 0 && times + n == max + 1 && st == OneClient(t, now, {0, 1}, 2, 0, log)
    ensures Calls(st, Asking(n), 1) == Results(max, times, Persistent(n))
    decreases n
  {
    if n > 1 {
      var next := OneClient(t, now, {0, 1}, 2, 0, log + [Served(1, now)]);
      AskingStep(t, now, log, n);
      AskingResults(next, t, now, log + [Served(1, now)], max, times + 1, n - 1);
      AskingMore(Calls(next, Asking(n - 1), 1), max, times, n);
    } else {
      PersistentEnds(max, times, n);
      AskingEnds(t, now, log, n);
    }
  }

  lemma AskingMore(rest: seq<bool>, max: nat, times: nat, n: nat)
    requires max > 0 && n > 1 && times + n == max + 1 && rest == Results(max, times + 1, Persistent(n - 1))
    ensures [true] + rest == Results(max, times, Persistent(n))
  {
    PersistentStep(max, times, n);
  }

  lemma PersistentEnds(max: nat, times: nat, n: nat)
    requires n == 1 && times == max > 0
    ensures Results(max, times, Persistent(n)) == [false]
  {
    PersistentStep(max, times, n);
    assert Persistent(n - 1) == [];
  }

  lemma AcceptedFirst(t: nat, now: int, rest: seq<Round>)
    requires t > 0
    ensures var accepting := Round([], [Report(0, false, true, [Connected(0)], false, 0, [])], [], 0);
            Calls(RegisterFrom(Fresh(t, 1, now), 0), [accepting] + rest, 1)
            == Calls(OneClient(t, now, {0, 1}, 2, 0, [Accepted(1, now)]), rest, 1)
  {
    var r := Report(0, false, true, [Connected(0)], false, 0, []);
    var st := State(t, 1, [], {0}, 1, 0, {}, 1, now, []);
    EarlyStart(t, now);
    AcceptRound(t, now, r);
    AcceptingCallsNobody(st, r);
    CallsStep(st, Round([], [r], [], 0), rest, 1);
  }

  lemma AcceptingCallsNobody(st: State, r: Report)
    requires r.id == 0 < st.listeners && !r.error && r.input
    ensures CallsInQueue(Queue(st, Round([], [r], [], 0)), st.listeners, 1) == []
  {
    SplitOne(r);
    NotInQueue([r], st.listeners, 1);
    NotInQueue([], st.listeners, 1);
  }

  /** The bound is reached: there is a run of the loop, with one client that keeps asking, in
      which all max + 1 calls for it write a response, and the last closes it. */
  lemma BoundIsReached(t: nat, now: int, max: nat) returns (rounds: seq<Round>)
    requires max > 0 && t > 0
    ensures RunsTo(t, 1, now, rounds, 1, max, Persistent(max + 1))
    ensures CountWritten(Persistent(max + 1)) == max + 1 && !Results(max, 0, Persistent(max + 1))[max]
  {
    rounds := [Round([], [Report(0, false, true, [Connected(0)], false, 0, [])], [], 0)] + Asking(max + 1);
    AcceptedFirst(t, now, Asking(max + 1));
    AskingResults(OneClient(t, now, {0, 1}, 2, 0, [Accepted(1, now)]), t, now, [Accepted(1, now)], max, 0, max + 1);
    PersistentResults(max, 0, max + 1);
  }
}
