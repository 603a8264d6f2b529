/**
 The event loop of TinyWebServer/src/core/eventloop.cpp as a machine on values. Sockets are
 numbers that are never reused: the listeners come first, every client gets the next one.
 Whatever the outside world decides (which descriptors are reported, what `accept` and
 `process` answer, how much time passes between clock readings, which listeners another
 thread unregisters) is part of the input, so a statement about all inputs is a statement
 about all runs. The EventLoop class is proved to do exactly these steps.
 */
module LoopModel {
  import opened Sequences
  import opened TimerQueue

  /** What the loop does to one socket, in the order in which it does it. */
  datatype Event =
    | Accepted(id: nat, at: int)    // timer started at this clock reading, Accept event raised
    | Served(id: nat, at: int)      // `process` succeeded, timer restarted at this reading
    | Expired(id: nat, at: int)     // taken out of the timer list by `checkout`
    | Closed(id: nat)               // Close event raised
    | Deleted(id: nat)
    | Discarded(id: nat)            // accepted but unusable, deleted at once
    | ListenerError(id: nat)

  const COUNT_LIMIT: nat := 0x1_0000_0000    // the counter is an unsigned int

  datatype State = State(
    timeout: nat,
    listeners: nat,             // the numbers below this are listeners
    timers: seq<Entry<nat>>,    // the timer list: client and deadline
    registered: set<nat>,       // what epoll watches
    count: nat,                 // Epoll::m_count
    surplus: int,               // insertions that were registered already, less erasures that were not
    live: set<nat>,             // clients on the heap
    nextId: nat,
    clock: int,                 // the last clock reading
    log: seq<Event>)

  /** One answer of `accept` while the listener is valid. */
  datatype Acceptance =
    | NoDescriptor
    | Unusable                  // a descriptor whose socket is not valid
    | Connected(elapsed: nat)

  /** One descriptor reported by epoll_wait, with what happens when its turn comes. */
  datatype Report = Report(
    id: nat, error: bool, input: bool,
    acceptances: seq<Acceptance>,   // a listener: until it stops being valid
    keep: bool, elapsed: nat,       // a client: the result of `process`
    requests: seq<nat>)             // listeners unregistered by another thread in front of its turn

  /** One iteration: listeners unregistered by another thread before epoll_wait reports, what it
      reports, listeners unregistered behind the error queue, and the time until `checkout` reads
      the clock. */
  datatype Round = Round(unregistered: seq<nat>, reports: seq<Report>, late: seq<nat>, elapsed: nat)

  // ---------- epoll ----------

  function Insert(st: State, id: nat): State {
    st.(registered := st.registered + {id}, count := (st.count + 1) % COUNT_LIMIT,
        surplus := if id in st.registered then st.surplus + 1 else st.surplus)
  }

  /** The counter goes down whether or not the socket was registered. */
  function Erase(st: State, id: nat): State {
    st.(registered := st.registered - {id}, count := (st.count + COUNT_LIMIT - 1) % COUNT_LIMIT,
        surplus := if id in st.registered then st.surplus else st.surplus - 1)
  }

  const MAX_EVENTS: nat := 256

  /** epoll_wait reports distinct registered descriptors, and no more than the buffer holds. */
  predicate Reportable(registered: set<nat>, reports: seq<Report>) {
    && |reports| <= MAX_EVENTS
    && (forall i :: 0 <= i < |reports| ==> reports[i].id in registered)
    && (forall i, j :: 0 <= i < j < |reports| ==> reports[i].id != reports[j].id)
  }

  /** Reports of any other kind do not arrive. */
  function Delivered(registered: set<nat>, reports: seq<Report>): seq<Report> {
    if Reportable(registered, reports) then reports else []
  }

  function Failing(reports: seq<Report>): seq<Report> {
    if reports == [] then []
    else
      var r := reports[|reports| - 1];
      Failing(reports[..|reports| - 1]) + if r.error then [r] else []
  }

  function Readable(reports: seq<Report>): seq<Report> {
    if reports == [] then []
    else
      var r := reports[|reports| - 1];
      Readable(reports[..|reports| - 1]) + if !r.error && r.input then [r] else []
  }

  /** The reported descriptors. */
  function Numbers(reports: seq<Report>): (r: seq<nat>)
    ensures |r| == |reports|
  {
    seq(|reports|, i requires 0 <= i < |reports| => reports[i].id)
  }

  // ---------- the phases ----------

  function Note(st: State, e: Event): State {
    st.(log := st.log + [e])
  }

  /** Takes the client out of the timer list, if it is there. */
  function StopTimer(st: State, id: nat): State {
    var k := IndexOf(st.timers, id);
    if k < |st.timers| then st.(timers := RemoveAt(st.timers, k)) else st
  }

  function Delete(st: State, id: nat): State {
    Note(st.(live := st.live - {id}), Deleted(id))
  }

  function Admit(st: State, elapsed: nat): State {
    var now := st.clock + elapsed;
    var id := st.nextId;
    var started := st.(timers := Started(st.timers, Entry(id, now + st.timeout)),
                       live := st.live + {id}, nextId := id + 1, clock := now);
    Note(Insert(started, id), Accepted(id, now))
  }

  /** One descriptor: an unusable client is deleted at once. */
  function Accept(st: State, answer: Acceptance): State
    requires !answer.NoDescriptor?
  {
    if answer.Unusable? then Note(st.(nextId := st.nextId + 1), Discarded(st.nextId))
    else Admit(st, answer.elapsed)
  }

  function AcceptAll(st: State, answers: seq<Acceptance>): (r: State)
    ensures r.timeout == st.timeout && r.listeners == st.listeners
    decreases |answers|
  {
    if answers == [] || answers[0].NoDescriptor? then st
    else AcceptAll(Accept(st, answers[0]), answers[1..])
  }

  /** The timer at position k is restarted. */
  function Touch(st: State, k: nat, elapsed: nat): State
    requires k < |st.timers|
  {
    var now := st.clock + elapsed;
    Note(st.(timers := Restarted(st.timers, k, now + st.timeout), clock := now),
         Served(st.timers[k].key, now))
  }

  function Serve(st: State, r: Report): State {
    if r.keep then
      var k := IndexOf(st.timers, r.id);
      if k < |st.timers| then Touch(st, k, r.elapsed) else st
    else
      Delete(StopTimer(Erase(Note(st, Closed(r.id)), r.id), r.id), r.id)
  }

  /** One entry of the queue, when its turn has come. */
  function Handle(st: State, r: Report): (st': State)
    ensures st'.timeout == st.timeout && st'.listeners == st.listeners
  {
    if r.id < st.listeners then AcceptAll(st, r.acceptances) else Serve(st, r)
  }

  function Service(st: State, r: Report): (st': State)
    ensures st'.timeout == st.timeout && st'.listeners == st.listeners
  {
    Handle(UnregisterAll(st, r.requests), r)
  }

  function ProcessQueue(st: State, queue: seq<Report>): (r: State)
    ensures r.timeout == st.timeout && r.listeners == st.listeners
    decreases |queue|
  {
    if queue == [] then st else ProcessQueue(Service(st, queue[0]), queue[1..])
  }

  function Fail(st: State, id: nat): State {
    if id < st.listeners then
      Note(Erase(st, id), ListenerError(id))
    else
      Delete(StopTimer(Note(Erase(st, id), Closed(id)), id), id)
  }

  /** One entry of the error queue. */
  function Failure(st: State, r: Report): (st': State)
    ensures st'.timeout == st.timeout && st'.listeners == st.listeners
  {
    Fail(UnregisterAll(st, r.requests), r.id)
  }

  function ProcessErrors(st: State, queue: seq<Report>): (r: State)
    ensures r.timeout == st.timeout && r.listeners == st.listeners
    decreases |queue|
  {
    if queue == [] then st else ProcessErrors(Failure(st, queue[0]), queue[1..])
  }

  function Expirations(due: seq<Entry<nat>>, now: int): seq<Event> {
    seq(|due|, i requires 0 <= i < |due| => Expired(due[i].key, now))
  }

  function Due(st: State, elapsed: nat): seq<Entry<nat>> {
    st.timers[..DuePrefix(st.timers, st.clock + elapsed)]
  }

  function Checkout(st: State, elapsed: nat): State {
    var now := st.clock + elapsed;
    var n := DuePrefix(st.timers, now);
    st.(timers := st.timers[n..], clock := now, log := st.log + Expirations(st.timers[..n], now))
  }

  function Expire(st: State, id: nat): State {
    Delete(Note(Erase(st, id), Closed(id)), id)
  }

  function ProcessTimeouts(st: State, due: seq<nat>): (r: State)
    ensures r.timeout == st.timeout && r.listeners == st.listeners
    decreases |due|
  {
    if due == [] then st else ProcessTimeouts(Expire(st, due[0]), due[1..])
  }

  /** Another thread unregisters listeners, and nothing but listeners. It may do so at any moment:
      what falls into the handling of one socket touches others and commutes with it. */
  function UnregisterAll(st: State, ids: seq<nat>): (r: State)
    ensures r.timeout == st.timeout && r.listeners == st.listeners
    decreases |ids|
  {
    if ids == [] then st
    else UnregisterAll(if ids[0] < st.listeners then Erase(st, ids[0]) else st, ids[1..])
  }

  /** The listeners are registered one after the other. */
  function RegisterFrom(st: State, first: nat): (r: State)
    ensures r.timeout == st.timeout && r.listeners == st.listeners
    decreases st.listeners - first
  {
    if first >= st.listeners then st else RegisterFrom(Insert(st, first), first + 1)
  }

  /** The two service phases. */
  function Serviced(st: State, reports: seq<Report>): State {
    ProcessErrors(ProcessQueue(st, Readable(reports)), Failing(reports))
  }

  /** The timeout phase. */
  function TimedOut(st: State, elapsed: nat): State {
    ProcessTimeouts(Checkout(st, elapsed), KeysOf(Due(st, elapsed)))
  }

  /** One iteration of the loop body. */
  function Iterate(st: State, r: Round): State {
    var waiting := UnregisterAll(st, r.unregistered);
    var serviced := Serviced(waiting, Delivered(waiting.registered, r.reports));
    TimedOut(UnregisterAll(serviced, r.late), r.elapsed)
  }

  /** The loop, until nothing is registered any more or it is told to stop (the rounds end). */
  function Exec(st: State, rounds: seq<Round>): (r: State)
    ensures r.timeout == st.timeout && r.listeners == st.listeners
    decreases |rounds|
  {
    if rounds == [] || st.count == 0 then st else Exec(Iterate(st, rounds[0]), rounds[1..])
  }

  /** The client in front is taken out of the timer list, closed and deleted. */
  function DestroyFirst(st: State): State
    requires st.timers != []
  {
    var id := st.timers[0].key;
    Delete(Note(st.(timers := st.timers[1..]), Closed(id)), id)
  }

  /** The destructor. */
  function Destroy(st: State): (r: State)
    ensures r.timeout == st.timeout && r.listeners == st.listeners
    decreases |st.timers|
  {
    if st.timers == [] then st else Destroy(DestroyFirst(st))
  }

  /** A loop with its listeners, before anything is registered. */
  function Fresh(timeout: nat, listeners: nat, clock: int): State {
    State(timeout, listeners, [], {}, 0, 0, {}, listeners, clock, [])
  }

  /** A whole life: registration, the loop, the destructor. */
  function Running(timeout: nat, listeners: nat, clock: int, rounds: seq<Round>): State {
    Exec(RegisterFrom(Fresh(timeout, listeners, clock), 0), rounds)
  }
}
