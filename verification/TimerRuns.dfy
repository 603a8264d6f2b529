/**
 Whole runs of the timer list: with a clock that does not go backwards and a timeout that each
 timer keeps, every step does to the list what a plain table from timers to deadlines says.
 */
module TimerRuns {
  import opened Sequences
  import opened TimerQueue

  /** The operations, with the time that has passed since the last reading of the clock. */
  datatype Op =
    | Start(key: nat, timeout: nat, elapsed: nat)
    | Restart(key: nat, elapsed: nat)
    | Destory(key: nat)
    | Checkout(elapsed: nat)
    | TakeFirst

  datatype Timers = Timers(queue: seq<Entry<nat>>, timeouts: map<nat, nat>, now: int)

  /** Handles are new when they are started and alive when they are used; else nothing happens. */
  predicate Proper(s: Timers, op: Op) {
    match op
    case Start(key, _, _) => key !in KeysOf(s.queue)
    case Restart(key, _) => key in KeysOf(s.queue) && key in s.timeouts
    case Destory(key) => key in KeysOf(s.queue)
    case Checkout(_) => true
    case TakeFirst => s.queue != []
  }

  function Step(s: Timers, op: Op): Timers {
    if !Proper(s, op) then s
    else
      match op
      case Start(key, timeout, elapsed) =>
        var now := s.now + elapsed;
        Timers(Started(s.queue, Entry(key, now + timeout)), s.timeouts[key := timeout], now)
      case Restart(key, elapsed) =>
        var now, k := s.now + elapsed, Place(s.queue, key);
        s.(queue := Restarted(s.queue, k, now + s.timeouts[key]), now := now)
      case Destory(key) => s.(queue := RemoveAt(s.queue, Place(s.queue, key)))
      case Checkout(elapsed) =>
        var now := s.now + elapsed;
        s.(queue := s.queue[DuePrefix(s.queue, now)..], now := now)
      case TakeFirst => s.(queue := s.queue[1..])
  }

  function Place(q: seq<Entry<nat>>, key: nat): (k: nat)
    requires key in KeysOf(q)
    ensures k < |q| && q[k].key == key
  {
    IndexOf(q, key)
  }

  function Run(ops: seq<Op>, start: int): Timers {
    if ops == [] then Timers([], map[], start) else Step(Run(ops[..|ops| - 1], start), ops[|ops| - 1])
  }

  /** All that is due later, and nothing else, is left. */
  ghost predicate OnlyLater(t: map<nat, int>, now: int, t': map<nat, int>) {
    && (forall key <- t' :: key in t && t'[key] == t[key])
    && (forall key <- t :: key in t' <==> t[key] > now)
  }

  /** The same operations on a plain table; its clock reads `now` before them. `Checkout` removes
      exactly what is due; `TakeFirst` one of those that are due first. */
  ghost predicate TableStep(t: map<nat, int>, timeouts: map<nat, nat>, now: int, op: Op, t': map<nat, int>) {
    match op
    case Start(key, timeout, elapsed) => t' == if key !in t then t[key := now + elapsed + timeout] else t
    case Restart(key, elapsed) =>
      t' == if key in t && key in timeouts then t[key := now + elapsed + timeouts[key]] else t
    case Destory(key) => t' == t - {key}
    case Checkout(elapsed) => OnlyLater(t, now + elapsed, t')
    case TakeFirst => if t == map[] then t' == t else exists key :: FirstTaken(t, key, t')
  }

  ghost predicate FirstTaken(t: map<nat, int>, key: nat, t': map<nat, int>) {
    key in t && t' == t - {key} && forall other <- t :: t[key] <= t[other]
  }

  /** `next` is what the operation makes of the list, and its table is what it makes of the table. */
  ghost predicate Refines(s: Timers, op: Op, next: Timers) {
    && next == Step(s, op)
    && TableStep(Table(s.queue), s.timeouts, s.now, op, Table(next.queue))
  }

  /** No deadline lies further ahead than the timer's timeout. */
  ghost predicate Ahead(t: map<nat, int>, timeouts: map<nat, nat>, now: int) {
    forall key <- t :: key in timeouts && t[key] <= now + timeouts[key]
  }

  ghost predicate Inv(s: Timers) {
    Sorted(s.queue) && Distinct(KeysOf(s.queue)) && Ahead(Table(s.queue), s.timeouts, s.now)
  }

  lemma KeyInTable(q: seq<Entry<nat>>, key: nat)
    ensures key in Table(q) <==> key in KeysOf(q)
  {
  }

  lemma StartInv(s: Timers, e: Entry<nat>, timeout: nat, now: int)
    requires Inv(s) && e.key !in KeysOf(s.queue) && s.now <= now && e.deadline == now + timeout
    ensures Inv(Timers(Started(s.queue, e), s.timeouts[e.key := timeout], now))
    ensures Table(Started(s.queue, e)) == Table(s.queue)[e.key := e.deadline]
  {
    StartedSorted(s.queue, e);
    StartedTable(s.queue, e);
  }

  lemma Combine(s: Timers, op: Op, next: Timers, t: map<nat, int>, t': map<nat, int>)
    requires next == Step(s, op) && t == Table(s.queue) && t' == Table(next.queue)
    requires Inv(next) && TableStep(t, s.timeouts, s.now, op, t')
    ensures Inv(Step(s, op)) && Refines(s, op, Step(s, op))
  {
  }

  lemma StartStep(s: Timers, key: nat, timeout: nat, elapsed: nat)
    requires Inv(s) && key !in KeysOf(s.queue)
    ensures var op := Start(key, timeout, elapsed); Inv(Step(s, op)) && Refines(s, op, Step(s, op))
  {
    var e, now := Entry(key, s.now + elapsed + timeout), s.now + elapsed;
    var next := Timers(Started(s.queue, e), s.timeouts[key := timeout], now);
    assert next == Step(s, Start(key, timeout, elapsed));
    StartInv(s, e, timeout, now);
    KeyInTable(s.queue, key);
    Combine(s, Start(key, timeout, elapsed), next, Table(s.queue), Table(next.queue));
  }

  lemma RestartInv(s: Timers, k: nat, now: int)
    requires Inv(s) && k < |s.queue| && s.now <= now && s.queue[k].key in s.timeouts
    ensures var d := now + s.timeouts[s.queue[k].key];
            && Inv(Timers(Restarted(s.queue, k, d), s.timeouts, now))
            && Table(Restarted(s.queue, k, d)) == Table(s.queue)[s.queue[k].key := d]
  {
    var key := s.queue[k].key;
    var d := now + s.timeouts[key];
    TableEntries(s.queue, s.queue[k]);
    RestartedSorted(s.queue, k, d);
    RestartedTable(s.queue, k, d);
    assert s.timeouts[key := s.timeouts[key]] == s.timeouts;
  }

  lemma RestartStep(s: Timers, key: nat, elapsed: nat)
    requires Inv(s) && key in KeysOf(s.queue) && key in s.timeouts
    ensures var op := Restart(key, elapsed); Inv(Step(s, op)) && Refines(s, op, Step(s, op))
  {
    var k, now := Place(s.queue, key), s.now + elapsed;
    var next := Timers(Restarted(s.queue, k, now + s.timeouts[key]), s.timeouts, now);
    assert next == Step(s, Restart(key, elapsed));
    RestartInv(s, k, now);
    KeyInTable(s.queue, key);
    Combine(s, Restart(key, elapsed), next, Table(s.queue), Table(next.queue));
  }

  lemma DestoryStep(s: Timers, key: nat)
    requires Inv(s) && key in KeysOf(s.queue)
    ensures var op := Destory(key); Inv(Step(s, op)) && Refines(s, op, Step(s, op))
  {
    RemovedTable(s.queue, Place(s.queue, key));
  }

  lemma TakeFirstStep(s: Timers)
    requires Inv(s) && s.queue != []
    ensures Inv(Step(s, TakeFirst)) && Refines(s, TakeFirst, Step(s, TakeFirst))
  {
    var key := s.queue[0].key;
    RemovedTable(s.queue, 0);
    assert RemoveAt(s.queue, 0) == s.queue[1..];
    TakeFirstIsMinimal(s.queue);
    assert key in Table(s.queue);
    assert FirstTaken(Table(s.queue), key, Table(s.queue[1..]));
  }

  /** Popping from a sorted list takes away exactly what is due. */
  lemma {:induction false} PopDue(q: seq<Entry<nat>>, now: int, rest: seq<Entry<nat>>)
    requires Sorted(q) && Distinct(KeysOf(q)) && rest == q[DuePrefix(q, now)..]
    ensures Sorted(rest) && Distinct(KeysOf(rest)) && OnlyLater(Table(q), now, Table(rest))
  {
    if q == [] || now < q[0].deadline {
      assert rest == q;
      NothingDue(q, now);
    } else {
      assert rest == q[1..][DuePrefix(q[1..], now)..];
      PopOne(q, now);
      PopDue(q[1..], now, rest);
    }
  }

  lemma NothingDue(q: seq<Entry<nat>>, now: int)
    requires Sorted(q) && Distinct(KeysOf(q)) && (q == [] || now < q[0].deadline)
    ensures forall key <- Table(q) :: Table(q)[key] > now
  {
    forall key <- Table(q)
      ensures Table(q)[key] > now
    {
      TableEntries(q, Entry(key, Table(q)[key]));
    }
  }

  lemma PopOne(q: seq<Entry<nat>>, now: int)
    requires Sorted(q) && Distinct(KeysOf(q)) && q != [] && q[0].deadline <= now
    ensures Sorted(q[1..]) && Distinct(KeysOf(q[1..]))
    ensures Table(q[1..]) == Table(q) - {q[0].key}
    ensures q[0].key in Table(q) && Table(q)[q[0].key] <= now
  {
    RemovedTable(q, 0);
    assert RemoveAt(q, 0) == q[1..];
    TableEntries(q, q[0]);
  }

  lemma CheckoutStep(s: Timers, elapsed: nat)
    requires Inv(s)
    ensures var op := Checkout(elapsed); Inv(Step(s, op)) && Refines(s, op, Step(s, op))
  {
    var next := Step(s, Checkout(elapsed));
    PopDue(s.queue, s.now + elapsed, next.queue);
    Combine(s, Checkout(elapsed), next, Table(s.queue), Table(next.queue));
  }

  /** One step keeps the list in order, and does to the table what the operation means. */
  lemma StepRefines(s: Timers, op: Op)
    requires Inv(s)
    ensures Inv(Step(s, op)) && Refines(s, op, Step(s, op))
  {
    if Proper(s, op) {
      match op
      case Start(key, timeout, elapsed) => StartStep(s, key, timeout, elapsed);
      case Restart(key, elapsed) => RestartStep(s, key, elapsed);
      case Destory(key) => DestoryStep(s, key);
      case Checkout(elapsed) => CheckoutStep(s, elapsed);
      case TakeFirst => TakeFirstStep(s);
    }
  }

  /** In every run, at every step. */
  lemma {:induction false} RunRefines(ops: seq<Op>, start: int)
    ensures Inv(Run(ops, start))
    ensures ops != [] ==> Refines(Run(ops[..|ops| - 1], start), ops[|ops| - 1], Run(ops, start))
    decreases |ops|
  {
    if ops != [] {
      RunRefines(ops[..|ops| - 1], start);
      StepRefines(Run(ops[..|ops| - 1], start), ops[|ops| - 1]);
    }
  }
}
