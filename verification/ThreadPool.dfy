/**
 The thread pool of TinyWebServer/src/util/threadpool.h as a protocol: workers, threads that
 enqueue, and the destructor take one atomic step at a time in any order. Steps that are not
 enabled change nothing, so every list of steps is an interleaving and every interleaving is
 a list of steps.
 */
module ThreadPool {

  type Task = nat

  datatype Worker =
    | Outside           // on its way to the lock
    | Locked            // holds the lock, has not looked at the condition yet
    | Drowsy            // holds the lock, found the condition false, is about to block
    | Asleep            // blocked in the condition variable, lock released
    | Ready             // holds the lock, found the condition true
    | Running(task: Task)
    | Exited

  datatype Enqueuer =
    | Idle
    | Holding(task: Task)       // holds the lock, has not looked at the stop flag yet
    | Accepting(task: Task)     // holds the lock, found the stop flag false
    | Notifying                 // lock released, notify_one still to come

  datatype Destructor = Alive | Stopped | Notified | Joined

  datatype Owner = Free | ByWorker(i: nat) | ByEnqueuer(j: nat)

  datatype State = State(
    mutex: Owner,
    stop: bool,
    tasks: seq<Task>,
    workers: seq<Worker>,
    enqueuers: seq<Enqueuer>,
    destructor: Destructor,
    accepted: seq<Task>,        // what has been enqueued, in this order
    taken: seq<Task>,           // what has been dequeued, in this order
    done: multiset<Task>,       // what has been run to its end
    rejected: multiset<Task>)   // what `enqueue` has thrown back

  datatype Step =
    | Lock(i: nat) | Test(i: nat) | Block(i: nat) | SpuriousWake(i: nat) | Take(i: nat) | Finish(i: nat)
    | Enter(j: nat, task: Task) | Ask(j: nat) | Emplace(j: nat) | NotifyOne(j: nat, i: nat)
    | SetStop | NotifyAll | Join

  function SetWorker(s: State, i: nat, w: Worker): State
    requires i < |s.workers|
  {
    s.(workers := s.workers[i := w])
  }

  function SetEnqueuer(s: State, j: nat, e: Enqueuer): State
    requires j < |s.enqueuers|
  {
    s.(enqueuers := s.enqueuers[j := e])
  }

  predicate At(s: State, i: nat, w: Worker) {
    i < |s.workers| && s.workers[i] == w
  }

  function WakeAll(workers: seq<Worker>): seq<Worker> {
    seq(|workers|, i requires 0 <= i < |workers| => if workers[i] == Asleep then Outside else workers[i])
  }

  predicate SomebodyAsleep(s: State) {
    exists i :: 0 <= i < |s.workers| && s.workers[i] == Asleep
  }

  predicate AllExited(s: State) {
    forall i :: 0 <= i < |s.workers| ==> s.workers[i] == Exited
  }

  predicate Enabled(s: State, step: Step) {
    match step
    case Lock(i) => At(s, i, Outside) && s.mutex == Free
    case Test(i) => At(s, i, Locked)
    case Block(i) => At(s, i, Drowsy)
    case SpuriousWake(i) => At(s, i, Asleep)
    case Take(i) => At(s, i, Ready) && (s.stop || s.tasks != [])
    case Finish(i) => i < |s.workers| && s.workers[i].Running?
    case Enter(j, _) => j < |s.enqueuers| && s.enqueuers[j].Idle? && s.mutex == Free
    case Ask(j) => j < |s.enqueuers| && s.enqueuers[j].Holding?
    case Emplace(j) => j < |s.enqueuers| && s.enqueuers[j].Accepting?
    case NotifyOne(j, i) =>
      j < |s.enqueuers| && s.enqueuers[j].Notifying? && (SomebodyAsleep(s) ==> At(s, i, Asleep))
    case SetStop => s.destructor.Alive?
    case NotifyAll => s.destructor.Stopped?
    case Join => s.destructor.Notified? && AllExited(s)
  }

  function Apply(s: State, step: Step): State {
    if !Enabled(s, step) then s else
    match step
    case Lock(i) => SetWorker(s, i, Locked).(mutex := ByWorker(i))
    case Test(i) => SetWorker(s, i, if s.stop || s.tasks != [] then Ready else Drowsy)
    case Block(i) => SetWorker(s, i, Asleep).(mutex := Free)
    case SpuriousWake(i) => SetWorker(s, i, Outside)
    case Take(i) =>
      if s.stop && s.tasks == [] then SetWorker(s, i, Exited).(mutex := Free)
      else SetWorker(s, i, Running(s.tasks[0])).(mutex := Free, tasks := s.tasks[1..], taken := s.taken + [s.tasks[0]])
    case Finish(i) => SetWorker(s, i, Outside).(done := s.done + multiset{s.workers[i].task})
    case Enter(j, task) => SetEnqueuer(s, j, Holding(task)).(mutex := ByEnqueuer(j))
    case Ask(j) =>
      var task := s.enqueuers[j].task;
      if s.stop then SetEnqueuer(s, j, Idle).(mutex := Free, rejected := s.rejected + multiset{task})
      else SetEnqueuer(s, j, Accepting(task))
    case Emplace(j) =>
      var task := s.enqueuers[j].task;
      SetEnqueuer(s, j, Notifying).(mutex := Free, tasks := s.tasks + [task], accepted := s.accepted + [task])
    case NotifyOne(j, i) =>
      var woken := if SomebodyAsleep(s) then SetWorker(s, i, Outside) else s;
      SetEnqueuer(woken, j, Idle)
    case SetStop => s.(stop := true, destructor := Stopped)
    case NotifyAll => s.(workers := WakeAll(s.workers), destructor := Notified)
    case Join => s.(destructor := Joined)
  }

  function Run(s: State, steps: seq<Step>): State
    decreases |steps|
  {
    if steps == [] then s else Run(Apply(s, steps[0]), steps[1..])
  }

  /** The pool after its constructor, with n workers, and m threads that may enqueue. */
  function Start(n: nat, m: nat): State {
    State(Free, false, [], seq(n, _ => Outside), seq(m, _ => Idle), Alive, [], [], multiset{}, multiset{})
  }

  // ---------- the invariant ----------

  function Carries(w: Worker): multiset<Task> {
    if w.Running? then multiset{w.task} else multiset{}
  }

  /** The tasks that are being run. */
  function InHand(workers: seq<Worker>): multiset<Task> {
    if workers == [] then multiset{} else InHand(workers[..|workers| - 1]) + Carries(workers[|workers| - 1])
  }

  ghost predicate Exclusive(s: State) {
    && (forall i {:trigger s.workers[i]} :: 0 <= i < |s.workers| ==>
          ((s.workers[i].Locked? || s.workers[i].Drowsy? || s.workers[i].Ready?) <==> s.mutex == ByWorker(i)))
    && (forall j {:trigger s.enqueuers[j]} :: 0 <= j < |s.enqueuers| ==>
          ((s.enqueuers[j].Holding? || s.enqueuers[j].Accepting?) <==> s.mutex == ByEnqueuer(j)))
    && (s.mutex.ByWorker? ==> s.mutex.i < |s.workers|)
    && (s.mutex.ByEnqueuer? ==> s.mutex.j < |s.enqueuers|)
  }

  /** Nothing is lost or reordered between enqueue and dequeue ... */
  ghost predicate Ordered(s: State) {
    s.accepted == s.taken + s.tasks
  }

  /** ... nor lost or duplicated between dequeue and the end of its execution. */
  ghost predicate Conserved(s: State) {
    multiset(s.taken) == s.done + InHand(s.workers)
  }

  /** A worker that found the condition true still finds something to do, or the stop flag. */
  ghost predicate ReadyForGood(s: State) {
    forall i {:trigger s.workers[i]} :: 0 <= i < |s.workers| && s.workers[i].Ready? ==> s.stop || s.tasks != []
  }

  /** A worker only exits when the pool is closed, and it stays closed. */
  ghost predicate ExitedForGood(s: State) {
    forall i {:trigger s.workers[i]} :: 0 <= i < |s.workers| && s.workers[i].Exited? ==> Closed(s)
  }

  ghost predicate StopFlag(s: State) {
    && (s.stop <==> !s.destructor.Alive?)
    && (s.rejected != multiset{} ==> s.stop)
    && (s.destructor.Joined? ==> AllExited(s))
  }

  /** Stopped and drained, and nobody is about to put anything in any more. */
  ghost predicate Closed(s: State) {
    && s.stop && s.tasks == []
    && forall j {:trigger s.enqueuers[j]} :: 0 <= j < |s.enqueuers| ==> !s.enqueuers[j].Accepting?
  }

  /** A worker that is about to block has nothing to do. */
  ghost predicate DrowsyInVain(s: State) {
    forall i {:trigger s.workers[i]} :: 0 <= i < |s.workers| && s.workers[i].Drowsy? ==> s.tasks == []
  }

  /** On its way to the queue. */
  predicate Heading(w: Worker) {
    w.Outside? || w.Locked? || w.Ready?
  }

  function HeadingCount(workers: seq<Worker>): nat {
    if workers == [] then 0
    else HeadingCount(workers[..|workers| - 1]) + if Heading(workers[|workers| - 1]) then 1 else 0
  }

  function NoticeCount(enqueuers: seq<Enqueuer>): nat {
    if enqueuers == [] then 0
    else NoticeCount(enqueuers[..|enqueuers| - 1]) + if enqueuers[|enqueuers| - 1].Notifying? then 1 else 0
  }

  /** No wake-up is lost: while somebody sleeps, each waiting task has a worker of its own that is
      on its way, or a notification that is. */
  ghost predicate Attended(s: State) {
    !s.stop && SomebodyAsleep(s) ==> |s.tasks| <= HeadingCount(s.workers) + NoticeCount(s.enqueuers)
  }

  ghost predicate Inv(s: State) {
    && Exclusive(s) && Ordered(s) && Conserved(s) && ReadyForGood(s) && ExitedForGood(s) && StopFlag(s)
    && DrowsyInVain(s) && Attended(s)
  }

  lemma {:induction false} InHandUpdate(workers: seq<Worker>, i: nat, w: Worker)
    requires i < |workers|
    ensures InHand(workers[i := w]) + Carries(workers[i]) == InHand(workers) + Carries(w)
  {
    var last := |workers| - 1;
    var u := workers[i := w];
    if i == last {
      assert u[..last] == workers[..last];
    } else {
      var front := workers[..last];
      assert u[..last] == front[i := w] && u[last] == workers[last];
      InHandUpdate(front, i, w);
      AddToBoth(InHand(u[..last]), Carries(workers[i]), InHand(front), Carries(w), Carries(workers[last]));
    }
  }

  lemma AddToBoth(a: multiset<Task>, x: multiset<Task>, b: multiset<Task>, y: multiset<Task>, c: multiset<Task>)
    requires a + x == b + y
    ensures (a + c) + x == (b + c) + y
  {
    assert (a + c) + x == (a + x) + c;
    assert (b + c) + y == (b + y) + c;
  }

  lemma CancelFromBoth(taken: multiset<Task>, taken': multiset<Task>, done: multiset<Task>, done': multiset<Task>,
                       hand: multiset<Task>, hand': multiset<Task>, c: multiset<Task>, c': multiset<Task>)
    requires taken == done + hand && hand' + c == hand + c' && taken' + done + c == taken + done' + c'
    ensures taken' == done' + hand'
  {
    forall t
      ensures taken'[t] == (done' + hand')[t]
    {
      assert (hand' + c)[t] == (hand + c')[t];
      assert (taken' + done + c)[t] == (taken + done' + c')[t];
    }
  }

  lemma {:induction false} InHandWakeAll(workers: seq<Worker>)
    ensures InHand(WakeAll(workers)) == InHand(workers)
  {
    if workers != [] {
      var last := |workers| - 1;
      assert WakeAll(workers)[..last] == WakeAll(workers[..last]);
      InHandWakeAll(workers[..last]);
    }
  }

  lemma {:induction false} InHandNone(workers: seq<Worker>)
    requires forall i :: 0 <= i < |workers| ==> !workers[i].Running?
    ensures InHand(workers) == multiset{}
  {
    if workers != [] {
      InHandNone(workers[..|workers| - 1]);
    }
  }

  lemma ApplyExclusive(s: State, step: Step)
    requires Exclusive(s)
    ensures Exclusive(Apply(s, step))
  {
    if OfWorker(step) {
      WorkerExclusive(s, step);
    }
  }

  lemma WorkerExclusive(s: State, step: Step)
    requires Exclusive(s) && OfWorker(step)
    ensures Exclusive(Apply(s, step))
  {
  }

  lemma ApplyOrdered(s: State, step: Step)
    requires Ordered(s)
    ensures Ordered(Apply(s, step))
  {
  }

  predicate OfWorker(step: Step) {
    !(step.NotifyAll? || step.Enter? || step.Ask? || step.Emplace? || step.SetStop? || step.Join?)
  }

  lemma ApplyConserved(s: State, step: Step)
    requires Conserved(s)
    ensures Conserved(Apply(s, step))
  {
    if step.NotifyAll? {
      InHandWakeAll(s.workers);
    } else if OfWorker(step) && step.i < |s.workers| {
      WorkerStep(s, step);
      WorkerBalance(s, step);
      WorkerConserved(s, Apply(s, step), step.i);
    } else {
      OtherStep(s, step);
    }
  }

  lemma WorkerConserved(s: State, s': State, i: nat)
    requires Conserved(s) && i < |s.workers| && |s'.workers| == |s.workers|
    requires s'.workers == s.workers[i := s'.workers[i]]
    requires multiset(s'.taken) + s.done + Carries(s.workers[i])
             == multiset(s.taken) + s'.done + Carries(s'.workers[i])
    ensures Conserved(s')
  {
    InHandUpdate(s.workers, i, s'.workers[i]);
    CancelFromBoth(multiset(s.taken), multiset(s'.taken), s.done, s'.done, InHand(s.workers), InHand(s'.workers),
                   Carries(s.workers[i]), Carries(s'.workers[i]));
  }

  lemma OtherStep(s: State, step: Step)
    requires !step.NotifyAll? && (OfWorker(step) ==> step.i >= |s.workers|)
    ensures var s' := Apply(s, step); s'.taken == s.taken && s'.done == s.done && s'.workers == s.workers
  {
  }

  /** A step of worker i, or one that wakes it, touches no other worker. */
  lemma WorkerStep(s: State, step: Step)
    requires OfWorker(step) && step.i < |s.workers|
    ensures var s' := Apply(s, step);
            |s'.workers| == |s.workers| && s'.workers == s.workers[step.i := s'.workers[step.i]]
  {
  }

  /** It dequeues a task, finishes the one in its hand, or does neither. */
  lemma WorkerBalance(s: State, step: Step)
    requires OfWorker(step) && step.i < |s.workers|
    ensures var s' := Apply(s, step);
            multiset(s'.taken) + s.done + Carries(s.workers[step.i])
            == multiset(s.taken) + s'.done + Carries(s'.workers[step.i])
  {
    var s' := Apply(s, step);
    if Enabled(s, step) && step.Finish? {
      assert s'.taken == s.taken;
      assert s'.done == s.done + Carries(s.workers[step.i]);
    } else if !(Enabled(s, step) && step.Take? && s.tasks != []) {
      NeitherBalance(s, step);
    }
  }

  lemma NeitherBalance(s: State, step: Step)
    requires OfWorker(step) && step.i < |s.workers|
    requires !Enabled(s, step) || !(step.Finish? || (step.Take? && s.tasks != []))
    ensures var s' := Apply(s, step);
            s'.taken == s.taken && s'.done == s.done && Carries(s'.workers[step.i]) == Carries(s.workers[step.i])
  {
  }

  lemma ApplyReady(s: State, step: Step)
    requires Exclusive(s) && ReadyForGood(s)
    ensures ReadyForGood(Apply(s, step))
  {
  }

  lemma ApplyExited(s: State, step: Step)
    requires Exclusive(s) && ExitedForGood(s)
    ensures ExitedForGood(Apply(s, step))
  {
  }

  lemma ApplyStopFlag(s: State, step: Step)
    requires StopFlag(s)
    ensures StopFlag(Apply(s, step))
  {
  }

  lemma ApplyDrowsy(s: State, step: Step)
    requires Exclusive(s) && DrowsyInVain(s)
    ensures DrowsyInVain(Apply(s, step))
  {
  }

  lemma {:induction false} HeadingUpdate(workers: seq<Worker>, i: nat, w: Worker)
    requires i < |workers|
    ensures HeadingCount(workers[i := w]) + (if Heading(workers[i]) then 1 else 0) ==
            HeadingCount(workers) + if Heading(w) then 1 else 0
  {
    var last := |workers| - 1;
    if i == last {
      assert workers[i := w][..last] == workers[..last];
    } else {
      assert workers[i := w][..last] == workers[..last][i := w];
      HeadingUpdate(workers[..last], i, w);
    }
  }

  lemma {:induction false} NoticeUpdate(enqueuers: seq<Enqueuer>, j: nat, e: Enqueuer)
    requires j < |enqueuers|
    ensures NoticeCount(enqueuers[j := e]) + (if enqueuers[j].Notifying? then 1 else 0) ==
            NoticeCount(enqueuers) + if e.Notifying? then 1 else 0
  {
    var last := |enqueuers| - 1;
    if j == last {
      assert enqueuers[j := e][..last] == enqueuers[..last];
    } else {
      assert enqueuers[j := e][..last] == enqueuers[..last][j := e];
      NoticeUpdate(enqueuers[..last], j, e);
    }
  }

  /** A worker takes a task with it, and one that finds none leaves none behind. */
  lemma WorkerAttended(s: State, step: Step)
    requires DrowsyInVain(s) && Attended(s) && !s.stop && Enabled(s, step)
    requires OfWorker(step) && !step.NotifyOne?
    ensures Attended(Apply(s, step))
  {
    var s' := Apply(s, step);
    HeadingUpdate(s.workers, step.i, s'.workers[step.i]);
    if SomebodyAsleep(s') && s'.workers[step.i] != Asleep {
      var k :| 0 <= k < |s'.workers| && s'.workers[k] == Asleep;
      assert s.workers[k] == Asleep;
    }
  }

  lemma EnqueuerAttended(s: State, step: Step)
    requires Attended(s) && !s.stop && Enabled(s, step) && (step.Enter? || step.Ask? || step.Emplace?)
    ensures Attended(Apply(s, step))
  {
    NoticeUpdate(s.enqueuers, step.j, Apply(s, step).enqueuers[step.j]);
    assert Apply(s, step).workers == s.workers;
  }

  lemma NoticeAttended(s: State, j: nat, i: nat)
    requires Attended(s) && !s.stop && Enabled(s, NotifyOne(j, i))
    ensures Attended(Apply(s, NotifyOne(j, i)))
  {
    NoticeUpdate(s.enqueuers, j, Idle);
    if SomebodyAsleep(s) {
      HeadingUpdate(s.workers, i, Outside);
    }
  }

  lemma ApplyAttended(s: State, step: Step)
    requires StopFlag(s) && DrowsyInVain(s) && Attended(s)
    ensures Attended(Apply(s, step))
  {
    if Enabled(s, step) && !s.stop {
      match step
      case NotifyOne(j, i) => NoticeAttended(s, j, i);
      case Enter(_, _) => EnqueuerAttended(s, step);
      case Ask(_) => EnqueuerAttended(s, step);
      case Emplace(_) => EnqueuerAttended(s, step);
      case SetStop =>
      case NotifyAll =>
      case Join =>
      case _ => WorkerAttended(s, step);
    }
  }

  /** What every step keeps. */
  lemma ApplyKeeps(s: State, step: Step)
    requires Inv(s)
    ensures Inv(Apply(s, step))
  {
    ApplyExclusive(s, step);
    ApplyOrdered(s, step);
    ApplyConserved(s, step);
    ApplyReady(s, step);
    ApplyExited(s, step);
    ApplyStopFlag(s, step);
    ApplyDrowsy(s, step);
    ApplyAttended(s, step);
  }

  lemma {:induction false} RunKeeps(s: State, steps: seq<Step>)
    requires Inv(s)
    ensures Inv(Run(s, steps))
    decreases |steps|
  {
    if steps != [] {
      ApplyKeeps(s, steps[0]);
      RunKeeps(Apply(s, steps[0]), steps[1..]);
    }
  }

  lemma StartInv(n: nat, m: nat)
    ensures Inv(Start(n, m))
  {
    InHandNone(Start(n, m).workers);
  }

  // ---------- runs ----------

  /** What has been accepted stays accepted, in the same order; what has been taken stays taken. */
  lemma {:induction false} RunMonotone(s: State, steps: seq<Step>)
    ensures s.accepted <= Run(s, steps).accepted && s.taken <= Run(s, steps).taken
    ensures |Run(s, steps).workers| == |s.workers| && |Run(s, steps).enqueuers| == |s.enqueuers|
    ensures s.stop ==> Run(s, steps).stop
    decreases |steps|
  {
    if steps != [] {
      StepMonotone(s, steps[0]);
      RunMonotone(Apply(s, steps[0]), steps[1..]);
    }
  }

  lemma StepMonotone(s: State, step: Step)
    ensures var s' := Apply(s, step);
            && s.accepted <= s'.accepted && s.taken <= s'.taken && (s.stop ==> s'.stop)
            && |s'.workers| == |s.workers| && |s'.enqueuers| == |s.enqueuers|
  {
  }

  lemma InvMeaning(s: State)
    requires Inv(s)
    ensures s.taken <= s.accepted
    ensures multiset(s.accepted) == multiset(s.tasks) + InHand(s.workers) + s.done
    ensures forall i :: At(s, i, Ready) ==> Enabled(s, Take(i))
    ensures s.rejected != multiset{} ==> s.stop
  {
    assert multiset(s.accepted) == multiset(s.taken) + multiset(s.tasks);
  }

  /** Safety in every interleaving: tasks are dequeued in the order in which they were
      enqueued, every accepted task is queued, in the hand of exactly one worker or done, once,
      and no worker looks at the front of an empty queue. */
  lemma RunSafe(n: nat, m: nat, steps: seq<Step>)
    ensures var s := Run(Start(n, m), steps);
            && s.taken <= s.accepted
            && multiset(s.accepted) == multiset(s.tasks) + InHand(s.workers) + s.done
            && (forall i :: At(s, i, Ready) ==> Enabled(s, Take(i)))
            && (s.rejected != multiset{} ==> s.stop) && |s.workers| == n && |s.enqueuers| == m
  {
    StartInv(n, m);
    RunKeeps(Start(n, m), steps);
    RunMonotone(Start(n, m), steps);
    InvMeaning(Run(Start(n, m), steps));
  }

  /** Once a worker has exited, nothing is ever accepted or queued again. */
  lemma {:induction false} ExitIsFinal(s: State, i: nat, steps: seq<Step>)
    requires Inv(s) && At(s, i, Exited)
    ensures var s' := Run(s, steps);
            At(s', i, Exited) && s'.stop && s'.tasks == [] && s'.accepted == s.accepted
    decreases |steps|
  {
    if steps != [] {
      var next := Apply(s, steps[0]);
      ApplyKeeps(s, steps[0]);
      ClosedStep(s, i, steps[0]);
      ExitIsFinal(next, i, steps[1..]);
    }
  }

  lemma ClosedStep(s: State, i: nat, step: Step)
    requires ExitedForGood(s) && At(s, i, Exited)
    ensures At(Apply(s, step), i, Exited) && Apply(s, step).accepted == s.accepted
  {
  }

  /** When all workers of a pool with at least one have exited, every accepted task has been
      run exactly once; in particular after the destructor has joined them. */
  lemma RunDrained(n: nat, m: nat, steps: seq<Step>)
    requires n > 0
    ensures var s := Run(Start(n, m), steps);
            && (s.destructor.Joined? ==> AllExited(s))
            && (AllExited(s) ==> s.tasks == [] && s.taken == s.accepted && s.done == multiset(s.accepted))
  {
    StartInv(n, m);
    RunKeeps(Start(n, m), steps);
    RunMonotone(Start(n, m), steps);
    var s := Run(Start(n, m), steps);
    if AllExited(s) {
      assert s.workers[0].Exited?;
      InHandNone(s.workers);
    }
  }

  // ---------- waking up for the end ----------

  /** A worker is blocked although the destructor's notification is over, and no other
      notification is on its way. */
  ghost predicate Stranded(s: State, i: nat) {
    && s.stop && s.destructor.Notified? && At(s, i, Asleep)
    && forall j {:trigger s.enqueuers[j]} :: 0 <= j < |s.enqueuers| ==> s.enqueuers[j].Idle? || s.enqueuers[j].Holding?
  }

  /** Then only a spurious wake-up can help: without one, the destructor waits for ever. */
  lemma {:induction false} StrandedForEver(s: State, i: nat, steps: seq<Step>)
    requires Stranded(s, i) && forall k :: 0 <= k < |steps| ==> !steps[k].SpuriousWake?
    ensures Stranded(Run(s, steps), i) && !Run(s, steps).destructor.Joined?
    decreases |steps|
  {
    if steps != [] {
      assert forall k :: 0 <= k < |steps[1..]| ==> steps[1..][k] == steps[k + 1];
      StrandedForEver(Apply(s, steps[0]), i, steps[1..]);
    }
  }

  /** Nobody is about to block, and once the destructor has notified nobody is blocked. */
  ghost predicate Roused(s: State) {
    && s.stop
    && (forall i {:trigger s.workers[i]} :: 0 <= i < |s.workers| ==>
          !s.workers[i].Drowsy? && (!s.destructor.Stopped? ==> !s.workers[i].Asleep?))
  }

  lemma {:induction false} RousedForGood(s: State, steps: seq<Step>)
    requires StopFlag(s) && Roused(s)
    ensures Roused(Run(s, steps))
    decreases |steps|
  {
    if steps != [] {
      ApplyStopFlag(s, steps[0]);
      RousedStep(s, steps[0]);
      RousedForGood(Apply(s, steps[0]), steps[1..]);
    }
  }

  lemma RousedStep(s: State, step: Step)
    requires StopFlag(s) && Roused(s)
    ensures Roused(Apply(s, step))
  {
  }

  lemma {:induction false} RunAppend(s: State, steps: seq<Step>, step: Step)
    ensures Run(s, steps + [step]) == Apply(Run(s, steps), step)
    decreases |steps|
  {
    if steps == [] {
      assert ([] + [step])[1..] == [];
    } else {
      assert (steps + [step])[0] == steps[0] && (steps + [step])[1..] == steps[1..] + [step];
      RunAppend(Apply(s, steps[0]), steps[1..], step);
    }
  }

  /** While nobody is asleep, pending notifications of the first k enqueuers come to nothing. */
  lemma {:induction false} NotifyNobody(s: State, k: nat) returns (steps: seq<Step>)
    requires k <= |s.enqueuers| && !SomebodyAsleep(s)
    ensures var s' := Run(s, steps);
            && s' == s.(enqueuers := s'.enqueuers) && |s'.enqueuers| == |s.enqueuers|
            && (forall j {:trigger s'.enqueuers[j]} :: 0 <= j < k ==> !s'.enqueuers[j].Notifying?)
            && (forall j {:trigger s'.enqueuers[j]} :: 0 <= j < |s.enqueuers| ==>
                  s'.enqueuers[j] == s.enqueuers[j] || s'.enqueuers[j].Idle?)
    decreases k
  {
    if k == 0 {
      steps := [];
    } else {
      steps := NotifyNobody(s, k - 1);
      var before := Run(s, steps);
      if before.enqueuers[k - 1].Notifying? {
        RunAppend(s, steps, NotifyOne(k - 1, 0));
        steps := steps + [NotifyOne(k - 1, 0)];
      }
    }
  }

  /** The notifications pass, and then the worker blocks. */
  lemma DrowsyStrands(s: State, i: nat) returns (steps: seq<Step>)
    requires Inv(s) && s.destructor.Alive? && At(s, i, Drowsy)
    ensures Stranded(Run(Apply(s, SetStop), steps), i)
  {
    var stopped := Apply(s, SetStop);
    var notified := Apply(stopped, NotifyAll);
    assert s.mutex == ByWorker(i) && At(notified, i, Drowsy);
    var rest := NotifyNobody(notified, |s.enqueuers|);
    var quiet := Run(notified, rest);
    assert ([NotifyAll] + rest)[1..] == rest;
    RunAppend(stopped, [NotifyAll] + rest, Block(i));
    steps := [NotifyAll] + rest + [Block(i)];
    assert Run(stopped, steps) == Apply(quiet, Block(i));
  }

  ghost predicate CanStrand(s: State) {
    exists steps, i: nat :: Stranded(Run(s, steps), i)
  }

  /** The destructor sets the stop flag without the lock. Exactly when a worker stands between
      its look at the condition and blocking at that moment can it be stranded. */
  lemma StrandedIff(s: State)
    requires Inv(s) && s.destructor.Alive?
    ensures CanStrand(Apply(s, SetStop)) <==>
            (exists i :: 0 <= i < |s.workers| && s.workers[i] == Drowsy)
  {
    var stopped := Apply(s, SetStop);
    if i :| 0 <= i < |s.workers| && s.workers[i] == Drowsy {
      var steps := DrowsyStrands(s, i);
    } else {
      forall steps, i: nat
        ensures !Stranded(Run(stopped, steps), i)
      {
        RousedForGood(stopped, steps);
      }
    }
  }

  /** The window is reachable: a lone worker that finds nothing to do steps into it. */
  lemma StrandingReachable(n: nat, m: nat)
    requires n > 0
    ensures Run(Start(n, m), [Lock(0), Test(0)]).workers[0] == Drowsy
    ensures Run(Start(n, m), [Lock(0), Test(0)]).destructor.Alive?
  {
  }

  /** Otherwise the pool never gets stuck: while workers remain, one of them, or an enqueuing
      thread that holds the lock, can take a step. */
  lemma RousedProgress(s: State)
    requires Inv(s) && Roused(s) && s.destructor.Notified? && !AllExited(s)
    ensures exists step ::
              Enabled(s, step) &&
              (step.Lock? || step.Test? || step.Take? || step.Finish? || step.Ask? || step.Emplace?)
  {
    match s.mutex
    case ByWorker(i) =>
      assert Enabled(s, Test(i)) || Enabled(s, Take(i));
    case ByEnqueuer(j) =>
      assert Enabled(s, Ask(j)) || Enabled(s, Emplace(j));
    case Free =>
      var i :| 0 <= i < |s.workers| && s.workers[i] != Exited;
      assert Enabled(s, Lock(i)) || Enabled(s, Finish(i));
  }

  // ---------- the end ----------

  /** How far a worker is from exiting or sleeping, and an enqueuing thread from being done. */
  function WorkerLeft(w: Worker): nat {
    match w
    case Running(_) => 4
    case Outside => 3
    case Locked => 2
    case Ready => 1
    case Drowsy => 1
    case Asleep => 0
    case Exited => 0
  }

  function EnqueuerLeft(e: Enqueuer): nat {
    match e
    case Idle => 0
    case Holding(_) => 11
    case Accepting(_) => 10
    case Notifying => 4
  }

  function WorkersLeft(workers: seq<Worker>): nat {
    if workers == [] then 0 else WorkersLeft(workers[..|workers| - 1]) + WorkerLeft(workers[|workers| - 1])
  }

  function EnqueuersLeft(enqueuers: seq<Enqueuer>): nat {
    if enqueuers == [] then 0
    else EnqueuersLeft(enqueuers[..|enqueuers| - 1]) + EnqueuerLeft(enqueuers[|enqueuers| - 1])
  }

  function StepsLeft(s: State): nat {
    5 * |s.tasks| + WorkersLeft(s.workers) + EnqueuersLeft(s.enqueuers)
  }

  lemma {:induction false} WorkersLeftUpdate(workers: seq<Worker>, i: nat, w: Worker)
    requires i < |workers|
    ensures WorkersLeft(workers[i := w]) + WorkerLeft(workers[i]) == WorkersLeft(workers) + WorkerLeft(w)
  {
    var last := |workers| - 1;
    if i == last {
      assert workers[i := w][..last] == workers[..last];
    } else {
      assert workers[i := w][..last] == workers[..last][i := w];
      WorkersLeftUpdate(workers[..last], i, w);
    }
  }

  lemma {:induction false} EnqueuersLeftUpdate(enqueuers: seq<Enqueuer>, j: nat, e: Enqueuer)
    requires j < |enqueuers|
    ensures EnqueuersLeft(enqueuers[j := e]) + EnqueuerLeft(enqueuers[j]) == EnqueuersLeft(enqueuers) + EnqueuerLeft(e)
  {
    var last := |enqueuers| - 1;
    if j == last {
      assert enqueuers[j := e][..last] == enqueuers[..last];
    } else {
      assert enqueuers[j := e][..last] == enqueuers[..last][j := e];
      EnqueuersLeftUpdate(enqueuers[..last], j, e);
    }
  }

  /** The destructor has notified, and nobody was about to block when it set the flag. */
  ghost predicate Ending(s: State) {
    Inv(s) && Roused(s) && s.destructor.Notified?
  }

  /** A step of the threads that are there: nobody comes to enqueue, and the join is to come. */
  predicate Inner(step: Step) {
    !step.Enter? && !step.Join?
  }

  /** Every step brings the end nearer. */
  lemma StepEnds(s: State, step: Step)
    requires Ending(s) && Enabled(s, step) && Inner(step)
    ensures Ending(Apply(s, step)) && StepsLeft(Apply(s, step)) < StepsLeft(s)
  {
    ApplyKeeps(s, step);
    RousedStep(s, step);
    if step.Ask? || step.Emplace? || step.NotifyOne? {
      EnqueuerNearer(s, step);
    } else {
      WorkerNearer(s, step);
    }
  }

  lemma WorkerNearer(s: State, step: Step)
    requires Enabled(s, step) && s.stop && (step.Lock? || step.Test? || step.Take? || step.Finish?)
    ensures StepsLeft(Apply(s, step)) < StepsLeft(s)
  {
    var s' := Apply(s, step);
    WorkersLeftUpdate(s.workers, step.i, s'.workers[step.i]);
    assert s'.workers == s.workers[step.i := s'.workers[step.i]];
  }

  lemma EnqueuerNearer(s: State, step: Step)
    requires Enabled(s, step) && s.stop && !SomebodyAsleep(s) && (step.Ask? || step.Emplace? || step.NotifyOne?)
    ensures StepsLeft(Apply(s, step)) < StepsLeft(s)
  {
    var s' := Apply(s, step);
    EnqueuersLeftUpdate(s.enqueuers, step.j, s'.enqueuers[step.j]);
    assert s'.enqueuers == s.enqueuers[step.j := s'.enqueuers[step.j]];
  }

  /** All steps are ones that can be taken, one after the other. */
  predicate AllEnabled(s: State, steps: seq<Step>)
    decreases |steps|
  {
    steps == [] || (Enabled(s, steps[0]) && Inner(steps[0]) && AllEnabled(Apply(s, steps[0]), steps[1..]))
  }

  /** There are only so many steps to take ... */
  lemma {:induction false} StepsAreFew(s: State, steps: seq<Step>)
    requires Ending(s) && AllEnabled(s, steps)
    ensures Ending(Run(s, steps)) && |steps| + StepsLeft(Run(s, steps)) <= StepsLeft(s)
    decreases |steps|
  {
    if steps != [] {
      StepEnds(s, steps[0]);
      StepsAreFew(Apply(s, steps[0]), steps[1..]);
    }
  }

  /** ... and when none is left, all workers have exited and every accepted task has run: without
      new tasks the pool comes to its end, whichever steps are taken. */
  lemma EndReached(n: nat, m: nat, before: seq<Step>, steps: seq<Step>)
    requires n > 0
    requires Roused(Run(Start(n, m), before)) && Run(Start(n, m), before).destructor.Notified?
    requires AllEnabled(Run(Start(n, m), before), steps)
    ensures var s := Run(Run(Start(n, m), before), steps);
            && |steps| <= StepsLeft(Run(Start(n, m), before))
            && ((forall step :: Enabled(s, step) ==> !Inner(step)) ==>
                  AllExited(s) && Enabled(s, Join) && s.done == multiset(s.accepted))
  {
    StartInv(n, m);
    RunKeeps(Start(n, m), before);
    RunMonotone(Start(n, m), before);
    StepsAreFew(Run(Start(n, m), before), steps);
    RunMonotone(Run(Start(n, m), before), steps);
    var s := Run(Run(Start(n, m), before), steps);
    if forall step :: Enabled(s, step) ==> !Inner(step) {
      AllDone(s);
    }
  }

  lemma AllDone(s: State)
    requires Ending(s) && |s.workers| > 0 && forall step :: Enabled(s, step) ==> !Inner(step)
    ensures AllExited(s) && Enabled(s, Join) && s.done == multiset(s.accepted)
  {
    if !AllExited(s) {
      RousedProgress(s);
    }
    assert s.workers[0].Exited?;
    InHandNone(s.workers);
  }

  // ---------- before the end ----------

  /** A step of the threads that are there, with nobody coming and no spurious wake-up. */
  predicate Working(step: Step) {
    !step.Enter? && !step.SpuriousWake? && !step.SetStop? && !step.NotifyAll? && !step.Join?
  }

  /** Every such step brings the pool nearer to rest. */
  lemma StepRests(s: State, step: Step)
    requires Inv(s) && !s.stop && Enabled(s, step) && Working(step)
    ensures Inv(Apply(s, step)) && !Apply(s, step).stop && StepsLeft(Apply(s, step)) < StepsLeft(s)
  {
    ApplyKeeps(s, step);
    if step.Ask? || step.Emplace? {
      EnqueuerRests(s, step);
    } else if step.NotifyOne? {
      NoticeRests(s, step.j, step.i);
    } else {
      WorkerRests(s, step);
    }
  }

  lemma WorkerRests(s: State, step: Step)
    requires Enabled(s, step) && !s.stop
    requires step.Lock? || step.Test? || step.Block? || step.Take? || step.Finish?
    ensures StepsLeft(Apply(s, step)) < StepsLeft(s)
  {
    var s' := Apply(s, step);
    WorkersLeftUpdate(s.workers, step.i, s'.workers[step.i]);
    assert s'.workers == s.workers[step.i := s'.workers[step.i]];
  }

  lemma EnqueuerRests(s: State, step: Step)
    requires Enabled(s, step) && (step.Ask? || step.Emplace?)
    ensures StepsLeft(Apply(s, step)) < StepsLeft(s)
  {
    var s' := Apply(s, step);
    EnqueuersLeftUpdate(s.enqueuers, step.j, s'.enqueuers[step.j]);
    assert s'.enqueuers == s.enqueuers[step.j := s'.enqueuers[step.j]];
  }

  lemma NoticeRests(s: State, j: nat, i: nat)
    requires Enabled(s, NotifyOne(j, i))
    ensures StepsLeft(Apply(s, NotifyOne(j, i))) < StepsLeft(s)
  {
    EnqueuersLeftUpdate(s.enqueuers, j, Idle);
    if SomebodyAsleep(s) {
      WorkersLeftUpdate(s.workers, i, Outside);
    }
  }

  predicate AllWorking(s: State, steps: seq<Step>)
    decreases |steps|
  {
    steps == [] || (Enabled(s, steps[0]) && Working(steps[0]) && AllWorking(Apply(s, steps[0]), steps[1..]))
  }

  lemma {:induction false} WorkIsFinite(s: State, steps: seq<Step>)
    requires Inv(s) && !s.stop && AllWorking(s, steps)
    ensures var s' := Run(s, steps);
            Inv(s') && !s'.stop && |s'.workers| == |s.workers| && |steps| + StepsLeft(s') <= StepsLeft(s)
    decreases |steps|
  {
    if steps != [] {
      StepRests(s, steps[0]);
      WorkIsFinite(Apply(s, steps[0]), steps[1..]);
    }
  }

  /** As long as a thread has something to do, one of them can take a step. */
  lemma WorkProgress(s: State)
    requires Inv(s) && !s.stop && |s.workers| > 0
    requires forall step :: Enabled(s, step) ==> !Working(step)
    ensures forall i :: 0 <= i < |s.workers| ==> s.workers[i] == Asleep
    ensures forall j :: 0 <= j < |s.enqueuers| ==> s.enqueuers[j] == Idle
    ensures s.tasks == [] && s.done == multiset(s.accepted)
  {
    if s.mutex != Free {
      HolderSteps(s);
    }
    forall i | 0 <= i < |s.workers|
      ensures s.workers[i] == Asleep
    {
      assert !Enabled(s, Lock(i)) && !Enabled(s, Finish(i));
    }
    forall j | 0 <= j < |s.enqueuers|
      ensures s.enqueuers[j] == Idle
    {
      assert s.workers[0] == Asleep;
      assert !Enabled(s, NotifyOne(j, 0));
    }
    NobodyHeading(s.workers);
    NobodyNotifying(s.enqueuers);
    assert s.workers[0] == Asleep;
    InHandNone(s.workers);
  }

  lemma HolderSteps(s: State)
    requires Inv(s) && s.mutex != Free
    ensures exists step :: Enabled(s, step) && Working(step)
  {
    match s.mutex
    case ByWorker(i) =>
      assert Enabled(s, Test(i)) || Enabled(s, Block(i)) || Enabled(s, Take(i));
    case ByEnqueuer(j) =>
      assert Enabled(s, Ask(j)) || Enabled(s, Emplace(j));
  }

  lemma {:induction false} NobodyHeading(workers: seq<Worker>)
    requires forall i :: 0 <= i < |workers| ==> workers[i] == Asleep
    ensures HeadingCount(workers) == 0
  {
    if workers != [] {
      NobodyHeading(workers[..|workers| - 1]);
    }
  }

  lemma {:induction false} NobodyNotifying(enqueuers: seq<Enqueuer>)
    requires forall j :: 0 <= j < |enqueuers| ==> enqueuers[j] == Idle
    ensures NoticeCount(enqueuers) == 0
  {
    if enqueuers != [] {
      NobodyNotifying(enqueuers[..|enqueuers| - 1]);
    }
  }

  /** No wake-up is lost in any interleaving: before the stop, a task that waits has a worker that
      is awake or a notification on its way. */
  lemma RunAwake(n: nat, m: nat, steps: seq<Step>)
    requires n > 0
    ensures var s := Run(Start(n, m), steps);
            && (forall i :: At(s, i, Drowsy) ==> s.tasks == [])
            && (!s.stop && s.tasks != [] ==>
                  || (exists i :: 0 <= i < |s.workers| && s.workers[i] != Asleep && s.workers[i] != Exited)
                  || (exists j :: 0 <= j < |s.enqueuers| && s.enqueuers[j] == Notifying))
  {
    StartInv(n, m);
    RunKeeps(Start(n, m), steps);
    RunMonotone(Start(n, m), steps);
    var s := Run(Start(n, m), steps);
    var waking := exists i :: 0 <= i < |s.workers| && s.workers[i] != Asleep && s.workers[i] != Exited;
    if !s.stop && s.tasks != [] && !waking {
      assert s.workers[0] == Asleep;
      AllAsleep(s.workers);
      SomeNotice(s.enqueuers);
    }
  }

  lemma {:induction false} AllAsleep(workers: seq<Worker>)
    requires forall i :: 0 <= i < |workers| ==> workers[i] == Asleep || workers[i] == Exited
    ensures HeadingCount(workers) == 0
  {
    if workers != [] {
      AllAsleep(workers[..|workers| - 1]);
    }
  }

  lemma {:induction false} SomeNotice(enqueuers: seq<Enqueuer>)
    requires NoticeCount(enqueuers) > 0
    ensures exists j :: 0 <= j < |enqueuers| && enqueuers[j] == Notifying
  {
    var last := |enqueuers| - 1;
    if enqueuers[last] != Notifying {
      SomeNotice(enqueuers[..last]);
      var j :| 0 <= j < last && enqueuers[..last][j] == Notifying;
      assert enqueuers[j] == Notifying;
    }
  }

  /** Before the stop, without new calls the threads take only so many steps, whichever they are;
      and when none is left, every accepted task has run and all workers sleep. */
  lemma RestReached(n: nat, m: nat, before: seq<Step>, steps: seq<Step>)
    requires n > 0 && !Run(Start(n, m), before).stop && AllWorking(Run(Start(n, m), before), steps)
    ensures var s := Run(Run(Start(n, m), before), steps);
            && |steps| <= StepsLeft(Run(Start(n, m), before))
            && ((forall step :: Enabled(s, step) ==> !Working(step)) ==>
                  && s.tasks == [] && s.done == multiset(s.accepted)
                  && forall i :: 0 <= i < |s.workers| ==> s.workers[i] == Asleep)
  {
    StartInv(n, m);
    RunKeeps(Start(n, m), before);
    RunMonotone(Start(n, m), before);
    WorkIsFinite(Run(Start(n, m), before), steps);
    var s := Run(Run(Start(n, m), before), steps);
    if forall step :: Enabled(s, step) ==> !Working(step) {
      WorkProgress(s);
    }
  }

  // ---------- what becomes of a call ----------

  /** The tasks of the calls that have got the lock. */
  function Entered(s: State, steps: seq<Step>): multiset<Task>
    decreases |steps|
  {
    if steps == [] then multiset{}
    else
      (if Enabled(s, steps[0]) && steps[0].Enter? then multiset{steps[0].task} else multiset{})
      + Entered(Apply(s, steps[0]), steps[1..])
  }

  function Offered(e: Enqueuer): multiset<Task> {
    if e.Holding? || e.Accepting? then multiset{e.task} else multiset{}
  }

  function Undecided(enqueuers: seq<Enqueuer>): multiset<Task> {
    if enqueuers == [] then multiset{}
    else Undecided(enqueuers[..|enqueuers| - 1]) + Offered(enqueuers[|enqueuers| - 1])
  }

  function Answered(s: State): multiset<Task> {
    multiset(s.accepted) + s.rejected + Undecided(s.enqueuers)
  }

  lemma {:induction false} UndecidedUpdate(enqueuers: seq<Enqueuer>, j: nat, e: Enqueuer)
    requires j < |enqueuers|
    ensures Undecided(enqueuers[j := e]) + Offered(enqueuers[j]) == Undecided(enqueuers) + Offered(e)
  {
    var last := |enqueuers| - 1;
    var u := enqueuers[j := e];
    if j == last {
      assert u[..last] == enqueuers[..last];
    } else {
      assert u[..last] == enqueuers[..last][j := e];
      UndecidedUpdate(enqueuers[..last], j, e);
      AddToBoth(Undecided(u[..last]), Offered(enqueuers[j]), Undecided(enqueuers[..last]), Offered(e),
                Offered(enqueuers[last]));
    }
  }

  lemma Settled(sum: multiset<Task>, sum': multiset<Task>, open: multiset<Task>, open': multiset<Task>,
                was: multiset<Task>, now: multiset<Task>, more: multiset<Task>)
    requires open' + was == open + now && sum' + now == sum + was + more
    ensures sum' + open' == sum + open + more
  {
    forall t
      ensures (sum' + open')[t] == (sum + open + more)[t]
    {
      assert (open' + was)[t] == (open + now)[t];
      assert (sum' + now)[t] == (sum + was + more)[t];
    }
  }

  /** What an enqueuing thread gives up is accepted or rejected. */
  lemma EnqueuerAnswers(s: State, s': State, j: nat, e: Enqueuer, more: multiset<Task>)
    requires j < |s.enqueuers| && s'.enqueuers == s.enqueuers[j := e]
    requires multiset(s'.accepted) + s'.rejected + Offered(e) ==
             multiset(s.accepted) + s.rejected + Offered(s.enqueuers[j]) + more
    ensures Answered(s') == Answered(s) + more
  {
    UndecidedUpdate(s.enqueuers, j, e);
    Settled(multiset(s.accepted) + s.rejected, multiset(s'.accepted) + s'.rejected, Undecided(s.enqueuers),
            Undecided(s'.enqueuers), Offered(s.enqueuers[j]), Offered(e), more);
  }

  lemma StepAnswers(s: State, step: Step)
    ensures Answered(Apply(s, step)) ==
            Answered(s) + if Enabled(s, step) && step.Enter? then multiset{step.task} else multiset{}
  {
    match step
    case Enter(j, task) => EnterAnswers(s, j, task);
    case Ask(j) => AskAnswers(s, j);
    case Emplace(j) => EmplaceAnswers(s, j);
    case NotifyOne(j, i) => NoticeAnswers(s, j, i);
    case _ => OthersAnswer(s, step);
  }

  lemma OthersAnswer(s: State, step: Step)
    requires !step.Enter? && !step.Ask? && !step.Emplace? && !step.NotifyOne?
    ensures Answered(Apply(s, step)) == Answered(s)
  {
  }

  lemma EnterAnswers(s: State, j: nat, task: Task)
    ensures Answered(Apply(s, Enter(j, task))) ==
            Answered(s) + if Enabled(s, Enter(j, task)) then multiset{task} else multiset{}
  {
    if Enabled(s, Enter(j, task)) {
      EnqueuerAnswers(s, Apply(s, Enter(j, task)), j, Holding(task), multiset{task});
    }
  }

  lemma NoticeAnswers(s: State, j: nat, i: nat)
    ensures Answered(Apply(s, NotifyOne(j, i))) == Answered(s)
  {
    if Enabled(s, NotifyOne(j, i)) {
      EnqueuerAnswers(s, Apply(s, NotifyOne(j, i)), j, Idle, multiset{});
    }
  }

  lemma AskAnswers(s: State, j: nat)
    ensures Answered(Apply(s, Ask(j))) == Answered(s)
  {
    if Enabled(s, Ask(j)) {
      var task := s.enqueuers[j].task;
      EnqueuerAnswers(s, Apply(s, Ask(j)), j, if s.stop then Idle else Accepting(task), multiset{});
    }
  }

  lemma EmplaceAnswers(s: State, j: nat)
    ensures Answered(Apply(s, Emplace(j))) == Answered(s)
  {
    if Enabled(s, Emplace(j)) {
      var task := s.enqueuers[j].task;
      assert multiset(s.accepted + [task]) == multiset(s.accepted) + multiset{task};
      EnqueuerAnswers(s, Apply(s, Emplace(j)), j, Notifying, multiset{});
    }
  }

  /** Every call that has got the lock is accepted, rejected or still being decided, once. */
  lemma {:induction false} RunAnswers(s: State, steps: seq<Step>)
    ensures Answered(Run(s, steps)) == Answered(s) + Entered(s, steps)
    decreases |steps|
  {
    if steps != [] {
      StepAnswers(s, steps[0]);
      RunAnswers(Apply(s, steps[0]), steps[1..]);
    }
  }
}
