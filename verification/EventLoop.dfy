/**
 TinyWebServer/src/core/epoll.cpp and eventloop.cpp with their state. Sockets are addresses;
 `delete` takes an address off the heap, and whatever uses a socket requires it to be on the
 heap. The loop is proved to do exactly the steps of LoopModel.
 */
module EventLoop {
  import opened Sequences
  import opened TimerQueue
  import opened Wrappers
  import opened ClientTimers
  import opened LoopModel
  import LoopTheorems

  /** The objects that exist: the listeners, which outlive the loop, have the first addresses. */
  datatype Heap = Heap(listeners: nat, clients: set<nat>) {
    predicate Has(socket: nat) {
      socket < listeners || socket in clients
    }
  }

  /** What is outside the loop: the memory allocator, the clock, and the event handler. */
  datatype World = World(
    nextId: nat,                // the address of the next client
    clock: int,                 // the last clock reading
    ghost log: seq<Event>)

  /** The kernel's table of watched sockets, and the counter that is kept beside it. */
  class Epoll {
    var interest: set<nat>
    var count: nat
    ghost var surplus: int

    constructor ()
      ensures interest == {} && count == 0 && surplus == 0
    {
      interest, count, surplus := {}, 0, 0;
    }

    method Insert(socket: nat, ghost heap: Heap)
      requires heap.Has(socket)
      modifies this
      ensures interest == old(interest) + {socket}
      ensures count == (old(count) + 1) % COUNT_LIMIT
      ensures surplus == if socket in old(interest) then old(surplus) + 1 else old(surplus)
    {
      if socket in interest {
        surplus := surplus + 1;
      }
      interest, count := interest + {socket}, (count + 1) % COUNT_LIMIT;
    }

    method Erase(socket: nat, ghost heap: Heap)
      requires heap.Has(socket)
      modifies this
      ensures interest == old(interest) - {socket}
      ensures count == (old(count) + COUNT_LIMIT - 1) % COUNT_LIMIT
      ensures surplus == if socket in old(interest) then old(surplus) else old(surplus) - 1
    {
      if socket !in interest {
        surplus := surplus - 1;
      }
      interest, count := interest - {socket}, (count + COUNT_LIMIT - 1) % COUNT_LIMIT;
    }

    /** Sorts what the kernel reports into the two queues, by the flags of each report. */
    method Poll(reports: seq<Report>) returns (events: seq<nat>, errorEvents: seq<nat>)
      ensures events == Numbers(Readable(reports)) && errorEvents == Numbers(Failing(reports))
    {
      events, errorEvents := [], [];
      var i := 0;
      while i < |reports|
        invariant i <= |reports|
        invariant events == Numbers(Readable(reports[..i])) && errorEvents == Numbers(Failing(reports[..i]))
      {
        var r := reports[i];
        assert reports[..i + 1][..i] == reports[..i];
        if r.error {
          errorEvents := errorEvents + [r.id];
        } else if r.input {
          events := events + [r.id];
        }
        i := i + 1;
      }
      assert reports[..|reports|] == reports;
    }
  }

  class EventLoop {
    const listeners: nat
    const epoll: Epoll
    const clients: Clients
    var queue: seq<nat>
    var errorQueue: seq<nat>
    var world: World

    /** The state of the model that this loop is in. */
    ghost function View(): State
      reads this, epoll, clients
    {
      State(clients.timeout, listeners, clients.timers, epoll.interest, epoll.count,
            epoll.surplus, clients.handles.Keys, world.nextId, world.clock, world.log)
    }

    ghost function Sockets(): Heap
      reads this, clients
    {
      Heap(listeners, clients.handles.Keys)
    }

    constructor (timeout: nat, listeners: nat, clock: int)
      ensures fresh(epoll) && fresh(clients) && fresh(clients.manager)
      ensures clients.Valid() && clients.manager.handles == {} && queue == errorQueue == []
      ensures View() == Fresh(timeout, listeners, clock)
    {
      this.listeners := listeners;
      epoll := new Epoll();
      clients := new Clients(timeout);
      queue, errorQueue, world := [], [], World(listeners, clock, []);
    }

    /** A descriptor that `accept` has returned and whose socket is good. */
    method Admit(elapsed: nat)
      requires clients.Valid() && world.nextId !in clients.handles
      modifies this`world, epoll, clients`handles, clients`timers, clients.manager,
               clients.manager.handles`prev, clients.manager.handles`next
      ensures clients.Valid() && View() == LoopModel.Admit(old(View()), elapsed)
      ensures fresh(clients.manager.handles - old(clients.manager.handles))
    {
      var client, now := world.nextId, world.clock + elapsed;
      clients.Start(client, now);
      epoll.Insert(client, Sockets());
      world := World(client + 1, now, world.log + [Accepted(client, now)]);
    }

    /** The ConnectEvent that announces the end of a client that still exists. */
    method RaiseClose(client: nat)
      requires client in clients.handles
      modifies this`world
      ensures world == old(world).(log := old(world).log + [Closed(client)])
    {
      world := world.(log := world.log + [Closed(client)]);
    }

    /** `delete`, when no timer refers to the client any more. */
    method DeleteClient(client: nat)
      requires clients.Valid() && client in clients.handles && client !in KeysOf(clients.timers)
      modifies this`world, clients`handles
      ensures clients.Valid() && View() == LoopModel.Delete(old(View()), client)
    {
      clients.Delete(client);
      world := world.(log := world.log + [Deleted(client)]);
    }

    /** Destroys the timer and the client. */
    method DropClient(client: nat)
      requires clients.Valid() && client in clients.handles
      requires client in KeysOf(clients.timers) && Distinct(KeysOf(clients.timers))
      modifies this`world, clients`handles, clients`timers, clients.manager,
               clients.manager.handles`prev, clients.manager.handles`next
      ensures clients.Valid() && View() == LoopModel.Delete(LoopModel.StopTimer(old(View()), client), client)
      ensures clients.manager.handles <= old(clients.manager.handles)
    {
      LoopTheorems.StopTimerKeeps(View(), client);
      clients.Destory(client);
      DeleteClient(client);
    }

    /** The client branch of processQueue. */
    method Serve(r: Report)
      requires clients.Valid() && r.id in clients.handles
      requires r.id in KeysOf(clients.timers) && Distinct(KeysOf(clients.timers))
      modifies this`world, epoll, clients`handles, clients`timers, clients.manager, clients.manager.handles
      ensures clients.Valid() && View() == LoopModel.Serve(old(View()), r)
      ensures clients.manager.handles <= old(clients.manager.handles)
    {
      if r.keep {
        var now := world.clock + r.elapsed;
        clients.Restart(r.id, now);
        world := world.(clock := now, log := world.log + [Served(r.id, now)]);
      } else {
        RaiseClose(r.id);
        epoll.Erase(r.id, Sockets());
        DropClient(r.id);
      }
    }

    /** One entry of the error queue. */
    method Fail(id: nat)
      requires clients.Valid() && Sockets().Has(id)
      requires id >= listeners ==> id in KeysOf(clients.timers) && Distinct(KeysOf(clients.timers))
      modifies this`world, epoll, clients`handles, clients`timers, clients.manager,
               clients.manager.handles`prev, clients.manager.handles`next
      ensures clients.Valid() && View() == LoopModel.Fail(old(View()), id)
      ensures clients.manager.handles <= old(clients.manager.handles)
    {
      epoll.Erase(id, Sockets());
      if id < listeners {
        world := world.(log := world.log + [ListenerError(id)]);
      } else {
        RaiseClose(id);
        DropClient(id);
      }
    }

    /** One entry of the timeout queue: its timer is gone already. */
    method Expire(client: nat)
      requires clients.Valid() && client in clients.handles && client !in KeysOf(clients.timers)
      modifies this`world, epoll, clients`handles
      ensures clients.Valid() && View() == LoopModel.Expire(old(View()), client)
    {
      epoll.Erase(client, Sockets());
      RaiseClose(client);
      DeleteClient(client);
    }

    /** No client has the next address yet. */
    ghost predicate Numbered()
      reads this, clients
    {
      forall id :: id in clients.handles ==> id < world.nextId
    }

    /** The listener branch of processQueue: accepts until there is nothing left to accept. */
    method AcceptLoop(answers: seq<Acceptance>)
      requires clients.Valid() && Numbered()
      modifies this`world, epoll, clients`handles, clients`timers, clients.manager, clients.manager.handles
      ensures clients.Valid() && View() == AcceptAll(old(View()), answers)
      ensures fresh(clients.manager.handles - old(clients.manager.handles))
    {
      var i := 0;
      while i < |answers| && !answers[i].NoDescriptor?
        invariant i <= |answers| && clients.Valid() && Numbered()
        invariant AcceptAll(View(), answers[i..]) == AcceptAll(old(View()), answers)
        invariant fresh(clients.manager.handles - old(clients.manager.handles))
      {
        AcceptOne(answers[i]);
        assert answers[i..][1..] == answers[i + 1..];
        i := i + 1;
      }
    }

    method AcceptOne(answer: Acceptance)
      requires clients.Valid() && Numbered() && !answer.NoDescriptor?
      modifies this`world, epoll, clients`handles, clients`timers, clients.manager, clients.manager.handles
      ensures clients.Valid() && Numbered()
      ensures View() == Accept(old(View()), answer)
      ensures fresh(clients.manager.handles - old(clients.manager.handles))
    {
      if answer.Unusable? {
        world := World(world.nextId + 1, world.clock, world.log + [Discarded(world.nextId)]);
      } else {
        Admit(answer.elapsed);
      }
    }

    /** One entry of the queue, when its turn has come: a listener accepts, a client is served. */
    method ServiceSocket(r: Report)
      requires clients.Valid() && LoopTheorems.UsableSocket(View(), r.id)
      modifies this`world, epoll, clients`handles, clients`timers, clients.manager, clients.manager.handles
      ensures clients.Valid() && View() == Handle(old(View()), r)
      ensures fresh(clients.manager.handles - old(clients.manager.handles))
    {
      if r.id < listeners {
        AcceptLoop(r.acceptances);
      } else {
        Serve(r);
      }
    }

    /** `answers` says what happens when the entries of the queue are serviced. */
    method ProcessQueue(answers: seq<Report>)
      requires clients.Valid() && queue == Numbers(answers)
      requires LoopTheorems.QueueUsable(View(), answers)
      modifies this`world, this`queue, epoll, clients`handles, clients`timers, clients.manager, clients.manager.handles
      ensures clients.Valid() && View() == LoopModel.ProcessQueue(old(View()), answers)
      ensures queue == [] && fresh(clients.manager.handles - old(clients.manager.handles))
    {
      var i := 0;
      while i < |answers|
        invariant i <= |answers| && clients.Valid()
        invariant LoopTheorems.QueueUsable(View(), answers[i..])
        invariant LoopModel.ProcessQueue(View(), answers[i..]) == LoopModel.ProcessQueue(old(View()), answers)
        invariant fresh(clients.manager.handles - old(clients.manager.handles))
      {
        UnregisterListeners(answers[i].requests);
        ServiceSocket(answers[i]);
        assert answers[i..][1..] == answers[i + 1..];
        i := i + 1;
      }
      queue := [];
    }

    /** `reports` says what is unregistered in front of each entry. */
    method ProcessErrorQueue(reports: seq<Report>)
      requires clients.Valid() && errorQueue == Numbers(reports) && LoopTheorems.ErrorsUsable(View(), reports)
      modifies this`world, this`errorQueue, epoll, clients`handles, clients`timers, clients.manager,
               clients.manager.handles
      ensures clients.Valid() && View() == ProcessErrors(old(View()), reports)
      ensures errorQueue == [] && clients.manager.handles <= old(clients.manager.handles)
    {
      var i := 0;
      while i < |errorQueue|
        invariant i <= |errorQueue| && errorQueue == old(errorQueue) && clients.Valid()
        invariant LoopTheorems.ErrorsUsable(View(), reports[i..])
        invariant ProcessErrors(View(), reports[i..]) == ProcessErrors(old(View()), reports)
        invariant clients.manager.handles <= old(clients.manager.handles)
      {
        UnregisterListeners(reports[i].requests);
        Fail(errorQueue[i]);
        assert reports[i..][1..] == reports[i + 1..];
        i := i + 1;
      }
      errorQueue := [];
    }

    method ProcessTimeoutQueue()
      requires clients.Valid() && LoopTheorems.ExpiryUsable(View(), errorQueue)
      modifies this`world, this`errorQueue, epoll, clients`handles
      ensures clients.Valid() && View() == ProcessTimeouts(old(View()), old(errorQueue)) && errorQueue == []
    {
      var i := 0;
      while i < |errorQueue|
        invariant i <= |errorQueue| && errorQueue == old(errorQueue) && clients.Valid()
        invariant LoopTheorems.ExpiryUsable(View(), errorQueue[i..])
        invariant ProcessTimeouts(View(), errorQueue[i..]) == ProcessTimeouts(old(View()), old(errorQueue))
      {
        Expire(errorQueue[i]);
        assert errorQueue[i..][1..] == errorQueue[i + 1..];
        i := i + 1;
      }
      errorQueue := [];
    }

    /** The timers that are due give their clients to the error queue. */
    method CheckoutDue(elapsed: nat)
      requires clients.Valid() && errorQueue == []
      modifies this`world, this`errorQueue, clients`timers, clients.manager, clients.manager.handles
      ensures clients.Valid() && View() == Checkout(old(View()), elapsed)
      ensures errorQueue == KeysOf(Due(old(View()), elapsed))
      ensures clients.manager.handles <= old(clients.manager.handles)
    {
      var now := world.clock + elapsed;
      ghost var due := Due(View(), elapsed);
      errorQueue := PopDue(now);
      world := world.(clock := now, log := world.log + Expirations(due, now));
    }

    method PopDue(now: int) returns (r: seq<nat>)
      requires clients.Valid() && errorQueue == []
      modifies clients`timers, clients.manager, clients.manager.handles
      ensures clients.Valid() && clients.manager.handles <= old(clients.manager.handles)
      ensures var n := DuePrefix(old(clients.timers), now);
              clients.timers == old(clients.timers)[n..] && r == KeysOf(old(clients.timers)[..n])
    {
      r := clients.Checkout(errorQueue, now);
    }

    /** WebServer::requestQuit, on another thread or in a signal handler. */
    method UnregisterListeners(sockets: seq<nat>)
      modifies epoll
      ensures View() == UnregisterAll(old(View()), sockets)
    {
      var i := 0;
      while i < |sockets|
        invariant i <= |sockets| && UnregisterAll(View(), sockets[i..]) == UnregisterAll(old(View()), sockets)
      {
        if sockets[i] < listeners {
          epoll.Erase(sockets[i], Sockets());
        }
        assert sockets[i..][1..] == sockets[i + 1..];
        i := i + 1;
      }
    }

    method RegisterListeners()
      modifies epoll
      ensures View() == RegisterFrom(old(View()), 0)
    {
      var i := 0;
      while i < listeners
        invariant i <= listeners && RegisterFrom(View(), i) == RegisterFrom(old(View()), 0)
      {
        epoll.Insert(i, Sockets());
        i := i + 1;
      }
    }

    /** The service phases of the loop body. */
    method ServePhases(reports: seq<Report>)
      requires clients.Valid() && queue == errorQueue == []
      requires LoopTheorems.ServiceUsable(View(), reports)
      modifies this`world, this`queue, this`errorQueue, epoll, clients`handles, clients`timers,
               clients.manager, clients.manager.handles
      ensures clients.Valid() && View() == Serviced(old(View()), reports) && queue == errorQueue == []
      ensures fresh(clients.manager.handles - old(clients.manager.handles))
    {
      queue, errorQueue := epoll.Poll(reports);
      QueuePhase(reports);
      ErrorPhase(reports);
    }

    method QueuePhase(reports: seq<Report>)
      requires clients.Valid() && queue == Numbers(Readable(reports))
      requires LoopTheorems.QueueUsable(View(), Readable(reports))
      modifies this`world, this`queue, epoll, clients`handles, clients`timers, clients.manager, clients.manager.handles
      ensures clients.Valid() && queue == [] && View() == LoopModel.ProcessQueue(old(View()), Readable(reports))
      ensures fresh(clients.manager.handles - old(clients.manager.handles))
    {
      if queue != [] {
        ProcessQueue(Readable(reports));
      }
    }

    method ErrorPhase(reports: seq<Report>)
      requires clients.Valid() && errorQueue == Numbers(Failing(reports))
      requires LoopTheorems.ErrorsUsable(View(), Failing(reports))
      modifies this`world, this`errorQueue, epoll, clients`handles, clients`timers, clients.manager,
               clients.manager.handles
      ensures clients.Valid() && errorQueue == [] && View() == ProcessErrors(old(View()), Failing(reports))
      ensures clients.manager.handles <= old(clients.manager.handles)
    {
      if errorQueue != [] {
        ProcessErrorQueue(Failing(reports));
      }
    }

    /** The timeout phase of the loop body. */
    method TimeoutPhase(elapsed: nat)
      requires clients.Valid() && errorQueue == [] && LoopTheorems.TimeoutUsable(View(), elapsed)
      modifies this`world, this`errorQueue, epoll, clients`handles, clients`timers, clients.manager,
               clients.manager.handles
      ensures clients.Valid() && View() == TimedOut(old(View()), elapsed) && errorQueue == []
      ensures clients.manager.handles <= old(clients.manager.handles)
    {
      CheckoutDue(elapsed);
      if errorQueue != [] {
        ProcessTimeoutQueue();
      }
    }

    /** The loop body. The kernel delivers what it can. */
    method Iteration(r: Round)
      requires clients.Valid() && queue == errorQueue == []
      requires View().count != 0 && LoopTheorems.RoundsUsable(View(), [r])
      modifies this`world, this`queue, this`errorQueue, epoll, clients`handles, clients`timers,
               clients.manager, clients.manager.handles
      ensures clients.Valid() && View() == Iterate(old(View()), r) && queue == errorQueue == []
      ensures fresh(clients.manager.handles - old(clients.manager.handles))
    {
      ghost var waiting := UnregisterAll(View(), r.unregistered);
      ghost var serviced := Serviced(waiting, Delivered(waiting.registered, r.reports));
      Wait(r);
      assert View() == serviced;
      UnregisterListeners(r.late);
      TimeoutPhase(r.elapsed);
    }

    /** From the wait to the end of the error queue. */
    method Wait(r: Round)
      requires clients.Valid() && queue == errorQueue == []
      requires var waiting := UnregisterAll(View(), r.unregistered);
               LoopTheorems.ServiceUsable(waiting, Delivered(waiting.registered, r.reports))
      modifies this`world, this`queue, this`errorQueue, epoll, clients`handles, clients`timers,
               clients.manager, clients.manager.handles
      ensures clients.Valid() && queue == errorQueue == []
      ensures var waiting := UnregisterAll(old(View()), r.unregistered);
              View() == Serviced(waiting, Delivered(waiting.registered, r.reports))
      ensures fresh(clients.manager.handles - old(clients.manager.handles))
    {
      UnregisterListeners(r.unregistered);
      var reports := Delivered(epoll.interest, r.reports);
      ServePhases(reports);
    }

    /** `exec`: runs until nothing is registered any more or it is told to stop. */
    method Exec(rounds: seq<Round>)
      requires clients.Valid() && queue == errorQueue == []
      requires LoopTheorems.RoundsUsable(View(), rounds)
      modifies this`world, this`queue, this`errorQueue, epoll, clients`handles, clients`timers,
               clients.manager, clients.manager.handles
      ensures clients.Valid() && View() == LoopModel.Exec(old(View()), rounds)
      ensures fresh(clients.manager.handles - old(clients.manager.handles))
    {
      ghost var goal := LoopModel.Exec(View(), rounds);
      ghost var states := LoopTheorems.TraceOf(View(), rounds);
      var i := 0;
      LoopTheorems.TraceEnds(states, rounds, goal, 0);
      while i < |rounds| && epoll.count != 0
        invariant i < |states| && View() == states[i]
        invariant i < |rounds| && states[i].count != 0 <==> i < |states| - 1
        invariant clients.Valid() && queue == errorQueue == []
        invariant fresh(clients.manager.handles - old(clients.manager.handles))
      {
        OneRound(rounds, i, states, goal);
        i := i + 1;
      }
    }

    /** The body of the loop. */
    method OneRound(rounds: seq<Round>, i: nat, ghost states: seq<State>, ghost goal: State)
      requires clients.Valid() && queue == errorQueue == []
      requires LoopTheorems.Trace(states, rounds, goal) && i < |states| - 1 && i < |rounds| && View() == states[i]
      modifies this`world, this`queue, this`errorQueue, epoll, clients`handles, clients`timers,
               clients.manager, clients.manager.handles
      ensures clients.Valid() && queue == errorQueue == [] && View() == states[i + 1]
      ensures i + 1 < |rounds| && states[i + 1].count != 0 <==> i + 1 < |states| - 1
      ensures fresh(clients.manager.handles - old(clients.manager.handles))
    {
      assert LoopTheorems.Linked(states, rounds, i);
      LoopTheorems.TraceEnds(states, rounds, goal, i + 1);
      Iteration(rounds[i]);
    }

    /** The destructor. */
    method Destroy()
      requires clients.Valid() && LoopTheorems.DestroyUsable(View())
      modifies this`world, clients`handles, clients`timers, clients.manager, clients.manager.handles
      ensures clients.Valid() && View() == LoopModel.Destroy(old(View()))
    {
      while true
        invariant clients.Valid() && LoopTheorems.DestroyUsable(View())
        invariant LoopModel.Destroy(View()) == LoopModel.Destroy(old(View()))
        invariant clients.manager.handles <= old(clients.manager.handles)
        decreases |clients.timers|
      {
        var more := DestroyNext();
        if !more {
          break;
        }
      }
    }

    /** The body of the loop: the next client that has a timer, if there is one. */
    method DestroyNext() returns (more: bool)
      requires clients.Valid() && LoopTheorems.DestroyUsable(View())
      modifies this`world, clients`handles, clients`timers, clients.manager, clients.manager.handles
      ensures clients.Valid() && clients.manager.handles <= old(clients.manager.handles)
      ensures more <==> old(clients.timers) != []
      ensures !more ==> View() == old(View())
      ensures more ==>
                && View() == DestroyFirst(old(View())) && LoopTheorems.DestroyUsable(View())
                && |clients.timers| < |old(clients.timers)|
    {
      var socket := clients.TakeFirst();
      if socket == None {
        return false;
      }
      RaiseClose(socket.value);
      DeleteClient(socket.value);
      return true;
    }
  }

  /** A whole life of a loop: registration, service, destruction. */
  method Live(timeout: nat, listeners: nat, clock: int, rounds: seq<Round>) returns (loop: EventLoop)
    ensures loop.View() == Destroy(Running(timeout, listeners, clock, rounds))
  {
    LoopTheorems.RunUsable(timeout, listeners, clock, rounds);
    loop := new EventLoop(timeout, listeners, clock);
    loop.RegisterListeners();
    loop.Exec(rounds);
    loop.Destroy();
  }
}
