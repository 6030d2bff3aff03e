/**
 The queue and the deferred commands as the script keeps them: arrays and an object of current
 requests changed in place, by functions that call one another.
 */
module AjaxQueue {
  import M = AjaxModel
  import opened AjaxModel

  class AjaxQueue {
    var q: seq<nat>
    var current: set<nat>
    var idCounter: nat
    var finals: seq<Command>
    var enqueued: seq<nat>
    var started: seq<nat>
    var executed: seq<Execution>

    ghost function State(): M.Ajax
      reads this
    {
      M.Ajax(q, current, idCounter, finals, enqueued, started, executed)
    }

    constructor ()
      ensures State() == IDLE
    {
      q, current, idCounter, finals, enqueued, started, executed := [], {}, 0, [], [], [], [];
    }

    method IsRunning() returns (running: bool)
      ensures running <==> M.IsRunning(State())
    {
      running := |current| != 0;
    }

    method Enqueue(e: Enqueue)
      modifies this
      ensures State() == M.EnqueueOne(old(State()), e)
    {
      if !e.isAsync {
        var wasRunning := IsRunning();
        q := q + [e.req];
        enqueued := enqueued + [e.req];
        if !wasRunning {
          Dequeue();
        }
      } else {
        Do1();
      }
    }

    method Dequeue()
      modifies this
      ensures State() == M.Dequeue(old(State()))
    {
      if q != [] {
        started := started + [q[0]];
        q := q[1..];
        Do1();
      }
    }

    method Do1()
      modifies this
      ensures State() == M.Do1(old(State()))
    {
      idCounter := idCounter + 1;
      current := current + {idCounter};
    }

    method EnqueueAll(es: seq<Enqueue>)
      modifies this
      ensures State() == M.EnqueueAll(old(State()), es)
    {
      for i := 0 to |es|
        invariant M.EnqueueAll(old(State()), es) == M.EnqueueAll(State(), es[i..])
      {
        assert es[i..][1..] == es[i + 1..];
        Enqueue(es[i]);
      }
    }

    method ProcessCommand(c: Command)
      modifies this
      ensures State() == M.ProcessCommand(old(State()), c)
    {
      executed := executed + [Execution(c, |current|, |q|)];
      EnqueueAll(c.enqueues);
    }

    /** Carries out the deferred commands, popping them off the end of the list. */
    method ProcessFinalCommands()
      modifies this
      ensures State() == M.ProcessFinals(old(State()))
    {
      while |finals| != 0
        invariant M.ProcessFinals(old(State())) == M.ProcessFinals(State())
        decreases |finals|
      {
        var command := finals[|finals| - 1];
        finals := finals[..|finals| - 1];
        M.EnqueueAllKeeps(State().(executed := executed + [Execution(command, |current|, |q|)]), command.enqueues);
        ProcessCommand(command);
      }
    }

    /** Carries out what a callback does: calls of enqueue, and commands of a response, of which final
        ones are deferred while anything is in flight. */
    method Perform(actions: seq<Action>)
      modifies this
      ensures State() == M.PerformAll(old(State()), actions)
    {
      for i := 0 to |actions|
        invariant M.PerformAll(old(State()), actions) == M.PerformAll(State(), actions[i..])
      {
        assert actions[i..][1..] == actions[i + 1..];
        match actions[i]
        case DoEnqueue(e) => Enqueue(e);
        case DoCommand(command) =>
          var running := IsRunning();
          if command.final && running {
            finals := finals + [command];
          } else {
            ProcessCommand(command);
          }
      }
    }

    /** The end of a request: its callback, the completion event if all is idle, and the next request. */
    method OnRequestDone(id: nat, actions: seq<Action>, before: seq<Enqueue>, after: seq<Enqueue>)
      requires id in current
      modifies this
      ensures State() == M.OnComplete(old(State()), id, actions, before, after)
    {
      Perform(actions);
      current := current - {id};
      var running := IsRunning();
      if |q| == 0 && !running {
        EnqueueAll(before);
        ProcessFinalCommands();
        EnqueueAll(after);
      }
      Dequeue();
    }
  }
}
