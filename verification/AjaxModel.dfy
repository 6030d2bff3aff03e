/**
 The browser's ajax queue and the commands deferred until it is empty.  Scripts run one callback at a
 time, but a callback may call back into the queue, so what each callback does is given as data.
 */
module AjaxModel {
  /** A call of `enqueue`. */
  datatype Enqueue = Enqueue(req: nat, isAsync: bool)

  /** A command from the server, and the calls of `enqueue` that carrying it out makes. */
  datatype Command = Command(tag: nat, final: bool, enqueues: seq<Enqueue>)

  /** What a callback does, step by step. */
  datatype Action = DoEnqueue(e: Enqueue) | DoCommand(c: Command)

  /** A command carried out, and how much was in flight and queued just then. */
  datatype Execution = Execution(c: Command, inFlight: nat, queued: nat)

  datatype Ajax = Ajax(
    q: seq<nat>,
    current: set<nat>,
    idCounter: nat,
    finals: seq<Command>,
    enqueued: seq<nat>,        // requests queued so far, in order
    started: seq<nat>,         // queued requests started so far, in order
    executed: seq<Execution>)

  const IDLE := Ajax([], {}, 0, [], [], [], [])

  /** One browser event: a script of the page, or the end of a request.  `before` and `after` are what
      other handlers of the queue's completion event do, around the one that runs final commands. */
  datatype Event =
    | Script(actions: seq<Action>)
    | Complete(id: nat, actions: seq<Action>, before: seq<Enqueue>, after: seq<Enqueue>)

  // ---------------------------------------------------------------- the queue

  predicate IsRunning(s: Ajax) {
    s.current != {}
  }

  function Do1(s: Ajax): Ajax {
    s.(idCounter := s.idCounter + 1, current := s.current + {s.idCounter + 1})
  }

  function Dequeue(s: Ajax): Ajax {
    if s.q == [] then s else Do1(s.(q := s.q[1..], started := s.started + [s.q[0]]))
  }

  function EnqueueOne(s: Ajax, e: Enqueue): Ajax {
    if e.isAsync then Do1(s) else
      var t := s.(q := s.q + [e.req], enqueued := s.enqueued + [e.req]);
      if IsRunning(s) then t else Dequeue(t)
  }

  function EnqueueAll(s: Ajax, es: seq<Enqueue>): Ajax
    decreases |es|
  {
    if es == [] then s else EnqueueAll(EnqueueOne(s, es[0]), es[1..])
  }

  // ---------------------------------------------------------------- commands

  function ProcessCommand(s: Ajax, c: Command): Ajax {
    EnqueueAll(s.(executed := s.executed + [Execution(c, |s.current|, |s.q|)]), c.enqueues)
  }

  function Dispatch(s: Ajax, c: Command): Ajax {
    if c.final && IsRunning(s) then s.(finals := s.finals + [c]) else ProcessCommand(s, c)
  }

  lemma {:induction false} EnqueueAllKeeps(s: Ajax, es: seq<Enqueue>)
    ensures EnqueueAll(s, es).finals == s.finals && EnqueueAll(s, es).executed == s.executed
    decreases |es|
  {
    if es != [] { EnqueueAllKeeps(EnqueueOne(s, es[0]), es[1..]); }
  }

  /** Takes the deferred commands from the end of the list. */
  function ProcessFinals(s: Ajax): Ajax
    decreases |s.finals|
  {
    if s.finals == [] then s else
      var n := |s.finals| - 1;
      var t := s.(finals := s.finals[..n]);
      EnqueueAllKeeps(t.(executed := t.executed + [Execution(s.finals[n], |t.current|, |t.q|)]), s.finals[n].enqueues);
      ProcessFinals(ProcessCommand(t, s.finals[n]))
  }

  // ---------------------------------------------------------------- events

  function Perform(s: Ajax, a: Action): Ajax {
    match a
    case DoEnqueue(e) => EnqueueOne(s, e)
    case DoCommand(c) => Dispatch(s, c)
  }

  function PerformAll(s: Ajax, actions: seq<Action>): Ajax
    decreases |actions|
  {
    if actions == [] then s else PerformAll(Perform(s, actions[0]), actions[1..])
  }

  predicate QueueComplete(s: Ajax) {
    s.q == [] && !IsRunning(s)
  }

  function OnQueueComplete(s: Ajax, before: seq<Enqueue>, after: seq<Enqueue>): Ajax {
    EnqueueAll(ProcessFinals(EnqueueAll(s, before)), after)
  }

  /** The state once the response has been handled and the request taken off the list. */
  function Answered(s: Ajax, id: nat, actions: seq<Action>): Ajax {
    var t := PerformAll(s, actions);
    t.(current := t.current - {id})
  }

  function OnComplete(s: Ajax, id: nat, actions: seq<Action>, before: seq<Enqueue>, after: seq<Enqueue>): Ajax {
    var t := Answered(s, id, actions);
    Dequeue(if QueueComplete(t) then OnQueueComplete(t, before, after) else t)
  }

  predicate Enabled(s: Ajax, e: Event) {
    e.Complete? ==> e.id in s.current
  }

  function Apply(s: Ajax, e: Event): Ajax {
    match e
    case Script(actions) => PerformAll(s, actions)
    case Complete(id, actions, before, after) => OnComplete(s, id, actions, before, after)
  }

  predicate Legal(es: seq<Event>) {
    es == [] || (Legal(es[..|es| - 1]) && Enabled(After(es[..|es| - 1]), es[|es| - 1]))
  }

  function After(es: seq<Event>): Ajax {
    if es == [] then IDLE else Apply(After(es[..|es| - 1]), es[|es| - 1])
  }
}
