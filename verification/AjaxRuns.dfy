/** What the ajax queue guarantees over every run of events. */
module AjaxRuns {
  import opened Basics
  import opened AjaxModel

  // ---------------------------------------------------------------- what every operation keeps

  /** Anything queued, and any deferred command, has a request in flight to wait for. */
  predicate Waiting(s: Ajax) {
    && (s.q != [] ==> IsRunning(s))
    && (s.finals != [] ==> IsRunning(s))
  }

  /** Queued requests are started once each, in the order they were queued. */
  predicate Fifo(s: Ajax) {
    s.started + s.q == s.enqueued
  }

  predicate IdsKnown(s: Ajax) {
    forall id | id in s.current :: id <= s.idCounter
  }

  predicate Inv(s: Ajax) {
    Waiting(s) && Fifo(s) && IdsKnown(s)
  }

  lemma DequeueKeeps(s: Ajax)
    requires Fifo(s) && IdsKnown(s)
    ensures Fifo(Dequeue(s)) && IdsKnown(Dequeue(s))
    ensures s.q != [] ==> IsRunning(Dequeue(s))
    ensures IsRunning(s) ==> IsRunning(Dequeue(s))
  {
    if s.q != [] {
      assert s.idCounter + 1 in Dequeue(s).current;
      assert s.started + [s.q[0]] + s.q[1..] == s.started + s.q;
    }
  }

  lemma EnqueueOneKeeps(s: Ajax, e: Enqueue)
    requires Inv(s)
    ensures Inv(EnqueueOne(s, e)) && IsRunning(EnqueueOne(s, e))
  {
    if e.isAsync {
      assert s.idCounter + 1 in EnqueueOne(s, e).current;
    } else {
      var t := s.(q := s.q + [e.req], enqueued := s.enqueued + [e.req]);
      assert t.started + t.q == s.started + s.q + [e.req];
      DequeueKeeps(t);
    }
  }

  lemma {:induction false} EnqueueAllKeepsInv(s: Ajax, es: seq<Enqueue>)
    requires Inv(s)
    ensures Inv(EnqueueAll(s, es))
    ensures IsRunning(s) || es != [] ==> IsRunning(EnqueueAll(s, es))
    decreases |es|
  {
    if es != [] {
      EnqueueOneKeeps(s, es[0]);
      EnqueueAllKeepsInv(EnqueueOne(s, es[0]), es[1..]);
    }
  }

  lemma ProcessCommandKeepsInv(s: Ajax, c: Command)
    requires Inv(s)
    ensures Inv(ProcessCommand(s, c))
    ensures IsRunning(s) ==> IsRunning(ProcessCommand(s, c))
    ensures ProcessCommand(s, c).finals == s.finals
  {
    var t := s.(executed := s.executed + [Execution(c, |s.current|, |s.q|)]);
    EnqueueAllKeepsInv(t, c.enqueues);
    EnqueueAllKeeps(t, c.enqueues);
  }

  lemma {:induction false} PerformAllKeepsInv(s: Ajax, actions: seq<Action>)
    requires Inv(s)
    ensures Inv(PerformAll(s, actions))
    ensures IsRunning(s) ==> IsRunning(PerformAll(s, actions))
    decreases |actions|
  {
    if actions != [] {
      match actions[0] {
        case DoEnqueue(e) => EnqueueOneKeeps(s, e);
        case DoCommand(c) => ProcessCommandKeepsInv(s, c);
      }
      PerformAllKeepsInv(Perform(s, actions[0]), actions[1..]);
    }
  }

  /** Running the deferred commands leaves none, whatever they do, and all else holds but for them. */
  lemma {:induction false} ProcessFinalsKeeps(s: Ajax)
    requires Inv(s.(finals := []))
    ensures Inv(ProcessFinals(s)) && ProcessFinals(s).finals == []
    decreases |s.finals|
  {
    if s.finals != [] {
      var n := |s.finals| - 1;
      var t, c := s.(finals := s.finals[..n]), s.finals[n];
      var u := ProcessCommand(t, c);
      ProcessCommandKeepsInv(t.(finals := []), c);
      FinalsAside(t, c);
      ProcessFinalsKeeps(u);
    }
  }

  /** What a command does does not depend on the deferred ones. */
  lemma FinalsAside(s: Ajax, c: Command)
    ensures ProcessCommand(s.(finals := []), c) == ProcessCommand(s, c).(finals := [])
    ensures ProcessCommand(s, c).finals == s.finals
  {
    var t := s.(executed := s.executed + [Execution(c, |s.current|, |s.q|)]);
    EnqueueAllAside(t, c.enqueues);
    EnqueueAllKeeps(t, c.enqueues);
  }

  lemma {:induction false} EnqueueAllAside(s: Ajax, es: seq<Enqueue>)
    ensures EnqueueAll(s.(finals := []), es) == EnqueueAll(s, es).(finals := [])
    decreases |es|
  {
    if es != [] {
      assert EnqueueOne(s.(finals := []), es[0]) == EnqueueOne(s, es[0]).(finals := []);
      EnqueueAllAside(EnqueueOne(s, es[0]), es[1..]);
    }
  }

  lemma QueueCompleteKeepsInv(s: Ajax, before: seq<Enqueue>, after: seq<Enqueue>)
    requires Inv(s.(finals := []))
    ensures Inv(OnQueueComplete(s, before, after)) && OnQueueComplete(s, before, after).finals == []
  {
    EnqueueAllKeepsInv(s.(finals := []), before);
    EnqueueAllAside(s, before);
    var u := EnqueueAll(s, before);
    ProcessFinalsKeeps(u);
    EnqueueAllKeepsInv(ProcessFinals(u), after);
    EnqueueAllKeeps(ProcessFinals(u), after);
  }

  lemma OnCompleteKeepsInv(s: Ajax, e: Event)
    requires Inv(s) && e.Complete? && Enabled(s, e)
    ensures Inv(Apply(s, e))
  {
    PerformAllKeepsInv(s, e.actions);
    var t := Answered(s, e.id, e.actions);
    if QueueComplete(t) {
      QueueCompleteKeepsInv(t, e.before, e.after);
      DequeueKeeps(OnQueueComplete(t, e.before, e.after));
    } else {
      DequeueKeeps(t);
    }
  }

  lemma {:induction false} InvAlways(es: seq<Event>)
    requires Legal(es)
    ensures Inv(After(es))
  {
    if es != [] {
      var before, e := es[..|es| - 1], es[|es| - 1];
      InvAlways(before);
      match e
      case Script(actions) => PerformAllKeepsInv(After(before), actions);
      case Complete(_, _, _, _) => OnCompleteKeepsInv(After(before), e);
    }
  }

  /** With any mix of queued and asynchronous requests, between events a non-empty queue, and a
      non-empty list of deferred commands, always has a request in flight. */
  lemma NothingIsStranded(es: seq<Event>)
    requires Legal(es)
    ensures After(es).q != [] || After(es).finals != [] ==> After(es).current != {}
  {
    InvAlways(es);
  }

  /** Queued requests start exactly once each and in order: those started, then those still queued, are
      those queued.  Once nothing is in flight, all of them have been started. */
  lemma StartedInOrder(es: seq<Event>)
    requires Legal(es)
    ensures After(es).started + After(es).q == After(es).enqueued
    ensures After(es).current == {} ==> After(es).started == After(es).enqueued
  {
    InvAlways(es);
    assert After(es).started + [] == After(es).started;
  }

  // ---------------------------------------------------------------- at most one request in flight

  predicate Sync(es: seq<Enqueue>) {
    forall e | e in es :: !e.isAsync
  }

  predicate SyncAction(a: Action) {
    match a
    case DoEnqueue(e) => !e.isAsync
    case DoCommand(c) => Sync(c.enqueues)
  }

  predicate SyncActions(actions: seq<Action>) {
    forall a | a in actions :: SyncAction(a)
  }

  predicate SyncEvent(e: Event) {
    SyncActions(e.actions) && (e.Complete? ==> Sync(e.before) && Sync(e.after))
  }

  predicate SyncFinals(s: Ajax) {
    forall i | 0 <= i < |s.finals| :: Sync(s.finals[i].enqueues)
  }

  function FinalEnqueues(finals: seq<Command>): nat {
    if finals == [] then 0 else FinalEnqueues(finals[..|finals| - 1]) + |finals[|finals| - 1].enqueues|
  }

  /** `t` comes from `s` by `n` queued requests: the first starts if nothing was in flight, the rest
      wait. */
  predicate Took(s: Ajax, t: Ajax, n: nat) {
    if IsRunning(s) then t.current == s.current && |t.q| == |s.q| + n
    else |t.current| == Min(n, 1) && |t.q| == Max(n - 1, 0)
  }

  predicate Quiet(s: Ajax) {
    s.q != [] ==> IsRunning(s)
  }

  lemma TookBoth(s: Ajax, t: Ajax, u: Ajax, m: nat, n: nat)
    requires Took(s, t, m) && Took(t, u, n)
    requires !IsRunning(s) ==> s.q == []
    ensures Took(s, u, m + n)
  {
    assert IsRunning(t) <==> |t.current| > 0;
  }

  lemma {:induction false} SyncEnqueues(s: Ajax, es: seq<Enqueue>)
    requires Sync(es) && Quiet(s)
    ensures Took(s, EnqueueAll(s, es), |es|) && Quiet(EnqueueAll(s, es))
    decreases |es|
  {
    if es != [] {
      var t := EnqueueOne(s, es[0]);
      assert Took(s, t, 1);
      SyncEnqueues(t, es[1..]);
      TookBoth(s, t, EnqueueAll(t, es[1..]), 1, |es| - 1);
    }
  }

  lemma SyncCommand(s: Ajax, c: Command)
    requires Sync(c.enqueues) && Quiet(s)
    ensures Took(s, ProcessCommand(s, c), |c.enqueues|) && Quiet(ProcessCommand(s, c))
  {
    SyncEnqueues(s.(executed := s.executed + [Execution(c, |s.current|, |s.q|)]), c.enqueues);
  }

  lemma {:induction false} SyncProcessFinals(s: Ajax)
    requires SyncFinals(s) && Quiet(s)
    ensures Took(s, ProcessFinals(s), FinalEnqueues(s.finals)) && Quiet(ProcessFinals(s))
    decreases |s.finals|
  {
    if s.finals != [] {
      var n := |s.finals| - 1;
      var t, c := s.(finals := s.finals[..n]), s.finals[n];
      var u := ProcessCommand(t, c);
      SyncCommand(t, c);
      FinalsAside(t, c);
      SyncProcessFinals(u);
      TookBoth(t, u, ProcessFinals(u), |c.enqueues|, FinalEnqueues(t.finals));
    }
  }

  /** While something is in flight, a callback that only queues starts nothing. */
  lemma {:induction false} SyncActionsWhileRunning(s: Ajax, actions: seq<Action>)
    requires SyncActions(actions) && SyncFinals(s) && Quiet(s)
    ensures var t := PerformAll(s, actions);
      SyncFinals(t) && Quiet(t) && (IsRunning(s) ==> t.current == s.current) && (!IsRunning(s) ==> |t.current| <= 1)
    decreases |actions|
  {
    if actions != [] {
      var t := Perform(s, actions[0]);
      assert SyncAction(actions[0]);
      match actions[0] {
        case DoEnqueue(e) =>
        case DoCommand(c) =>
          SyncCommand(s, c);
          FinalsAside(s, c);
      }
      SyncActionsWhileRunning(t, actions[1..]);
    }
  }

  /** How many requests the completion event would queue at the end of this request. */
  function CompletionEnqueues(s: Ajax, e: Event): nat
    requires e.Complete?
  {
    |e.before| + FinalEnqueues(Answered(s, e.id, e.actions).finals) + |e.after|
  }

  /** When the only request in flight ends, the next queued one takes its place.  If none is queued,
      what the completion event queues decides: nothing, one, or, from two requests on, two at once. */
  lemma InFlightAfterComplete(s: Ajax, e: Event)
    requires Inv(s) && SyncFinals(s) && e.Complete? && SyncEvent(e) && s.current == {e.id}
    ensures |Apply(s, e).current| ==
            if Answered(s, e.id, e.actions).q != [] then 1 else Min(CompletionEnqueues(s, e), 2)
    ensures SyncFinals(Apply(s, e))
  {
    SyncActionsWhileRunning(s, e.actions);
    PerformAllKeepsInv(s, e.actions);
    var t := Answered(s, e.id, e.actions);
    assert t.current == {} && SyncFinals(t);
    DequeueAddsOne(t);
    if t.q == [] {
      var u := EnqueueAll(t, e.before);
      SyncEnqueues(t, e.before);
      EnqueueAllKeeps(t, e.before);
      var v := ProcessFinals(u);
      SyncProcessFinals(u);
      TookBoth(t, u, v, |e.before|, FinalEnqueues(t.finals));
      var w := EnqueueAll(v, e.after);
      SyncEnqueues(v, e.after);
      TookBoth(t, v, w, |e.before| + FinalEnqueues(t.finals), |e.after|);
      QueueCompleteKeepsInv(t, e.before, e.after);
      DequeueAddsOne(w);
    }
  }

  lemma DequeueAddsOne(s: Ajax)
    requires IdsKnown(s)
    ensures |Dequeue(s).current| == |s.current| + if s.q == [] then 0 else 1
  {
  }

  /** So one request at a time stays one at a time exactly when a completion event queues at most one. */
  lemma OneAtATimeIff(s: Ajax, e: Event)
    requires Inv(s) && SyncFinals(s) && e.Complete? && SyncEvent(e) && s.current == {e.id}
    ensures |Apply(s, e).current| <= 1 <==>
            Answered(s, e.id, e.actions).q != [] || CompletionEnqueues(s, e) <= 1
  {
    InFlightAfterComplete(s, e);
  }

  /** At every end of a request of the run, either another is queued already or the completion event
      queues at most one. */
  predicate Restrained(es: seq<Event>) {
    es == [] ||
    var before, e := es[..|es| - 1], es[|es| - 1];
    && Restrained(before)
    && (e.Complete? ==> Answered(After(before), e.id, e.actions).q != [] || CompletionEnqueues(After(before), e) <= 1)
  }

  /** After no event of the run is there more than one request in flight. */
  predicate OneAtATime(es: seq<Event>) {
    es == [] || (OneAtATime(es[..|es| - 1]) && |After(es).current| <= 1)
  }

  predicate SyncRun(es: seq<Event>) {
    forall e | e in es :: SyncEvent(e)
  }

  lemma OneAtATimeStep(s: Ajax, e: Event)
    requires Inv(s) && SyncFinals(s) && Enabled(s, e) && SyncEvent(e) && |s.current| <= 1
    ensures SyncFinals(Apply(s, e))
    ensures |Apply(s, e).current| <= 1 <==>
            (e.Complete? ==> Answered(s, e.id, e.actions).q != [] || CompletionEnqueues(s, e) <= 1)
  {
    if e.Complete? {
      OnlyMember(s.current, e.id);
      InFlightAfterComplete(s, e);
    } else {
      SyncActionsWhileRunning(s, e.actions);
    }
  }

  /** With only queued requests, there is never more than one request in flight exactly when the run is
      restrained in this sense. */
  lemma {:induction false} AtMostOneInFlightIff(es: seq<Event>)
    requires Legal(es) && SyncRun(es)
    ensures OneAtATime(es) <==> Restrained(es)
    ensures OneAtATime(es) ==> SyncFinals(After(es))
  {
    if es != [] {
      var before, e := es[..|es| - 1], es[|es| - 1];
      AtMostOneInFlightIff(before);
      InvAlways(before);
      assert SyncEvent(e);
      if OneAtATime(before) {
        assert |After(before).current| <= 1;
        OneAtATimeStep(After(before), e);
      }
    }
  }

  lemma OnlyMember(a: set<nat>, x: nat)
    requires x in a && |a| <= 1
    ensures a == {x}
  {
    assert |a - {x}| == 0;
  }

  // ---------------------------------------------------------------- final commands run when all is idle

  /** Everything carried out between two states found nothing in flight and nothing queued. */
  predicate RanIdle(s: Ajax, t: Ajax) {
    forall i | |s.executed| <= i < |t.executed| :: t.executed[i].inFlight == 0 && t.executed[i].queued == 0
  }

  function Reverse(cs: seq<Command>): seq<Command> {
    if cs == [] then [] else [cs[|cs| - 1]] + Reverse(cs[..|cs| - 1])
  }

  function Commands(xs: seq<Execution>): seq<Command> {
    if xs == [] then [] else [xs[0].c] + Commands(xs[1..])
  }

  /** The deferred commands are carried out once each, last deferred first. */
  lemma {:induction false} FinalsRunInReverse(s: Ajax)
    ensures var t := ProcessFinals(s);
      s.executed <= t.executed && Commands(t.executed[|s.executed|..]) == Reverse(s.finals)
    decreases |s.finals|
  {
    if s.finals == [] {
      assert s.executed[|s.executed|..] == [];
    } else {
      var n := |s.finals| - 1;
      var t, c := s.(finals := s.finals[..n]), s.finals[n];
      var u := ProcessCommand(t, c);
      FinalsAside(t, c);
      ProcessCommandLogs(t, c);
      FinalsRunInReverse(u);
      var v := ProcessFinals(u);
      var k := |s.executed|;
      assert v.executed[k] == u.executed[k];
      assert v.executed[k..][1..] == v.executed[k + 1..];
    }
  }

  lemma ProcessCommandLogs(s: Ajax, c: Command)
    ensures ProcessCommand(s, c).executed == s.executed + [Execution(c, |s.current|, |s.q|)]
  {
    EnqueueAllKeeps(s.(executed := s.executed + [Execution(c, |s.current|, |s.q|)]), c.enqueues);
  }

  lemma {:induction false} EnqueueAllRunning(s: Ajax, es: seq<Enqueue>)
    requires IsRunning(s) || es != []
    requires Quiet(s)
    ensures IsRunning(EnqueueAll(s, es))
    decreases |es|
  {
    if es != [] {
      var t := EnqueueOne(s, es[0]);
      assert t.current >= s.current;
      if !IsRunning(s) { assert s.idCounter + 1 in t.current; }
      EnqueueAllRunning(t, es[1..]);
    }
  }

  /** Commands processed while something is in flight all see it. */
  lemma {:induction false} FinalsRunBusy(s: Ajax)
    requires IsRunning(s)
    ensures RanIdle(s, ProcessFinals(s)) <==> s.finals == []
    decreases |s.finals|
  {
    if s.finals != [] {
      FinalsRunInReverse(s);
      var n := |s.finals| - 1;
      var t, c := s.(finals := s.finals[..n]), s.finals[n];
      var u := ProcessCommand(t, c);
      FinalsAside(t, c);
      ProcessCommandLogs(t, c);
      FinalsRunInReverse(u);
      assert ProcessFinals(s).executed[|s.executed|] == u.executed[|s.executed|] == Execution(c, |s.current|, |s.q|);
      assert |s.current| != 0;
    }
  }

  /** No command but possibly the first of the list, the one carried out last, queues anything. */
  predicate OnlyFirstQueues(finals: seq<Command>) {
    |finals| <= 1 || (finals[|finals| - 1].enqueues == [] && OnlyFirstQueues(finals[..|finals| - 1]))
  }

  lemma {:induction false} OnlyFirstQueuesMeans(finals: seq<Command>)
    ensures OnlyFirstQueues(finals) <==> forall i | 0 < i < |finals| :: finals[i].enqueues == []
  {
    if |finals| > 1 {
      OnlyFirstQueuesMeans(finals[..|finals| - 1]);
    }
  }

  /** The next deferred command, carried out when all is idle. */
  lemma NextFinalIdle(s: Ajax) returns (u: Ajax)
    requires QueueComplete(s) && s.finals != []
    ensures var n := |s.finals| - 1;
      var c := s.finals[n];
      && ProcessFinals(s) == ProcessFinals(u)
      && u.finals == s.finals[..n]
      && u.executed == s.executed + [Execution(c, 0, 0)]
      && (if c.enqueues == [] then QueueComplete(u) else IsRunning(u))
  {
    var n := |s.finals| - 1;
    var t, c := s.(finals := s.finals[..n]), s.finals[n];
    u := ProcessCommand(t, c);
    FinalsAside(t, c);
    ProcessCommandLogs(t, c);
    if c.enqueues != [] { EnqueueAllRunning(t.(executed := u.executed), c.enqueues); }
  }

  lemma {:induction false} FinalsRunIdle(s: Ajax)
    requires QueueComplete(s)
    ensures RanIdle(s, ProcessFinals(s)) <==> OnlyFirstQueues(s.finals)
    decreases |s.finals|
  {
    if s.finals != [] {
      var u := NextFinalIdle(s);
      FinalsRunInReverse(u);
      var v := ProcessFinals(u);
      assert v.executed[|s.executed|] == u.executed[|s.executed|];
      assert RanIdle(s, v) <==> RanIdle(u, v);
      if s.finals[|s.finals| - 1].enqueues == [] { FinalsRunIdle(u); } else { FinalsRunBusy(u); }
    }
  }

  /** All deferred commands find everything idle exactly when none but the one carried out last queues a
      request. */
  lemma FinalsRunIdleIff(s: Ajax)
    requires QueueComplete(s)
    ensures RanIdle(s, ProcessFinals(s)) <==> forall i | 0 < i < |s.finals| :: s.finals[i].enqueues == []
  {
    FinalsRunIdle(s);
    OnlyFirstQueuesMeans(s.finals);
  }

  lemma PerformOne(s: Ajax, a: Action)
    ensures PerformAll(s, [a]) == Perform(s, a)
  {
    assert [a][1..] == [];
  }

  lemma PerformTwo(s: Ajax, a: Action, b: Action)
    ensures PerformAll(s, [a, b]) == Perform(Perform(s, a), b)
  {
    assert [a, b][1..] == [b];
    PerformOne(Perform(s, a), b);
  }

  lemma EnqueueOnly(s: Ajax, e: Enqueue)
    ensures EnqueueAll(s, [e]) == EnqueueOne(s, e)
  {
    assert [e][1..] == [];
  }

  lemma TwoFinals(s: Ajax, first: Command, second: Command, req: nat)
    requires QueueComplete(s) && s.finals == [first, second]
    requires first.enqueues == [] && second.enqueues == [Enqueue(req, false)]
    ensures ProcessFinals(s).executed == s.executed + [Execution(second, 0, 0), Execution(first, 1, 0)]
  {
    assert s.finals[..1] == [first] && [first][..0] == [];
    var t := s.(finals := [first]);
    var u := ProcessCommand(t, second);
    EnqueueOnly(t.(executed := t.executed + [Execution(second, 0, 0)]), second.enqueues[0]);
    assert |u.current| == 1 && u.q == [] && u.finals == [first];
    var v := ProcessCommand(u.(finals := []), first);
    assert ProcessFinals(s) == ProcessFinals(u) == ProcessFinals(v) == v;
  }

  /** A response with two final commands, the later of which queues a request: when the queue is
      complete the later one is carried out first, and the earlier with that request in flight. */
  lemma FinalCommandMayRunBusy(s: Ajax, id: nat, first: Command, second: Command, req: nat)
    requires Inv(s) && s.current == {id} && s.q == [] && s.finals == []
    requires first.final && first.enqueues == [] && second.final && second.enqueues == [Enqueue(req, false)]
    ensures var t := Apply(s, Complete(id, [DoCommand(first), DoCommand(second)], [], []));
      t.executed == s.executed + [Execution(second, 0, 0), Execution(first, 1, 0)]
  {
    PerformTwo(s, DoCommand(first), DoCommand(second));
    var t := Answered(s, id, [DoCommand(first), DoCommand(second)]);
    assert t.finals == [first, second] && QueueComplete(t);
    TwoFinals(t, first, second, req);
  }

  /** Such a state is reached by queueing one request. */
  lemma OneRequestInFlight(req: nat)
    ensures var es := [Script([DoEnqueue(Enqueue(req, false))])];
      Legal(es) && Inv(After(es)) && After(es).current == {1} && After(es).q == [] && After(es).finals == []
  {
    var e := Script([DoEnqueue(Enqueue(req, false))]);
    assert [e][..0] == [];
    PerformOne(IDLE, DoEnqueue(Enqueue(req, false)));
    InvAlways([e]);
  }

  /** One final command, and another handler of the completion event that queues a request first: the
      command is carried out with that request in flight. */
  lemma HandlerMayQueueFirst(s: Ajax, id: nat, c: Command, req: nat)
    requires Inv(s) && s.current == {id} && s.q == [] && s.finals == []
    requires c.final && c.enqueues == []
    ensures var t := Apply(s, Complete(id, [DoCommand(c)], [Enqueue(req, false)], []));
      t.executed == s.executed + [Execution(c, 1, 0)]
  {
    PerformOne(s, DoCommand(c));
    var t := Answered(s, id, [DoCommand(c)]);
    assert t.finals == [c] && [c][..0] == [] && QueueComplete(t);
    EnqueueOnly(t, Enqueue(req, false));
    var u := EnqueueOne(t, Enqueue(req, false));
    assert |u.current| == 1 && u.q == [] && u.finals == [c];
    var v := ProcessCommand(u.(finals := []), c);
    assert ProcessFinals(u) == ProcessFinals(v) == v;
  }

  /** If this event makes the queue complete while commands are deferred, no other handler queues
      anything before they are carried out, and none of them but the one carried out last does. */
  predicate Courteous(s: Ajax, e: Event) {
    e.Complete? ==>
      var t := Answered(s, e.id, e.actions);
      QueueComplete(t) ==> t.finals == [] || (e.before == [] && forall i | 0 < i < |t.finals| :: t.finals[i].enqueues == [])
  }

  lemma DequeueLogsNothing(s: Ajax)
    ensures Dequeue(s).executed == s.executed && Dequeue(s).finals == s.finals
  {
  }

  /** What a completion event carries out, if it fires, is what `ProcessFinals` does after the handlers
      that come before it. */
  lemma CompletionLogs(s: Ajax, e: Event)
    requires e.Complete?
    ensures var t := Answered(s, e.id, e.actions);
      Apply(s, e).executed == if QueueComplete(t) then ProcessFinals(EnqueueAll(t, e.before)).executed else t.executed
  {
    var t := Answered(s, e.id, e.actions);
    if QueueComplete(t) {
      var v := ProcessFinals(EnqueueAll(t, e.before));
      EnqueueAllKeeps(v, e.after);
      DequeueLogsNothing(EnqueueAll(v, e.after));
    } else {
      DequeueLogsNothing(t);
    }
  }

  /** Everything deferred that the end of a request carries out finds nothing in flight and nothing
      queued exactly when the event is courteous. */
  lemma CompletionRunsIdleIff(s: Ajax, e: Event)
    requires Inv(s) && e.Complete? && Enabled(s, e)
    ensures RanIdle(Answered(s, e.id, e.actions), Apply(s, e)) <==> Courteous(s, e)
  {
    CompletionLogs(s, e);
    var t := Answered(s, e.id, e.actions);
    if QueueComplete(t) {
      EnqueueAllKeeps(t, e.before);
      if e.before == [] {
        FinalsRunIdleIff(t);
      } else {
        EnqueueAllRunning(t, e.before);
        FinalsRunBusy(EnqueueAll(t, e.before));
      }
    }
  }

  predicate AllFinal(cs: seq<Command>) {
    forall i | 0 <= i < |cs| :: cs[i].final
  }

  predicate FinalsRanIdle(s: Ajax) {
    forall i | 0 <= i < |s.executed| && s.executed[i].c.final ::
      s.executed[i].inFlight == 0 && s.executed[i].queued == 0
  }

  /** A callback defers only final commands, and carries out a final command only when all is idle. */
  lemma {:induction false} PerformAllRunsFinalsIdle(s: Ajax, actions: seq<Action>)
    requires Inv(s) && AllFinal(s.finals)
    ensures var t := PerformAll(s, actions);
      && AllFinal(t.finals) && s.executed <= t.executed
      && (FinalsRanIdle(t) <==> FinalsRanIdle(s))
    decreases |actions|
  {
    if actions != [] {
      var t := Perform(s, actions[0]);
      match actions[0] {
        case DoEnqueue(e) =>
          EnqueueOneKeeps(s, e);
        case DoCommand(c) =>
          ProcessCommandKeepsInv(s, c);
          ProcessCommandLogs(s, c);
      }
      LoggedIdle(s, t);
      PerformAllRunsFinalsIdle(t, actions[1..]);
    }
  }

  /** Logging one command more, idle if final, changes nothing about final commands. */
  lemma LoggedIdle(s: Ajax, t: Ajax)
    requires s.executed <= t.executed && |t.executed| <= |s.executed| + 1
    requires |t.executed| > |s.executed| ==>
             var x := t.executed[|s.executed|]; x.c.final ==> x.inFlight == 0 && x.queued == 0
    ensures FinalsRanIdle(t) <==> FinalsRanIdle(s)
  {
    assert forall i | 0 <= i < |s.executed| :: t.executed[i] == s.executed[i];
  }

  /** Carrying out the deferred commands logs only commands that were deferred. */
  lemma {:induction false} ProcessFinalsLogsFinals(s: Ajax)
    requires AllFinal(s.finals)
    ensures var t := ProcessFinals(s);
      s.executed <= t.executed && forall i | |s.executed| <= i < |t.executed| :: t.executed[i].c.final
    decreases |s.finals|
  {
    if s.finals != [] {
      var n := |s.finals| - 1;
      var t, c := s.(finals := s.finals[..n]), s.finals[n];
      var u := ProcessCommand(t, c);
      FinalsAside(t, c);
      ProcessCommandLogs(t, c);
      ProcessFinalsLogsFinals(u);
      assert ProcessFinals(s).executed[|s.executed|] == u.executed[|s.executed|];
    }
  }

  lemma SplitFinalsIdle(s: Ajax, t: Ajax)
    requires s.executed <= t.executed
    requires forall i | |s.executed| <= i < |t.executed| :: t.executed[i].c.final
    ensures FinalsRanIdle(t) <==> FinalsRanIdle(s) && RanIdle(s, t)
  {
    assert forall i | 0 <= i < |s.executed| :: t.executed[i] == s.executed[i];
  }

  lemma CompletionStep(s: Ajax, e: Event)
    requires Inv(s) && AllFinal(s.finals) && e.Complete? && Enabled(s, e)
    ensures AllFinal(Apply(s, e).finals)
    ensures FinalsRanIdle(Apply(s, e)) <==> FinalsRanIdle(s) && Courteous(s, e)
  {
    PerformAllRunsFinalsIdle(s, e.actions);
    var t := Answered(s, e.id, e.actions);
    assert t.executed == PerformAll(s, e.actions).executed && t.finals == PerformAll(s, e.actions).finals;
    assert FinalsRanIdle(t) <==> FinalsRanIdle(s);
    CompletionRunsIdleIff(s, e);
    CompletionLogs(s, e);
    if QueueComplete(t) {
      PerformAllKeepsInv(s, e.actions);
      QueueCompleteKeepsInv(t, e.before, e.after);
      DequeueLogsNothing(OnQueueComplete(t, e.before, e.after));
      EnqueueAllKeeps(t, e.before);
      ProcessFinalsLogsFinals(EnqueueAll(t, e.before));
    } else {
      DequeueLogsNothing(t);
    }
    SplitFinalsIdle(t, Apply(s, e));
  }

  predicate CourteousRun(es: seq<Event>) {
    es == [] || (CourteousRun(es[..|es| - 1]) && Courteous(After(es[..|es| - 1]), es[|es| - 1]))
  }

  /** In every run, no final command is ever carried out while a request is in flight or queued exactly
      when every event of the run is courteous. */
  lemma {:induction false} FinalsAlwaysRunIdleIff(es: seq<Event>)
    requires Legal(es)
    ensures FinalsRanIdle(After(es)) <==> CourteousRun(es)
    ensures AllFinal(After(es).finals)
  {
    if es != [] {
      var before, e := es[..|es| - 1], es[|es| - 1];
      FinalsAlwaysRunIdleIff(before);
      InvAlways(before);
      if e.Complete? {
        CompletionStep(After(before), e);
      } else {
        PerformAllRunsFinalsIdle(After(before), e.actions);
      }
    }
  }
}
