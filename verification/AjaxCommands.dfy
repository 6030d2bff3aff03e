/** What becomes of every request queued and every command handed in, over every run of events. */
module AjaxCommands {
  import opened Basics
  import opened AjaxModel
  import opened AjaxRuns

  // ---------------------------------------------------------------- one call of enqueue

  /** An asynchronous request is started whatever is in flight and leaves the queue alone; another one is
      queued, and the first of the queue is started if nothing was in flight. */
  lemma EnqueueStarts(s: Ajax, e: Enqueue)
    requires Inv(s)
    ensures var t := EnqueueOne(s, e);
      && t.executed == s.executed && t.finals == s.finals
      && (if e.isAsync then
            t.q == s.q && t.current == s.current + {t.idCounter} && t.idCounter !in s.current && t.started == s.started
          else if s.current != {} then
            t.q == s.q + [e.req] && t.current == s.current && t.started == s.started
          else
            t.q == [] && |t.current| == 1 && t.started == s.started + [e.req])
  {
    if !e.isAsync && s.current == {} {
      assert s.q == [] && [e.req][1..] == [];
    }
  }

  /** The end of any request starts the next one of the queue, also while others are in flight. */
  lemma EndStartsNext(s: Ajax, e: Event)
    requires Inv(s) && e.Complete? && Enabled(s, e)
    ensures var t, u := Answered(s, e.id, e.actions), Apply(s, e);
      t.q != [] ==> u.q == t.q[1..] && u.started == t.started + [t.q[0]] && |u.current| == |t.current| + 1
  {
    PerformAllKeepsInv(s, e.actions);
    DequeueAddsOne(Answered(s, e.id, e.actions));
  }

  // ---------------------------------------------------------------- one callback

  /** The commands that a callback hands in, final or not. */
  function CommandsOf(actions: seq<Action>): seq<Command> {
    if actions == [] then [] else
      (if actions[0].DoCommand? then [actions[0].c] else []) + CommandsOf(actions[1..])
  }

  function OfKind(cs: seq<Command>, final: bool): seq<Command> {
    if cs == [] then [] else (if cs[0].final == final then [cs[0]] else []) + OfKind(cs[1..], final)
  }

  /** The commands carried out between two states. */
  function NewlyRun(s: Ajax, t: Ajax): seq<Command> {
    if s.executed <= t.executed then Commands(t.executed[|s.executed|..]) else []
  }

  lemma {:induction false} CommandsConcat(a: seq<Execution>, b: seq<Execution>)
    ensures Commands(a + b) == Commands(a) + Commands(b)
  {
    if a == [] {
      assert a + b == b;
    } else {
      assert (a + b)[1..] == a[1..] + b;
      CommandsConcat(a[1..], b);
    }
  }

  lemma NewlyRunBoth(s: Ajax, t: Ajax, u: Ajax)
    requires s.executed <= t.executed <= u.executed
    ensures NewlyRun(s, u) == NewlyRun(s, t) + NewlyRun(t, u)
  {
    var a, b := t.executed[|s.executed|..], u.executed[|t.executed|..];
    assert u.executed[|s.executed|..] == a + b;
    CommandsConcat(a, b);
  }

  lemma NewlyRunOne(s: Ajax, t: Ajax, x: Execution)
    requires t.executed == s.executed + [x]
    ensures s.executed <= t.executed && NewlyRun(s, t) == [x.c]
  {
    var xs := [x];
    assert xs[1..] == [] && t.executed[|s.executed|..] == xs;
    assert Commands(xs) == [x.c] + Commands(xs[1..]);
  }

  lemma NewlyRunNone(s: Ajax, t: Ajax)
    requires t.executed == s.executed
    ensures s.executed <= t.executed && NewlyRun(s, t) == []
  {
  }

  /** What one action carries out and defers. */
  lemma ActionRuns(s: Ajax, a: Action)
    requires Inv(s)
    ensures var t, cs := Perform(s, a), if a.DoCommand? then [a.c] else [];
      && s.executed <= t.executed
      && (if a.DoCommand? && a.c.final && s.current != {}
          then NewlyRun(s, t) == [] && t.finals == s.finals + [a.c]
          else NewlyRun(s, t) == cs && t.finals == s.finals)
  {
    var t := Perform(s, a);
    match a
    case DoEnqueue(e) => NewlyRunNone(s, t);
    case DoCommand(c) =>
      if c.final && IsRunning(s) {
        NewlyRunNone(s, t);
      } else {
        ProcessCommandLogs(s, c);
        EnqueueAllKeeps(s.(executed := s.executed + [Execution(c, |s.current|, |s.q|)]), c.enqueues);
        NewlyRunOne(s, t, Execution(c, |s.current|, |s.q|));
      }
  }

  lemma OfKindConcat(a: seq<Command>, b: seq<Command>, final: bool)
    requires |a| <= 1
    ensures OfKind(a + b, final) == OfKind(a, final) + OfKind(b, final)
  {
    if a == [] {
      assert a + b == b;
    } else {
      assert (a + b)[1..] == b && a[1..] == [];
    }
  }

  /** With a request in flight, as when a response is handled, a callback carries out exactly its ordinary
      commands, in order, and defers exactly its final ones, in order. */
  lemma {:induction false} CallbackRunsOrdinary(s: Ajax, actions: seq<Action>)
    requires Inv(s) && s.current != {}
    ensures var t := PerformAll(s, actions);
      && s.executed <= t.executed
      && NewlyRun(s, t) == OfKind(CommandsOf(actions), false)
      && t.finals == s.finals + OfKind(CommandsOf(actions), true)
    decreases |actions|
  {
    if actions == [] {
      NewlyRunNone(s, s);
      Regroup(s.finals, [], []);
    } else {
      var a, t := actions[0], Perform(s, actions[0]);
      PerformOne(s, a);
      PerformAllKeepsInv(s, [a]);
      ActionRuns(s, a);
      CallbackRunsOrdinary(t, actions[1..]);
      var cs: seq<Command> := if a.DoCommand? then [a.c] else [];
      var rest := CommandsOf(actions[1..]);
      NewlyRunBoth(s, t, PerformAll(t, actions[1..]));
      OfKindConcat(cs, rest, false);
      OfKindConcat(cs, rest, true);
      OneOfKind(cs);
      Regroup(s.finals, OfKind(cs, true), OfKind(rest, true));
      Regroup(s.finals, [], OfKind(rest, true));
    }
  }

  lemma OneOfKind(cs: seq<Command>)
    requires |cs| <= 1
    ensures OfKind(cs, true) == if cs != [] && cs[0].final then cs else []
    ensures OfKind(cs, false) == if cs != [] && !cs[0].final then cs else []
  {
    if cs != [] { assert cs[1..] == []; }
  }

  // ---------------------------------------------------------------- conservation over runs

  /** All commands that the callbacks of a run hand in. */
  function HandedIn(es: seq<Event>): seq<Command> {
    if es == [] then [] else HandedIn(es[..|es| - 1]) + CommandsOf(es[|es| - 1].actions)
  }

  /** The commands a state accounts for: carried out, each as often as it was, or still deferred. */
  function Accounted(s: Ajax): multiset<Command> {
    multiset(Commands(s.executed)) + multiset(s.finals)
  }

  lemma AccountedLater(s: Ajax, t: Ajax)
    requires s.executed <= t.executed
    ensures multiset(Commands(t.executed)) == multiset(Commands(s.executed)) + multiset(NewlyRun(s, t))
  {
    var b := t.executed[|s.executed|..];
    assert t.executed == s.executed + b;
    CommandsConcat(s.executed, b);
  }

  lemma {:induction false} CallbackAccounts(s: Ajax, actions: seq<Action>)
    requires Inv(s)
    ensures var t := PerformAll(s, actions);
      s.executed <= t.executed && Accounted(t) == Accounted(s) + multiset(CommandsOf(actions))
    decreases |actions|
  {
    if actions != [] {
      var a, t := actions[0], Perform(s, actions[0]);
      PerformOne(s, a);
      PerformAllKeepsInv(s, [a]);
      ActionAccounts(s, a);
      CallbackAccounts(t, actions[1..]);
    }
  }

  lemma ActionAccounts(s: Ajax, a: Action)
    requires Inv(s)
    ensures var t := Perform(s, a);
      s.executed <= t.executed && Accounted(t) == Accounted(s) + multiset(if a.DoCommand? then [a.c] else [])
  {
    ActionRuns(s, a);
    AccountedLater(s, Perform(s, a));
  }

  lemma MultisetOfEnds(c: Command, a: seq<Command>, b: seq<Command>)
    requires multiset(a) == multiset(b)
    ensures multiset([c] + a) == multiset(b + [c])
  {
  }

  lemma {:induction false} ReverseIsPermutation(cs: seq<Command>)
    ensures multiset(Reverse(cs)) == multiset(cs)
  {
    if cs != [] {
      var init, c := cs[..|cs| - 1], cs[|cs| - 1];
      assert cs == init + [c];
      ReverseIsPermutation(init);
      MultisetOfEnds(c, Reverse(init), init);
    }
  }

  /** Carrying out the deferred commands moves them all, and loses and repeats none. */
  lemma FinalsAccounted(s: Ajax)
    requires Inv(s.(finals := []))
    ensures s.executed <= ProcessFinals(s).executed
    ensures Accounted(ProcessFinals(s)) == Accounted(s)
  {
    FinalsRunInReverse(s);
    AccountedLater(s, ProcessFinals(s));
    ReverseIsPermutation(s.finals);
    ProcessFinalsKeeps(s);
  }

  lemma CompletionAccounts(t: Ajax, before: seq<Enqueue>, after: seq<Enqueue>)
    requires Inv(t.(finals := []))
    ensures Accounted(OnQueueComplete(t, before, after)) == Accounted(t)
  {
    EnqueueAllKeeps(t, before);
    EnqueueAllKeepsInv(t.(finals := []), before);
    EnqueueAllAside(t, before);
    var u := EnqueueAll(t, before);
    FinalsAccounted(u);
    EnqueueAllKeeps(ProcessFinals(u), after);
  }

  lemma EventAccounts(s: Ajax, e: Event)
    requires Inv(s) && Enabled(s, e)
    ensures Accounted(Apply(s, e)) == Accounted(s) + multiset(CommandsOf(e.actions))
  {
    CallbackAccounts(s, e.actions);
    PerformAllKeepsInv(s, e.actions);
    if e.Complete? {
      var t := Answered(s, e.id, e.actions);
      assert Accounted(t) == Accounted(PerformAll(s, e.actions));
      if QueueComplete(t) {
        CompletionAccounts(t, e.before, e.after);
        DequeueLogsNothing(OnQueueComplete(t, e.before, e.after));
      } else {
        DequeueLogsNothing(t);
      }
    }
  }

  /** In every run, every command handed in has been carried out exactly once or is still deferred, and
      nothing else has been.  Once nothing is in flight, all of them have been carried out. */
  lemma {:induction false} CommandsAreConserved(es: seq<Event>)
    requires Legal(es)
    ensures multiset(Commands(After(es).executed)) + multiset(After(es).finals) == multiset(HandedIn(es))
    ensures After(es).current == {} ==> multiset(Commands(After(es).executed)) == multiset(HandedIn(es))
  {
    InvAlways(es);
    if es != [] {
      var before, e := es[..|es| - 1], es[|es| - 1];
      CommandsAreConserved(before);
      InvAlways(before);
      EventAccounts(After(before), e);
    }
  }

  // ---------------------------------------------------------------- what a command queues

  /** Carrying out a command makes the calls of `enqueue` it stands for, in order, and nothing else. */
  lemma CommandQueues(s: Ajax, c: Command)
    requires Inv(s)
    ensures var t, u := ProcessCommand(s, c), PerformAll(s, Calls(c.enqueues));
      t.q == u.q && t.current == u.current && t.started == u.started && t.enqueued == u.enqueued && t.finals == u.finals
  {
    var logged := s.executed + [Execution(c, |s.current|, |s.q|)];
    CallsEnqueue(s, c.enqueues);
    LogAside(s, c.enqueues, logged);
  }

  function Calls(es: seq<Enqueue>): seq<Action> {
    if es == [] then [] else [DoEnqueue(es[0])] + Calls(es[1..])
  }

  lemma {:induction false} CallsEnqueue(s: Ajax, es: seq<Enqueue>)
    ensures PerformAll(s, Calls(es)) == EnqueueAll(s, es)
    decreases |es|
  {
    if es != [] {
      assert Calls(es)[1..] == Calls(es[1..]);
      CallsEnqueue(EnqueueOne(s, es[0]), es[1..]);
    }
  }

  lemma {:induction false} LogAside(s: Ajax, es: seq<Enqueue>, log: seq<Execution>)
    ensures EnqueueAll(s.(executed := log), es) == EnqueueAll(s, es).(executed := log)
    decreases |es|
  {
    if es != [] {
      assert EnqueueOne(s.(executed := log), es[0]) == EnqueueOne(s, es[0]).(executed := log);
      LogAside(EnqueueOne(s, es[0]), es[1..], log);
    }
  }
}
