/**
 Named timers and the throttle built on them.  A timeout fires no earlier than it is due.  Scripts run
 one callback at a time, so between the start and the end of a callback only calls made by it happen.
 */
module TimerModel {
  import opened Basics

  type Id = string

  /** The record kept for a timer, also after it has fired.  `start` and `end` are zero until then. */
  datatype Record = Record(start: int, end: int, pending: bool, due: int, periodic: bool)

  datatype Timers = Timers(records: map<Id, Record>, running: Option<Id>)

  datatype Step =
    | SetTimer(id: Id, delay: int, periodic: bool, now: int)
    | ClearTimer(id: Id, now: int)
    | Throttle(id: Id, minInterval: int, now: int)
    | Begin(id: Id, now: int)     // a timeout fires and its callback starts
    | End(now: int)               // the callback returns
    | Throw(now: int)             // the callback throws
    | Tick(id: Id, now: int)      // a periodic timer runs its callback

  const NONE := Timers(map[], None)

  predicate HasTimer(s: Timers, id: Id) {
    id in s.records && s.records[id].pending
  }

  function Clear(s: Timers, id: Id): Timers {
    if HasTimer(s, id) then s.(records := s.records[id := s.records[id].(pending := false)]) else s
  }

  function SetNamed(s: Timers, id: Id, delay: int, periodic: bool, now: int): Timers {
    s.(records := s.records[id := Record(0, 0, true, now + Max(delay, 0), periodic)])
  }

  /** When the last completed execution started, as far as the record tells. */
  function PreviousStart(s: Timers, id: Id): int {
    if id in s.records && s.records[id].end > 0 then s.records[id].start else 0
  }

  function ThrottleCall(s: Timers, id: Id, minInterval: int, now: int): Timers {
    if HasTimer(s, id) then s
    else SetNamed(s, id, Max(minInterval - (now - PreviousStart(s, id)), 0), false, now)
  }

  function BeginCallback(s: Timers, id: Id, now: int): Timers
    requires id in s.records
  {
    Timers(s.records[id := s.records[id].(start := now, pending := false)], Some(id))
  }

  function EndCallback(s: Timers, now: int): Timers
    requires s.running.Some? && s.running.value in s.records
  {
    var id := s.running.value;
    Timers(s.records[id := s.records[id].(end := now)], None)
  }

  predicate Enabled(s: Timers, e: Step) {
    match e
    case Begin(id, now) => s.running.None? && HasTimer(s, id) && !s.records[id].periodic && s.records[id].due <= now
    case End(_) => s.running.Some? && s.running.value in s.records
    case Throw(_) => s.running.Some?
    case Tick(id, _) => s.running.None? && HasTimer(s, id) && s.records[id].periodic
    case _ => true
  }

  function Apply(s: Timers, e: Step): Timers
    requires Enabled(s, e)
  {
    match e
    case SetTimer(id, delay, periodic, now) => SetNamed(s, id, delay, periodic, now)
    case ClearTimer(id, _) => Clear(s, id)
    case Throttle(id, minInterval, now) => ThrottleCall(s, id, minInterval, now)
    case Begin(id, now) => BeginCallback(s, id, now)
    case End(now) => EndCallback(s, now)
    case Throw(_) => s.(running := None)
    case Tick(_, _) => s
  }

  // ---------------------------------------------------------------- runs

  /** The steps can happen in this order, under a positive clock that never runs backwards. */
  ghost predicate Legal(es: seq<Step>)
    decreases |es|, 0
  {
    es == [] ||
    var before, e := es[..|es| - 1], es[|es| - 1];
    Legal(before) && Enabled(After(before), e) && e.now >= Clock(before)
  }

  ghost function After(es: seq<Step>): Timers
    requires Legal(es)
    decreases |es|, 1
  {
    if es == [] then NONE else Apply(After(es[..|es| - 1]), es[|es| - 1])
  }

  /** The time of the last step; the clock starts at one. */
  function Clock(es: seq<Step>): int {
    if es == [] then 1 else es[|es| - 1].now
  }

  /** When executions of this timer started. */
  function Starts(es: seq<Step>, id: Id): seq<int> {
    if es == [] then [] else
      var e := es[|es| - 1];
      Starts(es[..|es| - 1], id) + if e.Begin? && e.id == id then [e.now] else []
  }

  /** This timer is only throttled, at one interval, never from its own callback, which does not throw. */
  ghost predicate OnlyThrottled(es: seq<Step>, id: Id, minInterval: int)
    requires Legal(es)
    decreases |es|
  {
    es == [] ||
    var before, e := es[..|es| - 1], es[|es| - 1];
    && OnlyThrottled(before, id, minInterval)
    && ((e.SetTimer? || e.ClearTimer?) ==> e.id != id)
    && (e.Throttle? && e.id == id ==> e.minInterval == minInterval && After(before).running != Some(id))
    && (e.Throw? ==> After(before).running != Some(id))
  }

  /** What the record of a throttled timer remembers of its executions. */
  ghost predicate Remembers(s: Timers, es: seq<Step>, id: Id, minInterval: int) {
    var starts := Starts(es, id);
    && (s.running == Some(id) ==> id in s.records && starts != [] && !HasTimer(s, id))
    && (HasTimer(s, id) ==> !s.records[id].periodic && s.records[id].due <= Clock(es) + Max(minInterval, 0))
    && (starts != [] ==>
         var last := starts[|starts| - 1];
         && 0 < last <= Clock(es) && id in s.records
         && (if HasTimer(s, id) then s.records[id].due >= last + minInterval
             else s.records[id].start == last && (s.running != Some(id) ==> s.records[id].end > 0)))
    && (starts == [] && id in s.records && !HasTimer(s, id) ==> s.records[id].end <= 0)
  }

  lemma RemembersStep(s: Timers, es: seq<Step>, e: Step, id: Id, minInterval: int)
    requires Remembers(s, es, id, minInterval) && Enabled(s, e) && e.now >= Clock(es) >= 1
    requires (e.SetTimer? || e.ClearTimer?) ==> e.id != id
    requires e.Throttle? && e.id == id ==> e.minInterval == minInterval && s.running != Some(id)
    requires e.Throw? ==> s.running != Some(id)
    ensures Remembers(Apply(s, e), es + [e], id, minInterval)
  {
    assert (es + [e])[..|es|] == es;
  }

  lemma {:induction false} ClockIsPositive(es: seq<Step>)
    requires Legal(es)
    ensures Clock(es) >= 1
  {
    if es != [] { ClockIsPositive(es[..|es| - 1]); }
  }

  lemma {:induction false} RecordRemembers(es: seq<Step>, id: Id, minInterval: int)
    requires Legal(es) && OnlyThrottled(es, id, minInterval)
    ensures Remembers(After(es), es, id, minInterval)
  {
    if es != [] {
      var before, e := es[..|es| - 1], es[|es| - 1];
      RecordRemembers(before, id, minInterval);
      ClockIsPositive(before);
      RemembersStep(After(before), before, e, id, minInterval);
      assert before + [e] == es;
    }
  }

  /** Each time is at least `gap` after the one before it. */
  ghost predicate Spaced(times: seq<int>, gap: int) {
    forall i | 0 < i < |times| :: times[i] - times[i - 1] >= gap
  }

  /** Executions of a throttled timer start at least the interval apart, whatever other timers do. */
  lemma {:induction false} ThrottleSpacesExecutions(es: seq<Step>, id: Id, minInterval: int)
    requires Legal(es) && OnlyThrottled(es, id, minInterval)
    ensures Spaced(Starts(es, id), minInterval)
  {
    if es != [] {
      var before := es[..|es| - 1];
      ThrottleSpacesExecutions(before, id, minInterval);
      RecordRemembers(before, id, minInterval);
      var e, starts := es[|es| - 1], Starts(before, id);
      if e.Begin? && e.id == id {
        assert Starts(es, id) == starts + [e.now];
        assert starts != [] ==> After(before).records[id].due >= starts[|starts| - 1] + minInterval;
      } else {
        assert Starts(es, id) == starts;
      }
    }
  }

  /** Every call of throttle leaves an execution pending, due within the interval. */
  lemma ThrottleLeavesPending(es: seq<Step>, id: Id, minInterval: int, now: int)
    requires Legal(es + [Throttle(id, minInterval, now)])
    requires OnlyThrottled(es + [Throttle(id, minInterval, now)], id, minInterval)
    ensures var s := After(es + [Throttle(id, minInterval, now)]);
      HasTimer(s, id) && s.records[id].due <= now + Max(minInterval, 0)
  {
    var fs := es + [Throttle(id, minInterval, now)];
    assert fs[..|es|] == es;
    RecordRemembers(fs, id, minInterval);
  }

  // ---------------------------------------------------------------- where the spacing is lost

  /** A record that knows of an execution at all knows of the last one. */
  ghost predicate KnowsLast(s: Timers, es: seq<Step>, id: Id) {
    var starts := Starts(es, id);
    && (s.running.Some? ==> s.running.value in s.records)
    && (starts == [] && id in s.records ==> s.records[id].start == 0)
    && (starts != [] ==>
         var last := starts[|starts| - 1];
         0 < last <= Clock(es) && id in s.records && (s.records[id].start == 0 || s.records[id].start == last))
  }

  lemma KnowsLastStep(s: Timers, es: seq<Step>, e: Step, id: Id)
    requires KnowsLast(s, es, id) && Enabled(s, e) && e.now >= Clock(es) >= 1
    ensures KnowsLast(Apply(s, e), es + [e], id)
  {
    assert (es + [e])[..|es|] == es;
  }

  lemma {:induction false} RecordKnowsLast(es: seq<Step>, id: Id)
    requires Legal(es)
    ensures KnowsLast(After(es), es, id)
  {
    if es != [] {
      var before, e := es[..|es| - 1], es[|es| - 1];
      RecordKnowsLast(before, id);
      ClockIsPositive(before);
      KnowsLastStep(After(before), before, e, id);
      assert before + [e] == es;
    }
  }

  /** There has been no execution, or the record shows that the last one has ended, or the interval since
      it started is over. */
  ghost predicate Timely(s: Timers, es: seq<Step>, id: Id, minInterval: int, now: int) {
    var starts := Starts(es, id);
    starts != [] ==>
      var last := starts[|starts| - 1];
      now >= last + minInterval || (id in s.records && s.records[id].end > 0 && s.records[id].start == last)
  }

  /** In any run at all, whatever was done with the name before, a call that finds nothing pending
      schedules the next execution a full interval after the start of the last one exactly when it is
      timely. */
  lemma NextDueIff(es: seq<Step>, id: Id, minInterval: int, now: int)
    requires Legal(es) && now >= Clock(es) && !HasTimer(After(es), id) && Starts(es, id) != []
    ensures var starts := Starts(es, id);
      ThrottleCall(After(es), id, minInterval, now).records[id].due >= starts[|starts| - 1] + minInterval <==>
      Timely(After(es), es, id, minInterval, now)
  {
    RecordKnowsLast(es, id);
  }

  /** The name is used for throttling at one interval, and cancelled at will; every call that schedules
      is timely. */
  ghost predicate TimelyRun(es: seq<Step>, id: Id, minInterval: int)
    requires Legal(es)
    decreases |es|
  {
    es == [] ||
    var before, e := es[..|es| - 1], es[|es| - 1];
    && TimelyRun(before, id, minInterval)
    && (e.SetTimer? ==> e.id != id)
    && (e.Throttle? && e.id == id ==>
         e.minInterval == minInterval
         && (HasTimer(After(before), id) || Timely(After(before), before, id, minInterval, e.now)))
  }

  /** What is pending is due a full interval after the last execution started. */
  ghost predicate DueInTime(s: Timers, es: seq<Step>, id: Id, minInterval: int) {
    var starts := Starts(es, id);
    HasTimer(s, id) ==> !s.records[id].periodic && (starts != [] ==> s.records[id].due >= starts[|starts| - 1] + minInterval)
  }

  lemma {:induction false} TimelyRunIsDueInTime(es: seq<Step>, id: Id, minInterval: int)
    requires Legal(es) && TimelyRun(es, id, minInterval)
    ensures DueInTime(After(es), es, id, minInterval)
  {
    if es != [] {
      var before, e := es[..|es| - 1], es[|es| - 1];
      TimelyRunIsDueInTime(before, id, minInterval);
      if e.Throttle? && e.id == id && !HasTimer(After(before), id) && Starts(before, id) != [] {
        NextDueIff(before, id, minInterval, e.now);
      }
    }
  }

  /** When every call that schedules is timely, executions start at least the interval apart: callbacks
      may throttle themselves, throw, or be cancelled. */
  lemma {:induction false} TimelyRunsAreSpaced(es: seq<Step>, id: Id, minInterval: int)
    requires Legal(es) && TimelyRun(es, id, minInterval)
    ensures Spaced(Starts(es, id), minInterval)
  {
    if es != [] {
      var before, e := es[..|es| - 1], es[|es| - 1];
      TimelyRunsAreSpaced(before, id, minInterval);
      TimelyRunIsDueInTime(before, id, minInterval);
      if e.Begin? && e.id == id {
        assert Starts(es, id) == Starts(before, id) + [e.now];
      } else {
        assert Starts(es, id) == Starts(before, id);
      }
    }
  }

  lemma OneMore(es: seq<Step>, e: Step, id: Id)
    requires Legal(es) && Enabled(After(es), e) && e.now >= Clock(es)
    ensures Legal(es + [e]) && After(es + [e]) == Apply(After(es), e) && Clock(es + [e]) == e.now
    ensures Starts(es + [e], id) == Starts(es, id) + if e.Begin? && e.id == id then [e.now] else []
  {
    assert (es + [e])[..|es|] == es;
  }

  /** A callback that throttles itself runs again at once. */
  lemma ReentrantCallLosesSpacing(id: Id)
    ensures
      var es := [] + [Throttle(id, 100, 1000)] + [Begin(id, 1000)]
                + [Throttle(id, 100, 1000)] + [End(1000)] + [Begin(id, 1000)];
      Legal(es) && Starts(es, id) == [1000, 1000]
  {
    var es: seq<Step> := [];
    OneMore(es, Throttle(id, 100, 1000), id);
    es := es + [Throttle(id, 100, 1000)];
    OneMore(es, Begin(id, 1000), id);
    es := es + [Begin(id, 1000)];
    OneMore(es, Throttle(id, 100, 1000), id);
    es := es + [Throttle(id, 100, 1000)];
    OneMore(es, End(1000), id);
    es := es + [End(1000)];
    OneMore(es, Begin(id, 1000), id);
  }

  /** A timer cancelled after its last execution forgets it: the next call runs the action at once. */
  lemma CancelledTimerLosesSpacing(id: Id)
    ensures
      var es := [] + [Throttle(id, 100, 1000)] + [Begin(id, 1000)] + [End(1000)]
                + [Throttle(id, 100, 1001)] + [ClearTimer(id, 1002)]
                + [Throttle(id, 100, 1003)] + [Begin(id, 1003)];
      Legal(es) && Starts(es, id) == [1000, 1003]
  {
    var es: seq<Step> := [];
    OneMore(es, Throttle(id, 100, 1000), id);
    es := es + [Throttle(id, 100, 1000)];
    OneMore(es, Begin(id, 1000), id);
    es := es + [Begin(id, 1000)];
    OneMore(es, End(1000), id);
    es := es + [End(1000)];
    OneMore(es, Throttle(id, 100, 1001), id);
    es := es + [Throttle(id, 100, 1001)];
    OneMore(es, ClearTimer(id, 1002), id);
    es := es + [ClearTimer(id, 1002)];
    OneMore(es, Throttle(id, 100, 1003), id);
    es := es + [Throttle(id, 100, 1003)];
    OneMore(es, Begin(id, 1003), id);
  }

  /** The steps by which a call's execution starts as soon as it is due: the callback now running, if
      any, ends, and then the timeout fires. */
  function FireWhenDue(s: Timers, id: Id, now: int): seq<Step>
    requires id in s.records
  {
    (if s.running.Some? then [End(now)] else []) + [Begin(id, s.records[id].due)]
  }

  /** A timer that can fire at `due`. */
  ghost predicate Armed(s: Timers, id: Id, due: int) {
    HasTimer(s, id) && !s.records[id].periodic && s.records[id].due == due
  }

  lemma EndKeepsArmed(fs: seq<Step>, id: Id, due: int, now: int)
    requires Legal(fs) && Clock(fs) <= now && Armed(After(fs), id, due) && After(fs).running.Some?
    ensures Legal(fs + [End(now)]) && Clock(fs + [End(now)]) == now
    ensures Armed(After(fs + [End(now)]), id, due) && After(fs + [End(now)]).running.None?
    ensures Starts(fs + [End(now)], id) == Starts(fs, id)
  {
    RecordKnowsLast(fs, id);
    OneMore(fs, End(now), id);
    assert Starts(fs, id) + [] == Starts(fs, id);
  }

  lemma FiresWhenDue(fs: seq<Step>, id: Id, due: int, now: int)
    requires Legal(fs) && Clock(fs) == now && Armed(After(fs), id, due) && due >= now
    ensures var gs := fs + FireWhenDue(After(fs), id, now);
      Legal(gs) && Starts(gs, id) == Starts(fs, id) + [due]
  {
    if After(fs).running.Some? {
      EndKeepsArmed(fs, id, due, now);
      OneMore(fs + [End(now)], Begin(id, due), id);
      assert fs + [End(now)] + [Begin(id, due)] == fs + FireWhenDue(After(fs), id, now);
    } else {
      OneMore(fs, Begin(id, due), id);
      assert fs + [Begin(id, due)] == fs + FireWhenDue(After(fs), id, now);
    }
  }

  lemma CallArms(es: seq<Step>, id: Id, minInterval: int, now: int) returns (due: int)
    requires Legal(es) && now >= Clock(es) && !HasTimer(After(es), id)
    ensures var fs := es + [Throttle(id, minInterval, now)];
      && Legal(fs) && Clock(fs) == now && Armed(After(fs), id, due) && due >= now
      && Starts(fs, id) == Starts(es, id)
      && due == ThrottleCall(After(es), id, minInterval, now).records[id].due
  {
    OneMore(es, Throttle(id, minInterval, now), id);
    due := ThrottleCall(After(es), id, minInterval, now).records[id].due;
    assert Starts(es, id) + [] == Starts(es, id);
  }

  lemma TooEarly(starts: seq<int>, due: int, gap: int)
    requires starts != [] && due < starts[|starts| - 1] + gap
    ensures !Spaced(starts + [due], gap)
  {
    var after := starts + [due];
    assert after[|starts|] - after[|starts| - 1] < gap;
  }

  /** After a call that schedules and is not timely, with no further call of any kind, the next
      execution can start less than the interval after the last. */
  lemma UntimelyCallBreaksSpacing(es: seq<Step>, id: Id, minInterval: int, now: int)
    requires Legal(es) && now >= Clock(es) && !HasTimer(After(es), id)
    requires !Timely(After(es), es, id, minInterval, now)
    ensures var fs := es + [Throttle(id, minInterval, now)];
      && Legal(fs) && id in After(fs).records
      && var gs := fs + FireWhenDue(After(fs), id, now);
         Legal(gs) && !Spaced(Starts(gs, id), minInterval)
  {
    NextDueIff(es, id, minInterval, now);
    var due := CallArms(es, id, minInterval, now);
    FiresWhenDue(es + [Throttle(id, minInterval, now)], id, due, now);
    TooEarly(Starts(es, id), due, minInterval);
  }

  // ---------------------------------------------------------------- exactly when things are due

  /** The start that a call goes by: that of the last execution if the record shows it to have ended. */
  ghost function KnownStart(es: seq<Step>, id: Id): int
    requires Legal(es)
  {
    var s, starts := After(es), Starts(es, id);
    if starts != [] && id in s.records && s.records[id].end > 0 && s.records[id].start == starts[|starts| - 1]
    then starts[|starts| - 1] else 0
  }

  /** After any run, a call that finds nothing pending schedules for the end of the interval, or at once if
      that is past; a call that finds something pending changes nothing. */
  lemma ThrottleDueIs(es: seq<Step>, id: Id, minInterval: int, now: int)
    requires Legal(es) && now >= Clock(es)
    ensures var fs := es + [Throttle(id, minInterval, now)];
      && Legal(fs)
      && if HasTimer(After(es), id) then After(fs) == After(es)
         else Armed(After(fs), id, Max(now, KnownStart(es, id) + minInterval))
  {
    RecordKnowsLast(es, id);
    ClockIsPositive(es);
    OneMore(es, Throttle(id, minInterval, now), id);
  }

  /** For a timer that is only throttled, that interval is counted from the start of its last execution:
      a call made when it is over runs the action immediately. */
  lemma ThrottledDueIs(es: seq<Step>, id: Id, minInterval: int, now: int)
    requires Legal(es) && now >= Clock(es) && OnlyThrottled(es, id, minInterval)
    requires !HasTimer(After(es), id) && After(es).running != Some(id)
    ensures var fs, starts := es + [Throttle(id, minInterval, now)], Starts(es, id);
      && Legal(fs)
      && Armed(After(fs), id, if starts == [] then Max(now, minInterval) else Max(now, starts[|starts| - 1] + minInterval))
  {
    RecordRemembers(es, id, minInterval);
    ThrottleDueIs(es, id, minInterval, now);
  }

  /** Setting a timer replaces whatever the name stood for. */
  lemma SetTimerArms(es: seq<Step>, id: Id, delay: int, periodic: bool, now: int)
    requires Legal(es) && now >= Clock(es)
    ensures var fs := es + [SetTimer(id, delay, periodic, now)];
      && Legal(fs) && HasTimer(After(fs), id)
      && After(fs).records[id].due == now + (if delay > 0 then delay else 0)
      && After(fs).records[id].periodic == periodic
      && After(fs).records[id].start == 0 && After(fs).records[id].end == 0
  {
    OneMore(es, SetTimer(id, delay, periodic, now), id);
  }

  /** Clearing a timer leaves nothing pending under its name and keeps its history. */
  lemma ClearTimerDisarms(es: seq<Step>, id: Id, now: int)
    requires Legal(es) && now >= Clock(es)
    ensures var fs := es + [ClearTimer(id, now)];
      && Legal(fs) && !HasTimer(After(fs), id)
      && (id in After(fs).records <==> id in After(es).records)
      && (id in After(es).records ==>
          && After(fs).records[id].start == After(es).records[id].start
          && After(fs).records[id].end == After(es).records[id].end)
  {
    OneMore(es, ClearTimer(id, now), id);
  }

  /** The start of a callback is recorded and its timer no longer pending; so is its end, on whatever
      record the name has by then. */
  lemma CallbackIsRecorded(es: seq<Step>, id: Id, started: int, ended: int)
    requires Legal(es) && Enabled(After(es), Begin(id, started)) && Clock(es) <= started <= ended
    ensures var fs := es + [Begin(id, started)];
      && Legal(fs) && !HasTimer(After(fs), id) && After(fs).running == Some(id)
      && After(fs).records[id].start == started
      && var gs := fs + [End(ended)];
         Legal(gs) && After(gs).running.None? && After(gs).records[id].start == started && After(gs).records[id].end == ended
  {
    OneMore(es, Begin(id, started), id);
    OneMore(es + [Begin(id, started)], End(ended), id);
  }

  /** A callback that throws is over without a recorded end; a run of a periodic timer is not recorded. */
  lemma NotRecorded(es: seq<Step>, e: Step, id: Id)
    requires Legal(es) && Enabled(After(es), e) && e.now >= Clock(es) && (e.Throw? || e.Tick?)
    ensures Legal(es + [e]) && After(es + [e]).records == After(es).records && After(es + [e]).running.None?
    ensures Starts(es + [e], id) == Starts(es, id)
  {
    OneMore(es, e, id);
    Regroup(Starts(es, id), [], []);
  }

  /** The name a step acts on, if any. */
  function ActsOn(s: Timers, e: Step): Option<Id> {
    match e
    case End(_) => s.running
    case Throw(_) => None
    case _ => Some(e.id)
  }

  /** No step touches a timer of another name. */
  lemma OtherTimersUntouched(s: Timers, e: Step, id: Id)
    requires Enabled(s, e) && ActsOn(s, e) != Some(id)
    ensures id in Apply(s, e).records <==> id in s.records
    ensures id in s.records ==> Apply(s, e).records[id] == s.records[id]
  {
  }
}
