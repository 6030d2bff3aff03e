/** Named timers as the script keeps them: one object of records, changed in place. */
module Timers {
  import opened Basics
  import M = TimerModel
  import opened TimerModel

  class NamedTimers {
    var records: map<Id, Record>
    var running: Option<Id>

    ghost function State(): M.Timers
      reads this
    {
      M.Timers(records, running)
    }

    constructor ()
      ensures State() == NONE
    {
      records, running := map[], None;
    }

    method HasTimer(id: Id) returns (has: bool)
      ensures has <==> M.HasTimer(State(), id)
    {
      has := id in records && records[id].pending;
    }

    method ClearTimer(id: Id)
      modifies `records
      ensures State() == M.Clear(old(State()), id)
    {
      var has := HasTimer(id);
      if has {
        records := records[id := records[id].(pending := false)];
      }
    }

    method SetTimer(id: Id, delay: int, periodic: bool, now: int)
      modifies `records
      ensures State() == M.SetNamed(old(State()), id, delay, periodic, now)
    {
      ClearTimer(id);
      records := records[id := Record(0, 0, true, now + Max(delay, 0), periodic)];
    }

    method Throttle(id: Id, minInterval: int, now: int)
      modifies `records
      ensures State() == M.ThrottleCall(old(State()), id, minInterval, now)
    {
      var has := HasTimer(id);
      if has {
        return;
      }
      var prevTime := 0;
      if id in records {
        if records[id].end > 0 {
          prevTime := records[id].start;
        }
      }
      SetTimer(id, Max(minInterval - (now - prevTime), 0), false, now);
    }

    /** The timeout's own closure, up to the call of the action. */
    method Begin(id: Id, now: int)
      requires M.HasTimer(State(), id) && running.None?
      modifies this
      ensures State() == M.BeginCallback(old(State()), id, now)
    {
      records := records[id := records[id].(start := now)];
      ClearTimer(id);
      running := Some(id);
    }

    /** The timeout's own closure, after the action has returned. */
    method End(now: int)
      requires running.Some? && running.value in records
      modifies this
      ensures State() == M.EndCallback(old(State()), now)
    {
      records := records[running.value := records[running.value].(end := now)];
      running := None;
    }
  }
}
