/**
 What reaches a connection.  As long as its writer has not failed, everything owed to a client object
 can be written, by steps of its own writer alone.
 */
module HubWriting {
  import opened Basics
  import opened HubModel
  import opened HubDelivery
  import opened HubProgress

  lemma WriterStoppedStep(s: Hub, e: Step, h: Handle)
    requires Inv(s) && Enabled(s, e) && h < |Apply(s, e).objects|
    ensures Apply(s, e).objects[h].writer.Stopped? <==>
            e == Fail(h) || (h < |s.objects| && s.objects[h].writer.Stopped?)
  {
    var t := Apply(s, e);
    if h < |s.objects| {
      assert e.Deliver? ==> t.objects[h].writer == s.objects[h].writer;
      assert e.Register? || e.Unregister? || e.Subscribe? || e.Send? ==> t.objects[h].writer == s.objects[h].writer;
    }
  }

  /** In every run, an object's writer has stopped exactly if it has failed: each new connection has a
      writer of its own, and nothing else ends it. */
  lemma {:induction false} WriterStopsIff(es: seq<Step>, h: Handle)
    requires Legal(es) && h < |After(es).objects|
    ensures After(es).objects[h].writer.Stopped? <==> Fail(h) in es
  {
    var before, e := es[..|es| - 1], es[|es| - 1];
    var s := After(before);
    assert es == before + [e];
    WriterStoppedStep(s, e, h);
    if h < |s.objects| {
      WriterStopsIff(before, h);
    } else {
      NoFailureBeforeBirth(before, h);
    }
  }

  lemma {:induction false} NoFailureBeforeBirth(es: seq<Step>, h: Handle)
    requires Legal(es) && h >= |After(es).objects|
    ensures Fail(h) !in es
  {
    if es != [] {
      var before, e := es[..|es| - 1], es[|es| - 1];
      assert es == before + [e];
      BirthsStep(After(before), [], e);
      NoFailureBeforeBirth(before, h);
    }
  }

  // ---------------------------------------------------------------- draining one connection

  predicate OwnWriter(e: Step, h: Handle) {
    (e.Take? || e.Count? || e.TakeMore? || e.Flush?) && e.h == h
  }

  predicate OnlyWriter(es: seq<Step>, h: Handle) {
    forall e | e in es :: OwnWriter(e, h)
  }

  predicate Drained(c: Client) {
    c.outbox == [] && c.batch == []
  }

  /** A live writer that has not written everything can take a step, which leaves it less to do. */
  lemma WriterCanMove(s: Hub, h: Handle) returns (e: Step)
    requires Inv(s) && h < |s.objects| && !s.objects[h].writer.Stopped? && !Drained(s.objects[h])
    ensures Enabled(s, e) && OwnWriter(e, h)
    ensures |Apply(s, e).objects| == |s.objects| && Apply(s, e).phase == s.phase
    ensures var c := Apply(s, e).objects[h]; !c.writer.Stopped? && Weight(c) < Weight(s.objects[h])
  {
    var c := s.objects[h];
    assert WriterOk(c);
    match c.writer
    case Waiting => e := Take(h);
    case Took => e := Count(h);
    case Gathering(left) => e := if left > 0 then TakeMore(h) else Flush(h);
  }

  /** The run `es` can go on with `ws`, steps of this writer alone, until nothing is left to write. */
  ghost predicate DrainsBy(es: seq<Step>, ws: seq<Step>, h: Handle)
    requires Legal(es)
  {
    && OnlyWriter(ws, h) && Legal(es + ws)
    && After(es + ws).phase == After(es).phase
    && h < |After(es + ws).objects| && Drained(After(es + ws).objects[h])
  }

  lemma DrainsAfter(es: seq<Step>, e: Step, ws: seq<Step>, h: Handle)
    requires Legal(es) && Legal(es + [e]) && After(es + [e]).phase == After(es).phase
    requires OwnWriter(e, h) && DrainsBy(es + [e], ws, h)
    ensures DrainsBy(es, [e] + ws, h)
  {
    Regroup(es, [e], ws);
    WriterThen(e, ws, h);
  }

  lemma WriterThen(e: Step, ws: seq<Step>, h: Handle)
    requires OwnWriter(e, h) && OnlyWriter(ws, h)
    ensures OnlyWriter([e] + ws, h)
  {
    assert forall x | x in [e] + ws :: x == e || x in ws;
  }

  lemma {:induction false} WriterDrains(es: seq<Step>, h: Handle) returns (ws: seq<Step>)
    requires Legal(es) && h < |After(es).objects| && !After(es).objects[h].writer.Stopped?
    ensures DrainsBy(es, ws, h)
    decreases Weight(After(es).objects[h])
  {
    if Drained(After(es).objects[h]) {
      ws := [];
      Regroup(es, [], []);
    } else {
      var e := WriterCanMove(After(es), h);
      OneMore(es, e);
      ws := WriterDrains(es + [e], h);
      DrainsAfter(es, e, ws, h);
      ws := [e] + ws;
    }
  }

  lemma {:induction false} WriterOwesNothing(es: seq<Step>, ws: seq<Step>, h: Handle, k: Handle)
    requires OnlyWriter(ws, h)
    ensures Expected(es + ws, k) == Expected(es, k)
    decreases |ws|
  {
    if ws == [] {
      assert es + ws == es;
    } else {
      var init, e := ws[..|ws| - 1], ws[|ws| - 1];
      assert ws == init + [e] && e in ws && forall x | x in init :: x in ws;
      assert es + ws == es + init + [e];
      WriterOwesNothing(es, init, h, k);
      ExpectedStep(es + init, e, k);
      assert Expected(es + init, k) + [] == Expected(es + init, k);
    }
  }

  /** From every run in which its writer has not failed, that writer alone can go on to empty the outbox
      and the batch.  If no delivery is in progress, the frames written are then exactly the messages
      the history calls for. */
  lemma EverythingOwedIsWritten(es: seq<Step>, h: Handle) returns (ws: seq<Step>)
    requires Legal(es) && h < |After(es).objects| && Fail(h) !in es
    ensures Legal(es + ws) && OnlyWriter(ws, h)
    ensures h < |After(es + ws).objects| && Drained(After(es + ws).objects[h])
    ensures After(es).phase.Idle? ==> Flatten(After(es + ws).objects[h].written) == Expected(es, h)
  {
    WriterStopsIff(es, h);
    ws := WriterDrains(es, h);
    if After(es).phase.Idle? {
      DeliveryIsExact(es + ws, h);
      WriterOwesNothing(es, ws, h, h);
      var c := After(es + ws).objects[h];
      assert Flatten(c.written) + [] + [] == Flatten(c.written);
    }
  }
}
