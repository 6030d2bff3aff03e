/**
 What a client receives, told from the history of a run alone: which steps were taken and in
 which order.  None of the definitions in the first half looks at the hub's state.
 */
module HubDelivery {
  import opened HubModel

  // ---------------------------------------------------------------- the reference reading of a history

  /** A step after which no older connection of `id` is registered. */
  ghost predicate Ends(e: Step, id: Id) {
    (e.Register? && e.id == id) || (e.Unregister? && e.id == id)
  }

  /** No step after position `r` ends the registration of `id`. */
  ghost predicate LastsFrom(es: seq<Step>, id: Id, r: nat) {
    forall j | r < j < |es| :: !Ends(es[j], id)
  }

  /** Object `h` registered as `id`, and nothing has ended that registration since. */
  ghost predicate Registered(es: seq<Step>, h: Handle, id: Id) {
    exists r :: 0 <= r < |es| && es[r] == Register(h, id) && LastsFrom(es, id, r)
  }

  /** `id` subscribed to `ch` after object `h` registered as `id`, within that registration. */
  ghost predicate Subscribed(es: seq<Step>, h: Handle, id: Id, ch: Channel) {
    exists r, q :: 0 <= r < q < |es| && es[r] == Register(h, id) && es[q] == Subscribe(id, ch) && LastsFrom(es, id, r)
  }

  /** The messages sent to channels subscribed to by object `h`'s id while `h` was the registered
      object, in the order sent. */
  ghost function Expected(es: seq<Step>, h: Handle): seq<Message> {
    if es == [] then [] else
      var before, e := es[..|es| - 1], es[|es| - 1];
      if e.Send? && exists id :: Subscribed(before, h, id, e.msg.channel)
      then Expected(before, h) + [e.msg]
      else Expected(before, h)
  }

  function Flatten(frames: seq<seq<Message>>): seq<Message> {
    if frames == [] then [] else Flatten(frames[..|frames| - 1]) + frames[|frames| - 1]
  }

  /** Everything handed to a client object so far: frames written, the batch in hand, the outbox. */
  function Stream(c: Client): seq<Message> {
    Flatten(c.written) + c.batch + c.outbox
  }

  // ---------------------------------------------------------------- histories, one step at a time

  lemma RegisteredStep(es: seq<Step>, e: Step, h: Handle, id: Id)
    ensures Registered(es + [e], h, id) <==> e == Register(h, id) || (Registered(es, h, id) && !Ends(e, id))
  {
    var fs := es + [e];
    if Registered(fs, h, id) {
      var r :| 0 <= r < |fs| && fs[r] == Register(h, id) && LastsFrom(fs, id, r);
      if r < |es| {
        assert fs[|es|] == e;
        assert forall j | r < j < |es| :: es[j] == fs[j];
        assert es[r] == Register(h, id) && LastsFrom(es, id, r);
      }
    }
    if e == Register(h, id) {
      assert fs[|es|] == Register(h, id) && LastsFrom(fs, id, |es|);
    } else if Registered(es, h, id) && !Ends(e, id) {
      var r :| 0 <= r < |es| && es[r] == Register(h, id) && LastsFrom(es, id, r);
      assert fs[r] == Register(h, id) && LastsFrom(fs, id, r);
    }
  }

  lemma SubscribedStep(es: seq<Step>, e: Step, h: Handle, id: Id, ch: Channel)
    ensures Subscribed(es + [e], h, id, ch) <==>
            !Ends(e, id) && (Subscribed(es, h, id, ch) || (Registered(es, h, id) && e == Subscribe(id, ch)))
  {
    var fs := es + [e];
    if Subscribed(fs, h, id, ch) {
      var r, q :| 0 <= r < q < |fs| && fs[r] == Register(h, id) && fs[q] == Subscribe(id, ch) && LastsFrom(fs, id, r);
      assert fs[|es|] == e && es[r] == Register(h, id);
      assert forall j | r < j < |es| :: es[j] == fs[j];
      assert LastsFrom(es, id, r);
      if q < |es| { assert es[q] == Subscribe(id, ch); }
    }
    if !Ends(e, id) {
      if Subscribed(es, h, id, ch) {
        var r, q :| 0 <= r < q < |es| && es[r] == Register(h, id) && es[q] == Subscribe(id, ch) && LastsFrom(es, id, r);
        assert fs[r] == Register(h, id) && fs[q] == Subscribe(id, ch) && LastsFrom(fs, id, r);
      } else if Registered(es, h, id) && e == Subscribe(id, ch) {
        var r :| 0 <= r < |es| && es[r] == Register(h, id) && LastsFrom(es, id, r);
        assert fs[r] == Register(h, id) && fs[|es|] == Subscribe(id, ch) && LastsFrom(fs, id, r);
      }
    }
  }

  // ---------------------------------------------------------------- the hub tracks the history

  ghost predicate TracksRegistrations(s: Hub, es: seq<Step>) {
    forall h, id :: Registered(es, h, id) <==> id in s.clients && s.clients[id] == h
  }

  ghost predicate TracksSubscriptions(s: Hub, es: seq<Step>) {
    forall h, id, ch :: Subscribed(es, h, id, ch) <==> id in s.clients && s.clients[id] == h && Listed(s, id, ch)
  }

  /** The message in delivery is still on its way to this object. */
  ghost predicate Owed(s: Hub, h: Handle)
    requires h < |s.objects|
  {
    s.phase.Sending? && s.objects[h].id in s.phase.pending && Current(s, h)
  }

  ghost predicate TracksStreams(s: Hub, es: seq<Step>) {
    forall h | 0 <= h < |s.objects| ::
      Expected(es, h) == Stream(s.objects[h]) + if Owed(s, h) then [s.phase.msg] else []
  }

  lemma RegistrationsStep(s: Hub, es: seq<Step>, e: Step)
    requires Inv(s) && Enabled(s, e) && TracksRegistrations(s, es)
    ensures TracksRegistrations(Apply(s, e), es + [e])
  {
    var t := Apply(s, e);
    forall h, id
      ensures Registered(es + [e], h, id) <==> id in t.clients && t.clients[id] == h
    {
      RegisteredStep(es, e, h, id);
      assert Registered(es, h, id) <==> id in s.clients && s.clients[id] == h;
    }
  }

  lemma ListedStep(s: Hub, e: Step, id: Id, ch: Channel)
    requires Inv(s) && Enabled(s, e)
    ensures Listed(Apply(s, e), id, ch) <==>
            !Ends(e, id) && (Listed(s, id, ch) || (id in s.clients && e == Subscribe(id, ch)))
  {
    var t := Apply(s, e);
    match e
    case Register(_, i) =>
      UnregisterRemovesExactly(s, i);
      assert Listed(t, id, ch) <==> Listed(UnregisterClient(s, i), id, ch);
    case Unregister(_, i) =>
      UnregisterRemovesExactly(s, i);
    case Subscribe(i, c) =>
      assert ch != c ==> (Listed(t, id, ch) <==> Listed(s, id, ch));
    case _ =>
      assert t.channels == s.channels;
  }

  lemma SubscriptionsStep(s: Hub, es: seq<Step>, e: Step)
    requires Inv(s) && Enabled(s, e) && TracksRegistrations(s, es) && TracksSubscriptions(s, es)
    ensures TracksSubscriptions(Apply(s, e), es + [e])
  {
    var t := Apply(s, e);
    RegistrationsStep(s, es, e);
    forall h, id, ch
      ensures Subscribed(es + [e], h, id, ch) <==> id in t.clients && t.clients[id] == h && Listed(t, id, ch)
    {
      SubscribedStep(es, e, h, id, ch);
      ListedStep(s, e, id, ch);
      RegisteredStep(es, e, h, id);
      assert Subscribed(es, h, id, ch) <==> id in s.clients && s.clients[id] == h && Listed(s, id, ch);
      assert Registered(es, h, id) <==> id in s.clients && s.clients[id] == h;
      assert Registered(es + [e], h, id) <==> id in t.clients && t.clients[id] == h;
      assert Listed(s, id, ch) ==> id in s.clients;
    }
  }

  /** The writer moves messages along without losing, adding or reordering any. */
  lemma WriterKeepsStream(c: Client)
    ensures c.outbox != [] && c.writer.Waiting? && c.batch == [] ==> Stream(TakeFirst(c)) == Stream(c)
    ensures Stream(CountQueued(c)) == Stream(c)
    ensures c.outbox != [] && c.writer.Gathering? && c.writer.left > 0 ==> Stream(TakeNext(c)) == Stream(c)
    ensures Stream(WriteFrame(c)) == Stream(c)
  {
    if c.outbox != [] {
      assert [c.outbox[0]] + c.outbox[1..] == c.outbox;
      assert c.batch + [c.outbox[0]] + c.outbox[1..] == c.batch + c.outbox;
      assert Flatten(c.written) + (c.batch + [c.outbox[0]]) + c.outbox[1..] == Stream(c);
    }
    assert WriteFrame(c).written[..|c.written|] == c.written;
  }

  /** Steps that are not sends leave every expectation alone. */
  lemma ExpectedStep(es: seq<Step>, e: Step, h: Handle)
    ensures Expected(es + [e], h) ==
            Expected(es, h) + if e.Send? && exists id :: Subscribed(es, h, id, e.msg.channel) then [e.msg] else []
  {
    assert (es + [e])[..|es|] == es;
  }

  lemma SendStream(s: Hub, es: seq<Step>, msg: Message, h: Handle)
    requires Inv(s) && s.phase.Idle? && h < |s.objects|
    requires TracksSubscriptions(s, es) && TracksStreams(s, es)
    ensures var t := StartSend(s, msg);
      Expected(es + [Send(msg)], h) == Stream(t.objects[h]) + if Owed(t, h) then [msg] else []
  {
    var t := StartSend(s, msg);
    ExpectedStep(es, Send(msg), h);
    var id := s.objects[h].id;
    assert Expected(es, h) == Stream(s.objects[h]);
    if exists i :: Subscribed(es, h, i, msg.channel) {
      var i :| Subscribed(es, h, i, msg.channel);
      assert s.clients[i] == h && s.objects[h].id == i;
      assert Current(t, h);
    }
    assert Owed(t, h) ==> Listed(s, id, msg.channel);
    assert Owed(t, h) ==> Subscribed(es, h, id, msg.channel);
  }

  lemma StreamGrows(c: Client, msg: Message)
    ensures Stream(Enqueued(c, msg)) == Stream(c) + [msg]
  {
    assert Flatten(c.written) + c.batch + (c.outbox + [msg]) == Stream(c) + [msg];
  }

  /** Serving one subscriber settles what is owed to its current object and to no other. */
  lemma DeliverSettles(s: Hub, id: Id, h: Handle)
    requires Inv(s) && Enabled(s, Deliver(id)) && h < |s.objects|
    ensures id in s.clients
    ensures var t := DeliverTo(s, id);
      && |t.objects| == |s.objects|
      && t.objects[h] == (if h == s.clients[id] then Enqueued(s.objects[h], s.phase.msg) else s.objects[h])
      && (Owed(t, h) <==> Owed(s, h) && h != s.clients[id])
      && (h == s.clients[id] ==> Owed(s, h))
      && (t.phase.Sending? ==> t.phase.msg == s.phase.msg)
  {
    DeliverKeepsInv(s, id);
    var t := DeliverTo(s, id);
    assert t.clients == s.clients && t.objects[h].id == s.objects[h].id;
    assert Current(t, h) <==> Current(s, h);
    assert s.objects[s.clients[id]].id == id;
    if h == s.clients[id] {
      assert Current(s, h) && Owed(s, h);
    } else {
      var rest, own := s.phase.pending - {id}, s.objects[h].id;
      assert Current(s, h) ==> own != id;
      assert own != id ==> (own in rest <==> own in s.phase.pending);
      assert own in Pending(t.phase) <==> own in rest;
    }
  }

  lemma DeliverStream(s: Hub, es: seq<Step>, id: Id, h: Handle)
    requires Inv(s) && Enabled(s, Deliver(id)) && h < |s.objects|
    requires Expected(es, h) == Stream(s.objects[h]) + if Owed(s, h) then [s.phase.msg] else []
    ensures var t := DeliverTo(s, id);
      && |t.objects| == |s.objects|
      && Expected(es + [Deliver(id)], h) == Stream(t.objects[h]) + if Owed(t, h) then [t.phase.msg] else []
  {
    ExpectedStep(es, Deliver(id), h);
    DeliverSettles(s, id, h);
    StreamGrows(s.objects[h], s.phase.msg);
  }

  /** Registering, unregistering and subscribing happen between sends and move no message. */
  lemma HubStepStream(s: Hub, e: Step, h: Handle)
    requires Inv(s) && Enabled(s, e) && h < |s.objects|
    requires e.Register? || e.Unregister? || e.Subscribe?
    ensures var t := Apply(s, e);
      h < |t.objects| && Stream(t.objects[h]) == Stream(s.objects[h]) && !Owed(t, h) && !Owed(s, h)
  {
    var t := Apply(s, e);
    assert t.phase.Idle?;
    var c, d := s.objects[h], t.objects[h];
    assert d.written == c.written && d.batch == c.batch && d.outbox == c.outbox;
  }

  lemma WriterStepStream(s: Hub, e: Step, h: Handle)
    requires Inv(s) && Enabled(s, e) && h < |s.objects|
    requires e.Take? || e.Count? || e.TakeMore? || e.Flush? || e.Fail?
    ensures var t := Apply(s, e);
      |t.objects| == |s.objects| && Stream(t.objects[h]) == Stream(s.objects[h]) && t.phase == s.phase
      && (Owed(t, h) <==> Owed(s, h))
  {
    var t := Apply(s, e);
    var c, d := s.objects[h], t.objects[h];
    assert WriterOk(c);
    WriterKeepsStream(c);
    assert d.id == c.id && t.clients == s.clients;
    assert Stream(c.(writer := Stopped)) == Stream(c);
  }

  /** Handles are handed out in order, so no step has named a handle beyond the objects made. */
  ghost predicate TracksBirths(s: Hub, es: seq<Step>) {
    forall r | 0 <= r < |es| && es[r].Register? :: es[r].h < |s.objects|
  }

  lemma BirthsStep(s: Hub, es: seq<Step>, e: Step)
    requires Inv(s) && Enabled(s, e) && TracksBirths(s, es)
    ensures |s.objects| <= |Apply(s, e).objects|
    ensures |Apply(s, e).objects| == |s.objects| + if e.Register? then 1 else 0
    ensures TracksBirths(Apply(s, e), es + [e])
  {
  }

  lemma {:induction false} UnbornExpectNothing(s: Hub, es: seq<Step>, h: Handle)
    requires TracksBirths(s, es) && h >= |s.objects|
    ensures Expected(es, h) == []
  {
    if es != [] {
      var before := es[..|es| - 1];
      UnbornExpectNothing(s, before, h);
      forall id, ch
        ensures !Subscribed(before, h, id, ch)
      {
        assert forall r | 0 <= r < |before| :: before[r] == es[r];
      }
    }
  }

  lemma StreamsStep(s: Hub, es: seq<Step>, e: Step)
    requires Inv(s) && Enabled(s, e)
    requires TracksBirths(s, es) && TracksSubscriptions(s, es) && TracksStreams(s, es)
    ensures TracksStreams(Apply(s, e), es + [e])
  {
    var t := Apply(s, e);
    BirthsStep(s, es, e);
    forall h | 0 <= h < |t.objects|
      ensures Expected(es + [e], h) == Stream(t.objects[h]) + if Owed(t, h) then [t.phase.msg] else []
    {
      if e.Send? {
        SendStream(s, es, e.msg, h);
      } else if e.Deliver? {
        DeliverStream(s, es, e.id, h);
      } else {
        ExpectedStep(es, e, h);
        if h == |s.objects| {
          UnbornExpectNothing(s, es, h);
          assert t.phase.Idle? && t.objects[h] == NewClient(e.id);
        } else if e.Register? || e.Unregister? || e.Subscribe? {
          HubStepStream(s, e, h);
        } else {
          WriterStepStream(s, e, h);
        }
      }
    }
  }

  lemma {:induction false} HubTracksHistory(es: seq<Step>)
    requires Legal(es)
    ensures var s := After(es);
      TracksBirths(s, es) && TracksRegistrations(s, es) && TracksSubscriptions(s, es) && TracksStreams(s, es)
  {
    if es != [] {
      var before, e := es[..|es| - 1], es[|es| - 1];
      HubTracksHistory(before);
      assert before + [e] == es;
      var s := After(before);
      BirthsStep(s, before, e);
      RegistrationsStep(s, before, e);
      SubscriptionsStep(s, before, e);
      StreamsStep(s, before, e);
    }
  }

  // ---------------------------------------------------------------- the theorems

  /** When no delivery is in progress, every client object has been handed exactly the messages its
      history calls for, each once and in send order. */
  lemma DeliveryIsExact(es: seq<Step>, h: Handle)
    requires Legal(es) && h < |After(es).objects| && After(es).phase.Idle?
    ensures Stream(After(es).objects[h]) == Expected(es, h)
  {
    HubTracksHistory(es);
    assert !Owed(After(es), h);
  }

  /** In the middle of a delivery an object lacks at most the message being delivered. */
  lemma DeliveryNeverRunsAhead(es: seq<Step>, h: Handle)
    requires Legal(es) && h < |After(es).objects|
    ensures Stream(After(es).objects[h]) <= Expected(es, h)
    ensures |Expected(es, h)| <= |Stream(After(es).objects[h])| + 1
  {
    HubTracksHistory(es);
  }

  /** The registered object of an id, and its subscriptions, are what the history says. */
  lemma IndexesMatchHistory(es: seq<Step>, h: Handle, id: Id, ch: Channel)
    requires Legal(es)
    ensures Registered(es, h, id) <==> id in After(es).clients && After(es).clients[id] == h
    ensures Subscribed(es, h, id, ch) <==>
            id in After(es).clients && After(es).clients[id] == h && Listed(After(es), id, ch)
  {
    HubTracksHistory(es);
  }

  /** An unregister acts by id: whichever object it comes from, even one replaced long ago, no object
      is registered under that id afterwards, and every other id keeps its object. */
  lemma LateUnregisterRemovesNewest(es: seq<Step>, stale: Handle, id: Id)
    requires Legal(es + [Unregister(stale, id)])
    ensures forall h :: !Registered(es + [Unregister(stale, id)], h, id)
    ensures var t := After(es + [Unregister(stale, id)]);
      id !in t.clients && Legal(es) && forall id' | id' != id ::
        (id' in t.clients <==> id' in After(es).clients)
        && (id' in t.clients ==> t.clients[id'] == After(es).clients[id'])
  {
    var e := Unregister(stale, id);
    assert (es + [e])[..|es|] == es;
    forall h ensures !Registered(es + [e], h, id) { RegisteredStep(es, e, h, id); }
  }

  lemma TwoConnections(id: Id)
    ensures var es := [] + [Register(0, id)] + [Register(1, id)];
      Legal(es) && After(es).clients == map[id := 1] && After(es).phase.Idle?
      && |After(es).objects| == 2 && After(es).objects[0].id == id
  {
    var es: seq<Step> := [];
    OneMore(es, Register(0, id));
    es := es + [Register(0, id)];
    assert After(es).objects == [NewClient(id)] && After(es).clients == map[id := 0];
    OneMore(es, Register(1, id));
  }

  /** A second connection of an id, then the end of the first: the second, which is still open, is no
      longer registered. */
  lemma OldConnectionRemovesNew(id: Id)
    ensures var before := [] + [Register(0, id)] + [Register(1, id)];
      var es := before + [Unregister(0, id)];
      && Legal(before) && After(before).clients == map[id := 1]
      && Legal(es) && After(es).clients == map[]
  {
    TwoConnections(id);
    OneMore([] + [Register(0, id)] + [Register(1, id)], Unregister(0, id));
  }
}
