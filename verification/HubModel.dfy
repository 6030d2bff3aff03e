/**
 The WebSocket hub as a step system: one hub loop that owns two indexes
 (channel to client ids, and client to channels), one bounded outbox per client
 object, and one writer per client object that drains the outbox in batches.

 Every step is one indivisible action of one goroutine.  The fan-out of a message
 is not indivisible: each subscriber is served by its own step, which waits while
 that subscriber's outbox is full.
 */
module HubModel {
  type Id = string
  type Channel = string
  type Handle = nat // identity of a Client object: its position in allocation order

  const OUTBOX_CAPACITY := 256

  datatype Message = Message(channel: Channel, text: string)

  /** Where a writer goroutine stands in its loop. */
  datatype Writer =
    | Waiting              // blocked on the first receive
    | Took                 // holds the first message, has not yet read the queue length
    | Gathering(left: nat) // still has to receive `left` queued messages
    | Stopped              // returned after a failed write or ping

  /** A Client object.  `batch` is the writer's local slice, `written` the frames it has sent. */
  datatype Client = Client(
    id: Id,
    channels: set<Channel>,
    outbox: seq<Message>,
    batch: seq<Message>,
    written: seq<seq<Message>>,
    writer: Writer)

  /** The hub loop is either at its select, or inside the fan-out of one message. */
  datatype Phase = Idle | Sending(msg: Message, pending: set<Id>)

  datatype Hub = Hub(
    channels: map<Channel, set<Id>>,
    clients: map<Id, Handle>,
    objects: seq<Client>,
    phase: Phase)

  datatype Step =
    | Register(h: Handle, id: Id)
    | Unregister(h: Handle, id: Id)
    | Subscribe(id: Id, channel: Channel)
    | Send(msg: Message)
    | Deliver(id: Id)
    | Take(h: Handle)
    | Count(h: Handle)
    | TakeMore(h: Handle)
    | Flush(h: Handle)
    | Fail(h: Handle)

  const INITIAL: Hub := Hub(map[], map[], [], Idle)

  function NewClient(id: Id): Client {
    Client(id, {}, [], [], [], Waiting)
  }

  // ---------------------------------------------------------------- the hub's own operations

  function DropId(channels: map<Channel, set<Id>>, id: Id): map<Channel, set<Id>> {
    map ch | ch in channels && channels[ch] - {id} != {} :: channels[ch] - {id}
  }

  function UnregisterClient(s: Hub, id: Id): Hub
    requires id in s.clients ==> s.clients[id] < |s.objects|
  {
    if id !in s.clients then s else
      var h := s.clients[id];
      s.(channels := DropId(s.channels, id),
         clients := s.clients - {id},
         objects := s.objects[h := s.objects[h].(channels := {})])
  }

  function RegisterClient(s: Hub, id: Id): Hub
    requires id in s.clients ==> s.clients[id] < |s.objects|
  {
    AddClient(UnregisterClient(s, id), id)
  }

  function AddClient(s: Hub, id: Id): Hub {
    s.(clients := s.clients[id := |s.objects|], objects := s.objects + [NewClient(id)])
  }

  function SubscribeChannel(s: Hub, id: Id, channel: Channel): Hub
    requires id in s.clients ==> s.clients[id] < |s.objects|
  {
    if id !in s.clients then s else
      var h := s.clients[id];
      var c := s.objects[h];
      s.(objects := s.objects[h := c.(channels := c.channels + {channel})],
         channels := s.channels[channel := Subscribers(s, channel) + {id}])
  }

  function Subscribers(s: Hub, channel: Channel): set<Id> {
    if channel in s.channels then s.channels[channel] else {}
  }

  function StartSend(s: Hub, msg: Message): Hub {
    s.(phase := Rest(msg, Subscribers(s, msg.channel)))
  }

  function Rest(msg: Message, pending: set<Id>): Phase {
    if pending == {} then Idle else Sending(msg, pending)
  }

  function DeliverTo(s: Hub, id: Id): Hub
    requires s.phase.Sending?
    requires id in s.clients ==> s.clients[id] < |s.objects|
  {
    var t := s.(phase := Rest(s.phase.msg, s.phase.pending - {id}));
    if id !in s.clients then t else
      var h := s.clients[id];
      t.(objects := s.objects[h := Enqueued(s.objects[h], s.phase.msg)])
  }

  function Enqueued(c: Client, msg: Message): Client {
    c.(outbox := c.outbox + [msg])
  }

  /** The hub after a fan-out of `msg` has served the ids in `done` and still owes those in `pending`. */
  ghost function Served(s: Hub, msg: Message, done: set<Id>, pending: set<Id>): Hub {
    s.(phase := Rest(msg, pending),
       objects := seq(|s.objects|, h requires 0 <= h < |s.objects| =>
         if s.objects[h].id in done && Current(s, h) then Enqueued(s.objects[h], msg) else s.objects[h]))
  }

  // ---------------------------------------------------------------- the writer's operations

  function TakeFirst(c: Client): Client
    requires c.outbox != []
  {
    c.(batch := [c.outbox[0]], outbox := c.outbox[1..], writer := Took)
  }

  function CountQueued(c: Client): Client {
    c.(writer := Gathering(|c.outbox|))
  }

  function TakeNext(c: Client): Client
    requires c.outbox != [] && c.writer.Gathering? && c.writer.left > 0
  {
    c.(batch := c.batch + [c.outbox[0]], outbox := c.outbox[1..], writer := Gathering(c.writer.left - 1))
  }

  function WriteFrame(c: Client): Client {
    c.(written := c.written + [c.batch], batch := [], writer := Waiting)
  }

  // ---------------------------------------------------------------- the step relation

  ghost predicate WellKeyed(s: Hub) {
    forall id | id in s.clients :: s.clients[id] < |s.objects| && s.objects[s.clients[id]].id == id
  }

  ghost predicate Enabled(s: Hub, e: Step) {
    match e
    case Register(h, id) => s.phase.Idle? && h == |s.objects|
    case Unregister(h, id) => s.phase.Idle? && h < |s.objects| && s.objects[h].id == id
    case Subscribe(id, channel) => s.phase.Idle?
    case Send(msg) => s.phase.Idle?
    case Deliver(id) =>
      s.phase.Sending? && id in s.phase.pending
      && (id in s.clients && s.clients[id] < |s.objects| ==> |s.objects[s.clients[id]].outbox| < OUTBOX_CAPACITY)
    case Take(h) => h < |s.objects| && s.objects[h].writer.Waiting? && s.objects[h].outbox != []
    case Count(h) => h < |s.objects| && s.objects[h].writer.Took?
    case TakeMore(h) =>
      h < |s.objects| && s.objects[h].writer.Gathering? && s.objects[h].writer.left > 0 && s.objects[h].outbox != []
    case Flush(h) => h < |s.objects| && s.objects[h].writer == Gathering(0)
    case Fail(h) => h < |s.objects| && (s.objects[h].writer.Waiting? || s.objects[h].writer == Gathering(0))
  }

  ghost function Apply(s: Hub, e: Step): Hub
    requires WellKeyed(s) && Enabled(s, e)
  {
    match e
    case Register(h, id) => RegisterClient(s, id)
    case Unregister(h, id) => UnregisterClient(s, id)
    case Subscribe(id, channel) => SubscribeChannel(s, id, channel)
    case Send(msg) => StartSend(s, msg)
    case Deliver(id) => DeliverTo(s, id)
    case Take(h) => s.(objects := s.objects[h := TakeFirst(s.objects[h])])
    case Count(h) => s.(objects := s.objects[h := CountQueued(s.objects[h])])
    case TakeMore(h) => s.(objects := s.objects[h := TakeNext(s.objects[h])])
    case Flush(h) => s.(objects := s.objects[h := WriteFrame(s.objects[h])])
    case Fail(h) => s.(objects := s.objects[h := s.objects[h].(writer := Stopped)])
  }

  // ---------------------------------------------------------------- the invariant

  ghost predicate Listed(s: Hub, id: Id, channel: Channel) {
    channel in s.channels && id in s.channels[channel]
  }

  /** `ch in clients[id].channels` exactly when `id in channels[ch]`. */
  ghost predicate IndexesAgree(s: Hub)
    requires WellKeyed(s)
  {
    forall id, ch | id in s.clients :: ch in s.objects[s.clients[id]].channels <==> Listed(s, id, ch)
  }

  ghost predicate NoEmptyOrStrayEntries(s: Hub) {
    forall ch | ch in s.channels :: s.channels[ch] != {} && s.channels[ch] <= s.clients.Keys
  }

  ghost predicate Current(s: Hub, h: Handle)
    requires h < |s.objects|
  {
    s.objects[h].id in s.clients && s.clients[s.objects[h].id] == h
  }

  ghost predicate ReplacedAreDetached(s: Hub) {
    forall h | 0 <= h < |s.objects| && !Current(s, h) :: s.objects[h].channels == {}
  }

  ghost predicate WriterOk(c: Client) {
    && |c.outbox| <= OUTBOX_CAPACITY
    && (c.writer.Gathering? ==> c.writer.left <= |c.outbox|)
    && (c.writer.Waiting? ==> c.batch == [])
  }

  ghost predicate WritersOk(s: Hub) {
    forall h | 0 <= h < |s.objects| :: WriterOk(s.objects[h])
  }

  ghost predicate PhaseOk(s: Hub) {
    s.phase.Sending? ==> s.phase.pending != {} && s.phase.pending <= Subscribers(s, s.phase.msg.channel)
  }

  ghost predicate Inv(s: Hub) {
    && WellKeyed(s)
    && IndexesAgree(s)
    && NoEmptyOrStrayEntries(s)
    && ReplacedAreDetached(s)
    && WritersOk(s)
    && PhaseOk(s)
  }

  lemma UnregisterKeepsInv(s: Hub, id: Id)
    requires Inv(s) && s.phase.Idle?
    ensures Inv(UnregisterClient(s, id))
  {
    var t := UnregisterClient(s, id);
    if id in s.clients {
      forall id', ch | id' in t.clients
        ensures ch in t.objects[t.clients[id']].channels <==> Listed(t, id', ch)
      {
        assert id' != id && s.clients[id'] != s.clients[id];
      }
      forall h | 0 <= h < |t.objects| && !Current(t, h)
        ensures t.objects[h].channels == {}
      {
        if h != s.clients[id] { assert !Current(s, h); }
      }
    }
  }

  /** `unregisterClient` removes exactly the pairs of that id from both indexes, keeps every other
      pair, and deletes exactly the channels whose only subscriber it was. */
  lemma UnregisterRemovesExactly(s: Hub, id: Id)
    requires Inv(s) && s.phase.Idle?
    ensures var t := UnregisterClient(s, id);
      && t.clients == s.clients - {id}
      && (forall id', ch :: Listed(t, id', ch) <==> Listed(s, id', ch) && id' != id)
      && (forall ch | ch in s.channels :: ch !in t.channels <==> s.channels[ch] == {id})
      && |t.objects| == |s.objects|
      && (forall h | 0 <= h < |s.objects| ::
            t.objects[h] == if Current(s, h) && s.objects[h].id == id then s.objects[h].(channels := {}) else s.objects[h])
  {
    var t := UnregisterClient(s, id);
    forall ch | ch in s.channels
      ensures ch !in t.channels <==> s.channels[ch] == {id}
    {
      if id in s.clients {
        if s.channels[ch] - {id} == {} { assert s.channels[ch] == {id}; }
      } else {
        assert id !in s.channels[ch];
      }
    }
  }

  lemma RegisterKeepsInv(s: Hub, id: Id)
    requires Inv(s) && s.phase.Idle?
    ensures Inv(RegisterClient(s, id))
  {
    UnregisterKeepsInv(s, id);
    var u := UnregisterClient(s, id);
    var t := RegisterClient(s, id);
    forall id', ch | id' in t.clients
      ensures ch in t.objects[t.clients[id']].channels <==> Listed(t, id', ch)
    {
      if id' == id {
        assert id !in u.clients;
        assert ch in u.channels ==> u.channels[ch] <= u.clients.Keys;
      }
    }
    forall h | 0 <= h < |t.objects| && !Current(t, h)
      ensures t.objects[h].channels == {}
    {
      assert h < |u.objects|;
      assert u.objects[h].id != id ==> (Current(u, h) <==> Current(t, h));
    }
  }

  /** Subscribing adds one pair to either index. */
  lemma SubscribeLists(s: Hub, id: Id, channel: Channel, id': Id, ch: Channel)
    requires Inv(s) && id in s.clients && id' in s.clients
    ensures var t := SubscribeChannel(s, id, channel);
      && (Listed(t, id', ch) <==> Listed(s, id', ch) || (id' == id && ch == channel))
      && (ch in t.objects[s.clients[id']].channels <==>
          ch in s.objects[s.clients[id']].channels || (id' == id && ch == channel))
  {
    assert id' != id ==> s.clients[id'] != s.clients[id];
  }

  lemma SubscribeKeepsInv(s: Hub, id: Id, channel: Channel)
    requires Inv(s) && s.phase.Idle?
    ensures Inv(SubscribeChannel(s, id, channel))
  {
    var t := SubscribeChannel(s, id, channel);
    if id in s.clients {
      forall id', ch | id' in t.clients
        ensures ch in t.objects[t.clients[id']].channels <==> Listed(t, id', ch)
      {
        SubscribeLists(s, id, channel, id', ch);
      }
      forall h | 0 <= h < |t.objects| && !Current(t, h)
        ensures t.objects[h].channels == {}
      {
        assert !Current(s, h);
      }
    }
  }

  /** A change to one client object's queue and writer touches neither index. */
  lemma QueueChangeKeepsInv(s: Hub, h: Handle, c: Client, phase: Phase)
    requires Inv(s) && h < |s.objects|
    requires c.id == s.objects[h].id && c.channels == s.objects[h].channels && WriterOk(c)
    requires PhaseOk(s.(phase := phase))
    ensures Inv(s.(objects := s.objects[h := c], phase := phase))
  {
    var t := s.(objects := s.objects[h := c], phase := phase);
    assert forall k | 0 <= k < |s.objects| ::
      t.objects[k].id == s.objects[k].id && t.objects[k].channels == s.objects[k].channels;
    forall k | 0 <= k < |t.objects| && !Current(t, k)
      ensures t.objects[k].channels == {}
    {
      assert !Current(s, k);
    }
    forall id, ch | id in t.clients
      ensures ch in t.objects[t.clients[id]].channels <==> Listed(t, id, ch)
    {
      assert Listed(t, id, ch) <==> Listed(s, id, ch);
    }
  }

  lemma SendKeepsInv(s: Hub, msg: Message)
    requires Inv(s) && s.phase.Idle?
    ensures Inv(StartSend(s, msg))
  {
    var t := StartSend(s, msg);
    assert forall id, ch :: Listed(t, id, ch) <==> Listed(s, id, ch);
    assert forall h | 0 <= h < |s.objects| :: Current(t, h) <==> Current(s, h);
  }

  lemma DeliverKeepsInv(s: Hub, id: Id)
    requires Inv(s) && Enabled(s, Deliver(id))
    ensures id in s.clients
    ensures Inv(DeliverTo(s, id))
  {
    var msg := s.phase.msg;
    assert id in Subscribers(s, msg.channel);
    var h := s.clients[id];
    QueueChangeKeepsInv(s, h, Enqueued(s.objects[h], msg), Rest(msg, s.phase.pending - {id}));
  }

  lemma StepKeepsInv(s: Hub, e: Step)
    requires Inv(s) && Enabled(s, e)
    ensures Inv(Apply(s, e))
  {
    match e
    case Register(h, id) => RegisterKeepsInv(s, id);
    case Unregister(h, id) => UnregisterKeepsInv(s, id);
    case Subscribe(id, channel) => SubscribeKeepsInv(s, id, channel);
    case Send(msg) => SendKeepsInv(s, msg);
    case Deliver(id) => DeliverKeepsInv(s, id);
    case Take(h) => QueueChangeKeepsInv(s, h, TakeFirst(s.objects[h]), s.phase);
    case Count(h) => QueueChangeKeepsInv(s, h, CountQueued(s.objects[h]), s.phase);
    case TakeMore(h) => QueueChangeKeepsInv(s, h, TakeNext(s.objects[h]), s.phase);
    case Flush(h) => QueueChangeKeepsInv(s, h, WriteFrame(s.objects[h]), s.phase);
    case Fail(h) => QueueChangeKeepsInv(s, h, s.objects[h].(writer := Stopped), s.phase);
  }

  // ---------------------------------------------------------------- a whole fan-out

  function Pending(p: Phase): set<Id> {
    match p
    case Idle => {}
    case Sending(_, pending) => pending
  }

  /** `t` is `s` part-way through the fan-out of `msg`: every subscriber no longer pending has received
      it once, nobody else has, and nothing else differs. */
  ghost predicate Serving(s: Hub, msg: Message, t: Hub) {
    && Inv(t)
    && Pending(t.phase) <= Subscribers(s, msg.channel)
    && t == Served(s, msg, Subscribers(s, msg.channel) - Pending(t.phase), Pending(t.phase))
  }

  lemma ServingStarts(s: Hub, msg: Message)
    requires Inv(s) && s.phase.Idle?
    ensures Serving(s, msg, StartSend(s, msg))
  {
    SendKeepsInv(s, msg);
    var t := StartSend(s, msg);
    assert Subscribers(s, msg.channel) - Pending(t.phase) == {};
    assert t.objects == Served(s, msg, {}, Pending(t.phase)).objects;
  }

  lemma ServedObject(s: Hub, msg: Message, t: Hub, id: Id, h: Handle)
    requires Inv(s) && Serving(s, msg, t) && Enabled(t, Deliver(id)) && h < |s.objects| && id in s.clients
    ensures var c := s.objects[h];
      DeliverTo(t, id).objects[h] ==
      if c.id in Subscribers(s, msg.channel) && (c.id !in Pending(t.phase) || c.id == id) && Current(s, h)
      then Enqueued(c, msg) else c
  {
    assert s.objects[s.clients[id]].id == id;
  }

  /** The order in which subscribers are served does not matter. */
  lemma ServingContinues(s: Hub, msg: Message, t: Hub, id: Id)
    requires Inv(s) && Serving(s, msg, t) && Enabled(t, Deliver(id))
    ensures Serving(s, msg, DeliverTo(t, id))
    ensures Pending(DeliverTo(t, id).phase) == Pending(t.phase) - {id}
  {
    DeliverKeepsInv(t, id);
    var u := DeliverTo(t, id);
    var all, pending := Subscribers(s, msg.channel), Pending(t.phase);
    var done := all - (pending - {id});
    assert done == all - pending + {id};
    forall h | 0 <= h < |s.objects|
      ensures u.objects[h] == Served(s, msg, done, pending - {id}).objects[h]
    {
      ServedObject(s, msg, t, id, h);
    }
    assert u.objects == Served(s, msg, done, pending - {id}).objects;
  }

  // ---------------------------------------------------------------- runs

  /** The state after a run, given as the sequence of steps taken from the start. */
  ghost function After(es: seq<Step>): (s: Hub)
    requires Legal(es)
    ensures Inv(s)
    decreases |es|, 1
  {
    if es == [] then INITIAL else
      var s := After(es[..|es| - 1]);
      StepKeepsInv(s, es[|es| - 1]);
      Apply(s, es[|es| - 1])
  }

  ghost predicate Legal(es: seq<Step>)
    decreases |es|, 0
  {
    es == [] || (Legal(es[..|es| - 1]) && Enabled(After(es[..|es| - 1]), es[|es| - 1]))
  }

  lemma OneMore(es: seq<Step>, e: Step)
    requires Legal(es) && Enabled(After(es), e)
    ensures Legal(es + [e]) && After(es + [e]) == Apply(After(es), e)
  {
    assert (es + [e])[..|es|] == es;
  }

  /** In every reachable state the two indexes agree, no channel entry is empty, every listed id is
      registered, distinct ids own distinct Client objects, and no outbox exceeds its capacity. */
  lemma ReachableStatesAreConsistent(es: seq<Step>)
    requires Legal(es)
    ensures var s := After(es);
      && (forall id | id in s.clients :: s.clients[id] < |s.objects| && s.objects[s.clients[id]].id == id)
      && (forall id, ch | id in s.clients ::
            ch in s.objects[s.clients[id]].channels <==> ch in s.channels && id in s.channels[ch])
      && (forall ch | ch in s.channels :: s.channels[ch] != {} && s.channels[ch] <= s.clients.Keys)
      && (forall id, id' | id in s.clients && id' in s.clients && id != id' :: s.clients[id] != s.clients[id'])
      && (forall h | 0 <= h < |s.objects| :: |s.objects[h].outbox| <= OUTBOX_CAPACITY)
  {
    var s := After(es);
    assert Inv(s);
    forall id, ch | id in s.clients
      ensures ch in s.objects[s.clients[id]].channels <==> ch in s.channels && id in s.channels[ch]
    {
      assert ch in s.objects[s.clients[id]].channels <==> Listed(s, id, ch);
    }
    assert forall h | 0 <= h < |s.objects| :: WriterOk(s.objects[h]);
  }
}
