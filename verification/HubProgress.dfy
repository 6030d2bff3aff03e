/**
 Progress of a fan-out.  While a message is in delivery the hub accepts nothing else, so what
 matters is whether deliveries and writers alone can bring it to an end.
 */
module HubProgress {
  import opened HubModel

  /** Steps that can happen while the hub loop is inside a fan-out. */
  predicate Internal(e: Step) {
    e.Deliver? || e.Take? || e.Count? || e.TakeMore? || e.Flush? || e.Fail?
  }

  predicate AllInternal(es: seq<Step>) {
    forall e | e in es :: Internal(e)
  }

  predicate NoFailure(es: seq<Step>) {
    forall e | e in es :: !e.Fail?
  }

  ghost predicate LegalFrom(s: Hub, es: seq<Step>)
    requires Inv(s)
    decreases |es|
  {
    es == [] || (Enabled(s, es[0]) && (StepKeepsInv(s, es[0]); LegalFrom(Apply(s, es[0]), es[1..])))
  }

  ghost function Follow(s: Hub, es: seq<Step>): (t: Hub)
    requires Inv(s) && LegalFrom(s, es)
    ensures Inv(t)
    decreases |es|
  {
    if es == [] then s else
      StepKeepsInv(s, es[0]);
      Follow(Apply(s, es[0]), es[1..])
  }

  // ---------------------------------------------------------------- the measure

  function Weight(c: Client): nat {
    4 * |c.outbox| +
    match c.writer
    case Waiting => 1
    case Took => 3
    case Gathering(_) => 2
    case Stopped => 0
  }

  function TotalWeight(cs: seq<Client>): nat {
    if cs == [] then 0 else Weight(cs[0]) + TotalWeight(cs[1..])
  }

  function Undelivered(s: Hub): nat {
    if s.phase.Idle? then 0 else |s.phase.pending|
  }

  /** What is left to do: five for every subscriber still to be served, plus the writers' backlog. */
  function Measure(s: Hub): nat {
    5 * Undelivered(s) + TotalWeight(s.objects)
  }

  lemma {:induction false} TotalWeightUpdate(cs: seq<Client>, h: nat, c: Client)
    requires h < |cs|
    ensures TotalWeight(cs[h := c]) == TotalWeight(cs) - Weight(cs[h]) + Weight(c)
  {
    var ds := cs[h := c];
    if h == 0 {
      assert ds[1..] == cs[1..];
    } else {
      TotalWeightUpdate(cs[1..], h - 1, c);
      assert ds[1..] == cs[1..][h - 1 := c];
    }
  }

  lemma DeliveryDecreases(s: Hub, id: Id)
    requires Inv(s) && Enabled(s, Deliver(id))
    ensures Measure(DeliverTo(s, id)) == Measure(s) - 1
  {
    DeliverKeepsInv(s, id);
    var h := s.clients[id];
    var c := Enqueued(s.objects[h], s.phase.msg);
    TotalWeightUpdate(s.objects, h, c);
    assert Weight(c) == Weight(s.objects[h]) + 4;
    assert |s.phase.pending - {id}| == |s.phase.pending| - 1;
  }

  lemma WriterDecreases(s: Hub, e: Step)
    requires Inv(s) && Enabled(s, e) && Internal(e) && !e.Deliver?
    ensures Measure(Apply(s, e)) < Measure(s)
  {
    var c, d := s.objects[e.h], Apply(s, e).objects[e.h];
    assert WriterOk(c);
    TotalWeightUpdate(s.objects, e.h, d);
    assert Weight(d) < Weight(c);
  }

  lemma InternalStepDecreases(s: Hub, e: Step)
    requires Inv(s) && Enabled(s, e) && Internal(e)
    ensures Measure(Apply(s, e)) < Measure(s)
  {
    if e.Deliver? {
      DeliveryDecreases(s, e.id);
    } else {
      WriterDecreases(s, e);
    }
  }

  /** However deliveries and writers are scheduled, they can take only so many steps before the hub
      must accept a new event. */
  lemma {:induction false} FanoutIsBounded(s: Hub, es: seq<Step>)
    requires Inv(s) && LegalFrom(s, es) && AllInternal(es)
    ensures |es| + Measure(Follow(s, es)) <= Measure(s)
    decreases |es|
  {
    if es != [] {
      StepKeepsInv(s, es[0]);
      InternalStepDecreases(s, es[0]);
      FanoutIsBounded(Apply(s, es[0]), es[1..]);
    }
  }

  // ---------------------------------------------------------------- when it completes

  /** A subscriber that no step can serve: its writer has returned and its outbox is full. */
  ghost predicate Blocked(s: Hub, id: Id)
    requires Inv(s)
  {
    id in s.clients && s.objects[s.clients[id]].writer.Stopped?
    && |s.objects[s.clients[id]].outbox| == OUTBOX_CAPACITY
  }

  ghost predicate Serviceable(s: Hub)
    requires Inv(s)
  {
    s.phase.Sending? ==> forall id | id in s.phase.pending :: !Blocked(s, id)
  }

  /** A step that brings the loop nearer to having served `id`: the delivery to it, or a step of its own
      writer. */
  ghost predicate Towards(s: Hub, e: Step, id: Id) {
    || e == Deliver(id)
    || (id in s.clients && (e.Take? || e.Count? || e.TakeMore? || e.Flush?) && e.h == s.clients[id])
  }

  ghost predicate CanMove(s: Hub, id: Id) {
    exists e :: Enabled(s, e) && Towards(s, e, id)
  }

  /** Whichever pending subscriber the loop is committed to, unless it is blocked, the delivery to it or
      its own writer can move. */
  lemma FanoutIsNeverStuck(s: Hub, id: Id) returns (e: Step)
    requires Inv(s) && s.phase.Sending? && id in s.phase.pending && !Blocked(s, id)
    ensures Enabled(s, e) && Towards(s, e, id) && Internal(e) && !e.Fail?
    ensures id in s.clients
  {
    assert id in Subscribers(s, s.phase.msg.channel) && id in s.clients;
    var h := s.clients[id];
    var c := s.objects[h];
    assert WriterOk(c);
    if |c.outbox| < OUTBOX_CAPACITY {
      e := Deliver(id);
    } else {
      match c.writer
      case Waiting => e := Take(h);
      case Took => e := Count(h);
      case Gathering(left) => e := if left > 0 then TakeMore(h) else Flush(h);
    }
  }

  lemma StaysUnblocked(s: Hub, e: Step, id: Id)
    requires Inv(s) && Enabled(s, e) && Internal(e) && !e.Fail? && !Blocked(s, id)
    requires e.Deliver? ==> e.id != id
    requires Inv(Apply(s, e))
    ensures !Blocked(Apply(s, e), id)
  {
    if id in s.clients {
      var h := s.clients[id];
      if e.Deliver? {
        DeliverKeepsInv(s, e.id);
        assert s.objects[h].id == id && s.objects[s.clients[e.id]].id == e.id;
        assert Apply(s, e).objects[h] == s.objects[h];
      } else if e.h != h {
        assert Apply(s, e).objects[h] == s.objects[h];
      }
    }
  }

  lemma ServiceableStep(s: Hub, e: Step)
    requires Inv(s) && Enabled(s, e) && Internal(e) && !e.Fail? && Serviceable(s)
    ensures Inv(Apply(s, e)) && Serviceable(Apply(s, e))
  {
    StepKeepsInv(s, e);
    var t := Apply(s, e);
    if t.phase.Sending? {
      forall id | id in t.phase.pending
        ensures !Blocked(t, id)
      {
        assert id in s.phase.pending && !Blocked(s, id);
        StaysUnblocked(s, e, id);
      }
    }
  }

  /** If no pending subscriber is blocked and no connection fails meanwhile, a send completes: it takes
      at most `Measure` steps, and until it is over a step is possible towards whichever pending
      subscriber the loop is waiting for. */
  lemma {:induction false} FanoutCompletes(s: Hub, es: seq<Step>)
    requires Inv(s) && LegalFrom(s, es) && AllInternal(es) && NoFailure(es) && Serviceable(s)
    ensures |es| <= Measure(s)
    ensures var t := Follow(s, es);
      t.phase.Sending? ==> forall id | id in t.phase.pending :: CanMove(t, id)
    decreases |es|
  {
    FanoutIsBounded(s, es);
    if es != [] {
      ServiceableStep(s, es[0]);
      FanoutCompletes(Apply(s, es[0]), es[1..]);
    } else if s.phase.Sending? {
      forall id | id in s.phase.pending
        ensures CanMove(s, id)
      {
        var e := FanoutIsNeverStuck(s, id);
      }
    }
  }

  lemma BlockedStep(s: Hub, e: Step, id: Id)
    requires Inv(s) && Enabled(s, e) && Internal(e)
    requires s.phase.Sending? && id in s.phase.pending && Blocked(s, id)
    ensures var t := Apply(s, e);
      Inv(t) && t.phase.Sending? && id in t.phase.pending && Blocked(t, id)
  {
    StepKeepsInv(s, e);
    var t := Apply(s, e);
    var h := s.clients[id];
    if e.Deliver? {
      assert e.id != id && e.id in s.clients;
      assert s.objects[s.clients[e.id]].id == e.id && s.objects[h].id == id;
      assert id in s.phase.pending - {e.id};
    } else {
      assert e.h != h;
    }
    assert t.objects[h] == s.objects[h] && t.clients == s.clients;
  }

  /** A blocked subscriber stays blocked and pending, whatever deliveries and writers do. */
  lemma {:induction false} BlockedForever(s: Hub, es: seq<Step>, id: Id)
    requires Inv(s) && LegalFrom(s, es) && AllInternal(es)
    requires s.phase.Sending? && id in s.phase.pending && Blocked(s, id)
    ensures var t := Follow(s, es); t.phase.Sending? && id in t.phase.pending
    decreases |es|
  {
    if es != [] {
      BlockedStep(s, es[0], id);
      BlockedForever(Apply(s, es[0]), es[1..], id);
    }
  }

  /** The subscribers served by a run, in order. */
  function Deliveries(es: seq<Step>): seq<Id> {
    if es == [] then [] else (if es[0].Deliver? then [es[0].id] else []) + Deliveries(es[1..])
  }

  /** Each of `ids` once. */
  ghost predicate Lists(order: seq<Id>, ids: set<Id>) {
    && |order| == |ids|
    && (forall id :: id in order <==> id in ids)
    && (forall i, j | 0 <= i < j < |order| :: order[i] != order[j])
  }

  lemma ListsRest(order: seq<Id>, ids: set<Id>)
    requires order != [] && Lists(order, ids)
    ensures Lists(order[1..], ids - {order[0]})
  {
    assert order == [order[0]] + order[1..];
    forall i | 0 <= i < |order[1..]| ensures order[1..][i] != order[0] { }
  }

  lemma StepTowards(s: Hub, e: Step, id: Id)
    requires Inv(s) && Enabled(s, e) && Towards(s, e, id) && s.phase.Sending?
    ensures Pending(Apply(s, e).phase) == if e.Deliver? then Pending(s.phase) - {id} else Pending(s.phase)
  {
  }

  /** A run of deliveries and writers that ends the fan-out, serving the subscribers in this order. */
  ghost predicate CompletesBy(s: Hub, es: seq<Step>, order: seq<Id>)
    requires Inv(s)
  {
    LegalFrom(s, es) && AllInternal(es) && Follow(s, es).phase.Idle? && Deliveries(es) == order
  }

  lemma RunOn(s: Hub, e: Step, es: seq<Step>)
    requires Inv(s) && Enabled(s, e) && Inv(Apply(s, e)) && LegalFrom(Apply(s, e), es)
    ensures LegalFrom(s, [e] + es) && Follow(s, [e] + es) == Follow(Apply(s, e), es)
    ensures Deliveries([e] + es) == (if e.Deliver? then [e.id] else []) + Deliveries(es)
    ensures AllInternal([e] + es) <==> Internal(e) && AllInternal(es)
  {
    assert ([e] + es)[1..] == es;
    assert forall x :: x in [e] + es <==> x == e || x in es;
  }

  /** A run goes on after one step towards the first subscriber of the order. */
  lemma CompletesAfter(s: Hub, e: Step, es: seq<Step>, order: seq<Id>)
    requires Inv(s) && Enabled(s, e) && Internal(e) && order != [] && Towards(s, e, order[0])
    requires Inv(Apply(s, e)) && CompletesBy(Apply(s, e), es, if e.Deliver? then order[1..] else order)
    ensures CompletesBy(s, [e] + es, order)
  {
    RunOn(s, e, es);
    assert order == [order[0]] + order[1..];
  }

  /** A run that serves the pending subscribers in the given order. */
  lemma {:induction false} CompletingRun(s: Hub, order: seq<Id>) returns (es: seq<Step>)
    requires Inv(s) && Serviceable(s) && Lists(order, Pending(s.phase))
    ensures CompletesBy(s, es, order)
    decreases Measure(s)
  {
    if s.phase.Idle? {
      es := [];
    } else {
      var id := order[0];
      assert id in order;
      var e := FanoutIsNeverStuck(s, id);
      ServiceableStep(s, e);
      InternalStepDecreases(s, e);
      StepTowards(s, e, id);
      ListsRest(order, Pending(s.phase));
      es := CompletingRun(Apply(s, e), if e.Deliver? then order[1..] else order);
      CompletesAfter(s, e, es, order);
      es := [e] + es;
    }
  }

  /** Whatever order the loop takes the subscribers in, it can come to its end exactly when no pending
      subscriber has both a stopped writer and a full outbox. */
  lemma CompletesUnlessBlocked(s: Hub, order: seq<Id>)
    requires Inv(s) && Lists(order, Pending(s.phase))
    ensures (exists es :: CompletesBy(s, es, order)) <==> Serviceable(s)
  {
    if Serviceable(s) {
      var es := CompletingRun(s, order);
      assert CompletesBy(s, es, order);
    } else {
      var id :| id in s.phase.pending && Blocked(s, id);
      forall es ensures !CompletesBy(s, es, order) {
        if LegalFrom(s, es) && AllInternal(es) { BlockedForever(s, es, id); }
      }
    }
  }

  // ---------------------------------------------------------------- a run that blocks

  /** The hub with one subscriber, whose writer has returned and whose outbox holds `n` messages. */
  ghost predicate Filling(s: Hub, msg: Message, id: Id, n: nat) {
    && s.clients == map[id := 0] && s.channels == map[msg.channel := {id}] && s.phase.Idle?
    && |s.objects| == 1 && s.objects[0].id == id
    && s.objects[0].writer.Stopped? && |s.objects[0].outbox| == n
  }

  /** A connection registers and subscribes, and then its writer fails. */
  lemma FailedSubscriber(msg: Message, id: Id) returns (es: seq<Step>)
    ensures Legal(es) && Filling(After(es), msg, id, 0)
  {
    es := [];
    OneMore(es, Register(0, id));
    es := es + [Register(0, id)];
    assert After(es).channels == map[] && After(es).clients == map[id := 0];
    OneMore(es, Subscribe(id, msg.channel));
    es := es + [Subscribe(id, msg.channel)];
    assert {} + {id} == {id};
    assert After(es).channels == map[msg.channel := {id}];
    OneMore(es, Fail(0));
    es := es + [Fail(0)];
  }

  lemma FillOne(s: Hub, msg: Message, id: Id, n: nat)
    requires Inv(s) && Filling(s, msg, id, n) && n < OUTBOX_CAPACITY
    ensures var t := StartSend(s, msg);
      && t.phase == Sending(msg, {id}) && Inv(t) && Enabled(t, Deliver(id))
      && Filling(Apply(t, Deliver(id)), msg, id, n + 1)
  {
    SendKeepsInv(s, msg);
    assert {id} - {id} == {};
  }

  /** Messages pile up in the outbox of a connection whose writer has failed. */
  lemma {:induction false} OutboxFills(msg: Message, id: Id, n: nat) returns (es: seq<Step>)
    requires n <= OUTBOX_CAPACITY
    ensures Legal(es) && Filling(After(es), msg, id, n)
  {
    if n == 0 {
      es := FailedSubscriber(msg, id);
    } else {
      es := OutboxFills(msg, id, n - 1);
      FillOne(After(es), msg, id, n - 1);
      OneMore(es, Send(msg));
      OneMore(es + [Send(msg)], Deliver(id));
      es := es + [Send(msg)] + [Deliver(id)];
    }
  }

  /** One connection that fails and stays registered blocks the hub: after 256 messages to it, the next
      one is never delivered, and the hub accepts nothing more. */
  lemma HubCanBlock(msg: Message, id: Id) returns (es: seq<Step>)
    ensures Legal(es) && After(es).phase == Sending(msg, {id}) && Blocked(After(es), id)
    ensures forall fs | LegalFrom(After(es), fs) && AllInternal(fs) :: Follow(After(es), fs).phase.Sending?
  {
    es := OutboxFills(msg, id, OUTBOX_CAPACITY);
    OneMore(es, Send(msg));
    es := es + [Send(msg)];
    forall fs | LegalFrom(After(es), fs) && AllInternal(fs)
      ensures Follow(After(es), fs).phase.Sending?
    {
      BlockedForever(After(es), fs, id);
    }
  }
}
