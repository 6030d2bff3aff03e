/**
 The hub and its clients as the objects the program keeps: maps updated in place, one Client object
 per connection.  Each method is proved against the step of the same name in HubModel.
 */
module Hub {
  import opened Basics
  import M = HubModel
  import opened HubModel

  /** What is left of the channel index once `id` has been taken out of the channels in `done`. */
  ghost function Dropped(chs: map<Channel, set<Id>>, id: Id, done: set<Channel>): map<Channel, set<Id>> {
    map ch | ch in chs && (ch in done ==> chs[ch] - {id} != {}) :: if ch in done then chs[ch] - {id} else chs[ch]
  }

  /** Taking a client out of the channels it lists takes it out of every channel. */
  lemma DroppingOwnChannelsSuffices(s: M.Hub, id: Id)
    requires Inv(s) && id in s.clients
    ensures Dropped(s.channels, id, s.objects[s.clients[id]].channels) == DropId(s.channels, id)
  {
    var own := s.objects[s.clients[id]].channels;
    var l, r := Dropped(s.channels, id, own), DropId(s.channels, id);
    forall ch | ch in s.channels
      ensures ch in l <==> ch in r
      ensures ch in l ==> l[ch] == r[ch]
    {
      assert Listed(s, id, ch) <==> ch in own;
      assert ch !in own ==> s.channels[ch] - {id} == s.channels[ch];
    }
    assert l.Keys <= s.channels.Keys && r.Keys <= s.channels.Keys;
  }

  class Client {
    const clientID: Id
    ghost const handle: Handle

    var channels: set<Channel>
    var send: seq<Message>           // the buffered channel of outbound messages
    var batch: seq<Message>          // the writer's local slice
    var written: seq<seq<Message>>   // the frames put on the connection
    var writer: Writer

    ghost function Value(): M.Client
      reads this
    {
      M.Client(clientID, channels, send, batch, written, writer)
    }

    /** A fresh client, as made for a new connection. */
    constructor (clientID: Id, ghost handle: Handle)
      ensures Value() == M.NewClient(clientID)
      ensures this.handle == handle && this.clientID == clientID
    {
      this.clientID := clientID;
      this.handle := handle;
      channels, send, batch, written, writer := {}, [], [], [], Waiting;
    }

    method TakeFirst()
      requires send != []
      modifies `batch, `send, `writer
      ensures Value() == M.TakeFirst(old(Value()))
    {
      batch, send, writer := [send[0]], send[1..], Took;
    }

    method CountQueued()
      modifies `writer
      ensures Value() == M.CountQueued(old(Value()))
    {
      writer := Gathering(|send|);
    }

    method TakeNext()
      requires send != [] && writer.Gathering? && writer.left > 0
      modifies `batch, `send, `writer
      ensures Value() == M.TakeNext(old(Value()))
    {
      batch, send, writer := batch + [send[0]], send[1..], Gathering(writer.left - 1);
    }

    method WriteFrame()
      modifies `batch, `written, `writer
      ensures Value() == M.WriteFrame(old(Value()))
    {
      written, batch, writer := written + [batch], [], Waiting;
    }

    /** One turn of the write pump when nothing is enqueued meanwhile: the whole outbox goes out as one
        frame, in order. */
    method WriteQueued()
      requires send != [] && writer.Waiting?
      modifies `batch, `send, `written, `writer
      ensures written == old(written) + [old(send)] && send == [] && batch == [] && writer.Waiting?
    {
      TakeFirst();
      CountQueued();
      while writer.left > 0
        invariant writer.Gathering? && writer.left == |send|
        invariant batch + send == old(send)
        invariant written == old(written)
        decreases |send|
      {
        TakeNext();
      }
      assert batch == old(send);
      WriteFrame();
    }
  }

  class WebSocketHub {
    var channels: map<Channel, set<Id>>
    var clients: map<Id, Client>
    var phase: Phase                  // where the hub loop stands
    ghost var all: seq<Client>        // every Client object ever registered, in order

    /** Every registered client is one of the objects made, and is found there by its handle. */
    ghost predicate Valid()
      reads this, all
    {
      && (forall i | 0 <= i < |all| :: all[i].handle == i)
      && (forall id | id in clients :: clients[id].handle < |all| && all[clients[id].handle] == clients[id])
    }

    ghost function Objects(): (cs: seq<M.Client>)
      reads this, all
    {
      seq(|all|, i requires 0 <= i < |all| reads this, all => all[i].Value())
    }

    ghost function State(): M.Hub
      reads this, all
    {
      M.Hub(channels, map id | id in clients :: clients[id].handle, Objects(), phase)
    }

    /** When one Client object changes, one entry of the abstract state does. */
    twostate lemma OneObjectChanged(c: Client)
      requires all == old(all) && c.handle < |all| && all[c.handle] == c
      requires forall i | 0 <= i < |all| :: all[i].handle == i
      requires forall o | o in all && o != c :: o.Value() == old(o.Value())
      ensures Objects() == old(Objects())[c.handle := c.Value()]
    {
      forall i | 0 <= i < |all|
        ensures Objects()[i] == old(Objects())[c.handle := c.Value()][i]
      {
        assert i != c.handle ==> all[i] != c;
      }
    }

    constructor ()
      ensures Valid() && State() == INITIAL && all == []
    {
      channels, clients, phase, all := map[], map[], Idle, [];
    }

    method UnsubscribeChannel(clientID: Id, channel: Channel)
      modifies `channels, (if clientID in clients then {clients[clientID]} else {})`channels
      ensures channels == if channel !in old(channels) then old(channels)
                          else if old(channels)[channel] - {clientID} == {} then old(channels) - {channel}
                          else old(channels)[channel := old(channels)[channel] - {clientID}]
      ensures clientID in clients ==> clients[clientID].channels == old(clients[clientID].channels) - {channel}
    {
      if channel in channels {
        var clientIDs := channels[channel] - {clientID};
        if clientIDs == {} {
          channels := channels - {channel};
        } else {
          channels := channels[channel := clientIDs];
        }
      }
      if clientID in clients {
        clients[clientID].channels := clients[clientID].channels - {channel};
      }
    }

    /** Ranges over the client's channel set while deleting from it: each entry still present and not yet
        visited is visited once, in any order. */
    method UnsubscribeAll(clientID: Id)
      requires clientID in clients
      modifies `channels, {clients[clientID]}`channels
      ensures channels == Dropped(old(channels), clientID, old(clients[clientID].channels))
      ensures clients[clientID].channels == {}
    {
      var client := clients[clientID];
      ghost var subscribed := client.channels;
      var visited: set<Channel> := {};
      while client.channels - visited != {}
        invariant client.channels == subscribed - visited && visited <= subscribed
        invariant channels == Dropped(old(channels), clientID, visited)
        decreases subscribed - visited
      {
        var channel :| channel in client.channels - visited;
        visited := visited + {channel};
        UnsubscribeChannel(clientID, channel);
        assert channels == Dropped(old(channels), clientID, visited);
      }
      assert visited == subscribed;
    }

    method RemoveClient(clientID: Id)
      requires Valid() && clientID in clients
      modifies `channels, `clients, {clients[clientID]}`channels
      ensures Valid()
      ensures var s := old(State());
        var h := s.clients[clientID];
        State() == s.(
            channels := Dropped(s.channels, clientID, s.objects[h].channels),
            clients := s.clients - {clientID},
            objects := s.objects[h := s.objects[h].(channels := {})])
    {
      var client := clients[clientID];
      assert Objects()[client.handle] == client.Value();
      UnsubscribeAll(clientID);
      OneObjectChanged(client);
      clients := clients - {clientID};
      assert State().clients == old(State()).clients - {clientID};
    }

    method UnregisterClient(clientID: Id)
      requires Valid() && Inv(State()) && phase.Idle?
      modifies `channels, `clients, (if clientID in clients then {clients[clientID]} else {})`channels
      ensures Valid() && State() == M.UnregisterClient(old(State()), clientID)
    {
      if clientID in clients {
        DroppingOwnChannelsSuffices(State(), clientID);
        RemoveClient(clientID);
      }
    }

    /** Appending an object to the list of all objects appends its value. */
    twostate lemma OneObjectAdded(c: Client)
      requires all == old(all) + [c]
      requires forall o | o in old(all) :: o.Value() == old(o.Value())
      ensures Objects() == old(Objects()) + [c.Value()]
    {
    }

    /** Registers a new connection, tearing down an older one of the same id first. */
    method Register(client: Client)
      requires Valid() && Inv(State()) && phase.Idle?
      requires client.handle == |all| && client.Value() == M.NewClient(client.clientID)
      modifies `channels, `clients, `all, (if client.clientID in clients then {clients[client.clientID]} else {})`channels
      ensures Valid() && all == old(all) + [client]
      ensures State() == M.RegisterClient(old(State()), client.clientID)
    {
      if client.clientID in clients {
        UnregisterClient(client.clientID);
      }
      AddClient(client);
    }

    method AddClient(client: Client)
      requires Valid()
      requires client.handle == |all| && client.Value() == M.NewClient(client.clientID)
      modifies `clients, `all
      ensures Valid() && all == old(all) + [client]
      ensures State() == M.AddClient(old(State()), client.clientID)
    {
      clients := clients[client.clientID := client];
      all := all + [client];
      OneObjectAdded(client);
      assert State().clients == old(State()).clients[client.clientID := client.handle];
    }

    method SubscribeChannel(clientID: Id, channel: Channel)
      requires Valid() && Inv(State()) && phase.Idle?
      modifies `channels, (if clientID in clients then {clients[clientID]} else {})`channels
      ensures Valid() && State() == M.SubscribeChannel(old(State()), clientID, channel)
    {
      if clientID !in clients {
        return;
      }
      var client := clients[clientID];
      ghost var s := State();
      client.channels := client.channels + {channel};
      if channel !in channels {
        channels := channels[channel := {clientID}];
      } else {
        channels := channels[channel := channels[channel] + {clientID}];
      }
      assert s.objects[client.handle] == old(client.Value());
      OneObjectChanged(client);
      assert channels[channel] == Subscribers(s, channel) + {clientID};
      assert State() == M.SubscribeChannel(s, clientID, channel);
    }

    method StartSend(msg: Message)
      requires Valid() && Inv(State()) && phase.Idle?
      modifies `phase
      ensures Valid() && State() == M.StartSend(old(State()), msg)
    {
      ghost var s := State();
      if msg.channel in channels && channels[msg.channel] != {} {
        phase := Sending(msg, channels[msg.channel]);
      }
      assert Objects() == s.objects;
    }

    /** One iteration of the fan-out.  A full outbox makes the hub loop wait; nothing changes then. */
    method Deliver(clientID: Id) returns (served: bool)
      requires Valid() && Inv(State()) && phase.Sending? && clientID in phase.pending
      modifies `phase, (if clientID in clients then {clients[clientID]} else {})`send
      ensures Valid() && clientID in clients
      ensures served <==> Enabled(old(State()), M.Deliver(clientID))
      ensures !served ==> phase == old(phase) && |clients[clientID].send| == OUTBOX_CAPACITY
      ensures State() == if served then M.DeliverTo(old(State()), clientID) else old(State())
    {
      ghost var s := State();
      assert clientID in Subscribers(s, phase.msg.channel);
      var client := clients[clientID];
      assert s.objects[client.handle] == client.Value() && WriterOk(client.Value());
      if |client.send| >= OUTBOX_CAPACITY {
        served := false;
        return;
      }
      client.send := client.send + [phase.msg];
      phase := Rest(phase.msg, phase.pending - {clientID});
      served := true;
      OneObjectChanged(client);
    }

    /** One turn of the fan-out loop, serving any subscriber still pending. */
    method ServeNext(ghost s: M.Hub, ghost msg: Message) returns (waitingFor: Option<Id>)
      requires Valid() && Inv(s) && phase.Sending? && M.Serving(s, msg, State())
      modifies `phase, (set id | id in clients :: clients[id])`send
      ensures Valid() && M.Serving(s, msg, State())
      ensures waitingFor.None? ==> M.Pending(phase) < old(M.Pending(phase))
      ensures waitingFor.Some? ==>
        var id := waitingFor.value;
        phase.Sending? && id in phase.pending && id in clients && |clients[id].send| == OUTBOX_CAPACITY
    {
      var id :| id in phase.pending;
      ghost var t := State();
      var served := Deliver(id);
      if served {
        M.ServingContinues(s, msg, t, id);
        waitingFor := None;
      } else {
        waitingFor := Some(id);
      }
    }

    /** The whole fan-out of a message, taking the subscribers in any order, up to the end or up to the
        first one whose outbox is full. */
    method Fanout(msg: Message) returns (waitingFor: Option<Id>)
      requires Valid() && Inv(State()) && phase.Idle?
      modifies `phase, (set id | id in clients :: clients[id])`send
      ensures Valid() && M.Serving(old(State()), msg, State())
      ensures waitingFor.None? <==> phase.Idle?
      ensures waitingFor.Some? ==>
        var id := waitingFor.value;
        phase.Sending? && id in phase.pending && id in clients && |clients[id].send| == OUTBOX_CAPACITY
    {
      ghost var s := State();
      M.ServingStarts(s, msg);
      StartSend(msg);
      while phase.Sending?
        invariant Valid() && M.Serving(s, msg, State())
        decreases M.Pending(phase)
      {
        waitingFor := ServeNext(s, msg);
        if waitingFor.Some? {
          return;
        }
      }
      waitingFor := None;
    }
  }
}
