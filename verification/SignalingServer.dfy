/** The server object. Each handler performs one step of `Signaling.Step` in place;
    `Valid` ties the object to the run of events it has handled, so that every
    theorem about runs is a theorem about the object. */
module SignalingServers {
  import opened OrderedKeys
  import opened Registry
  import opened Signaling
  import opened Heartbeats

  class SignalingServer {
    const registry: ClientRegistry
    const pingTimeout: int
    var idToHdl: map<int, Hdl>
    var hdlToId: map<Hdl, int>
    var lastPong: map<Hdl, int>

    // Everything handled and everything sent so far.
    ghost var history: seq<Event>
    ghost var log: seq<Sent>

    ghost function State(): Server
      reads this, registry
    {
      Server(registry.View(), idToHdl, hdlToId, lastPong)
    }

    ghost predicate Valid()
      reads this, registry
    {
      State() == Run(history) && log == Log(history)
    }

    constructor (pingTimeout: int)
      ensures Valid() && history == [] && fresh(registry) && this.pingTimeout == pingTimeout
    {
      this.registry := new ClientRegistry();
      this.pingTimeout := pingTimeout;
      idToHdl, hdlToId, lastPong := map[], map[], map[];
      history, log := [], [];
    }

    // The handlers below are called by the transport, one at a time.

    method OnOpen(hdl: Hdl, now: int)
      requires Valid()
      modifies this
      ensures Valid() && history == old(history) + [Opened(hdl, now)]
    {
      lastPong := lastPong[hdl := now];
      Record(Opened(hdl, now));
    }

    method OnPong(hdl: Hdl, now: int)
      requires Valid()
      modifies this
      ensures Valid() && history == old(history) + [Ponged(hdl, now)]
    {
      lastPong := lastPong[hdl := now];
      Record(Ponged(hdl, now));
    }

    // OnClose and OnFail both come here.
    method DropConnection(hdl: Hdl)
      requires Valid()
      modifies this, registry
      ensures Valid() && history == old(history) + [Closed(hdl)]
    {
      lastPong := lastPong - {hdl};
      if hdl in hdlToId {
        HandleDrop(hdl);
      }
      Record(Closed(hdl));
    }

    method OnMessage(hdl: Hdl, req: Request, now: int)
      requires Valid()
      modifies this, registry
      ensures Valid() && history == old(history) + [Received(hdl, req, now)]
    {
      if req.RegisterAs? {
        if hdl !in hdlToId && req.name != "" {
          HandleRegister(hdl, req.name, now);
        }
      } else if hdl in hdlToId {
        HandleRequest(hdl, hdlToId[hdl], req);
      }
      Record(Received(hdl, req, now));
    }

    // Pings every connection and returns those to close, as the transport is told.
    method OnHeartbeat(now: int) returns (pinged: seq<Hdl>, toDrop: seq<Hdl>)
      requires Valid()
      modifies this
      ensures Valid() && history == old(history) + [Heartbeat(now)]
      ensures pinged == SortedKeys(lastPong.Keys)
      ensures StrictlySorted(toDrop)
      ensures forall h :: h in toDrop <==> h in Overdue(lastPong, now, pingTimeout)
    {
      hide Step, Run, Log, SortedKeys;
      pinged, toDrop := [], [];
      var hdls := SortedKeys(lastPong.Keys);
      for i := 0 to |hdls|
        invariant pinged == hdls[..i]
        invariant StrictlySorted(toDrop) && forall h :: h in toDrop ==> h in hdls[..i]
        invariant forall h :: h in toDrop <==> h in hdls[..i] && now - lastPong[h] > pingTimeout
      {
        pinged := pinged + [hdls[i]];
        if now - lastPong[hdls[i]] > pingTimeout {
          forall a | 0 <= a < |toDrop| ensures toDrop[a] < hdls[i] {
            assert toDrop[a] in toDrop && toDrop[a] in hdls[..i];
          }
          toDrop := toDrop + [hdls[i]];
        }
      }
      RecordIdle(Heartbeat(now));
    }

    // ---------- Parts of the handlers ----------

    method HandleDrop(hdl: Hdl)
      requires hdl in hdlToId && hdl !in lastPong
      modifies this`idToHdl, this`hdlToId, this`log, registry
      ensures State() == OnDrop(old(State()), hdl).0
      ensures log == old(log) + OnDrop(old(State()), hdl).1
    {
      hide Broadcast, Removed, PeerOf;
      assert lastPong == lastPong - {hdl};
      var id := hdlToId[hdl];
      hdlToId := hdlToId - {hdl};
      idToHdl := idToHdl - {id};
      var peer := registry.Remove(id);
      assert State() == OnDrop(old(State()), hdl).0;
      if peer != 0 {
        SendTo(peer, PeerGone(id));
      }
      BroadcastRoster();
    }

    method HandleRegister(hdl: Hdl, name: string, now: int)
      requires hdl !in hdlToId && name != ""
      modifies this`idToHdl, this`hdlToId, this`lastPong, this`log, registry
      ensures State() == OnRegister(old(State()), hdl, name, now).0
      ensures log == old(log) + OnRegister(old(State()), hdl, name, now).1
    {
      var id := registry.Register(name);
      if id < 0 {
        SendToHdl(hdl, Error(NameTaken));
        return;
      }
      idToHdl := idToHdl[id := hdl];
      hdlToId := hdlToId[hdl := id];
      lastPong := lastPong[hdl := now];
      SendToHdl(hdl, Welcome(id));
      BroadcastRoster();
    }

    method HandleCall(hdl: Hdl, self: int, to: int, body: string)
      modifies this`log, registry
      ensures State() == OnCall(old(State()), hdl, self, to, body).0
      ensures log == old(log) + OnCall(old(State()), hdl, self, to, body).1
    {
      var r := registry.Call(self, to);
      assert State() == old(State()).(reg := Called(old(State()).reg, self, to));
      if r == Ok {
        SendTo(to, Forwarded(CallRelay, self, to, body));
        BroadcastRoster();
      } else if r == TargetBusy {
        SendToHdl(hdl, Error(TargetIsBusy));
      } else if r == TargetOffline {
        SendToHdl(hdl, Error(Offline));
      }
    }

    method HandleRequest(hdl: Hdl, self: int, req: Request)
      requires !req.RegisterAs?
      modifies this`log, registry
      ensures State() == OnRequest(old(State()), hdl, self, req).0
      ensures log == old(log) + OnRequest(old(State()), hdl, self, req).1
    {
      hide OnCall, OnLeave, RosterOf, Paired;
      match req {
        case Relay(CallRelay, to, body) => HandleCall(hdl, self, to, body);
        case Relay(kind, to, body) =>
          var paired := registry.IsPaired(self, to);
          if paired {
            SendTo(to, Forwarded(kind, self, to, body));
          }
        case Text(to, text) =>
          var present := registry.Has(to);
          if present {
            SendTo(to, TextFrom(self, text));
          } else {
            SendToHdl(hdl, Error(Offline));
          }
        case Leave => HandleLeave(hdl, self);
        case GetRoster =>
          var roster := registry.Roster();
          SendToHdl(hdl, Roster(roster));
        case _ =>
      }
    }

    method HandleLeave(hdl: Hdl, self: int)
      modifies this`log, registry
      ensures State() == OnLeave(old(State()), hdl, self).0
      ensures log == old(log) + OnLeave(old(State()), hdl, self).1
    {
      hide Broadcast, HungUp;
      var peer := registry.GetPeer(self);
      if peer != 0 {
        SendToHdl(hdl, LeaveFrom(self));
        SendTo(peer, LeaveFrom(self));
        registry.Hangup(self, peer);
        BroadcastRoster();
      }
    }

    // ---------- Sending ----------

    method SendToHdl(hdl: Hdl, m: Msg)
      modifies this`log
      ensures log == old(log) + [Sent(hdl, m)]
    {
      log := log + [Sent(hdl, m)];
    }

    method SendTo(id: int, m: Msg)
      modifies this`log
      ensures log == old(log) + Signaling.SendTo(State(), id, m)
    {
      if id in idToHdl {
        SendToHdl(idToHdl[id], m);
      }
    }

    method BroadcastRoster()
      modifies this`log
      ensures log == old(log) + Broadcast(State())
    {
      hide RosterOf, SortedKeys, IsRoster;
      var roster := registry.Roster();
      var ids := SortedKeys(idToHdl.Keys);
      ghost var s, all := State(), Broadcast(State());
      for i := 0 to |ids|
        invariant State() == s && log == old(log) + all[..i]
      {
        SendToHdl(idToHdl[ids[i]], Roster(roster));
        assert all[..i + 1] == all[..i] + [Sent(idToHdl[ids[i]], Roster(roster))];
      }
      assert all[..|ids|] == all;
    }

    ghost method RecordIdle(e: Event)
      requires Valid() && e.Heartbeat?
      modifies this`history, this`log
      ensures Valid() && history == old(history) + [e] && log == old(log)
    {
      Record(e);
    }

    // The bookkeeping that ties the object to its run.
    ghost method Record(e: Event)
      requires State() == Step(Run(history), e).0
      requires log == Log(history) + Step(Run(history), e).1
      modifies this`history
      ensures Valid() && history == old(history) + [e]
    {
      history := history + [e];
      assert history[..|history| - 1] == old(history);
    }
  }
}
