/** What one handler of the signaling server does to its connection maps, its
    registry and the wire. Every handler runs to completion on one thread, so one
    event is one step. A parsed message is a `Request`; a send that the transport
    would report as failed is taken to succeed. */
module Signaling {
  import opened OrderedKeys
  import opened Registry

  type Hdl = int

  datatype RelayKind = CallRelay | AnswerRelay | CandidateRelay

  // `body` stands for every field of the message except type, to and from.
  // A missing or wrongly typed `to` reads as 0 and a missing string as "".
  datatype Request =
    | Malformed
    | RegisterAs(name: string)
    | Relay(kind: RelayKind, to: int, body: string)
    | Text(to: int, text: string)
    | Leave
    | GetRoster
    | UnknownType

  datatype ErrorCode = NameTaken | TargetIsBusy | Offline

  datatype Msg =
    | Welcome(id: int)
    | Error(code: ErrorCode)
    | Roster(peers: seq<PeerInfo>)
    | Forwarded(kind: RelayKind, from: int, to: int, body: string)
    | TextFrom(from: int, text: string)
    | LeaveFrom(from: int)
    | PeerGone(from: int)

  datatype Sent = Sent(hdl: Hdl, msg: Msg)

  datatype Event =
    | Opened(hdl: Hdl, now: int)
    | Closed(hdl: Hdl)
    | Ponged(hdl: Hdl, now: int)
    | Received(hdl: Hdl, req: Request, now: int)
    | Heartbeat(now: int)

  datatype Server = Server(reg: Reg, idToHdl: map<int, Hdl>, hdlToId: map<Hdl, int>, lastPong: map<Hdl, int>)

  const INITIAL := Server(EMPTY, map[], map[], map[])

  // ---------- Sending ----------

  function SendTo(s: Server, id: int, m: Msg): seq<Sent> {
    if id in s.idToHdl then [Sent(s.idToHdl[id], m)] else []
  }

  function Broadcast(s: Server): seq<Sent> {
    var ids := SortedKeys(s.idToHdl.Keys);
    seq(|ids|, i requires 0 <= i < |ids| => Sent(s.idToHdl[ids[i]], Roster(RosterOf(s.reg.members))))
  }

  // ---------- Handlers ----------

  function OnRegister(s: Server, h: Hdl, name: string, now: int): (Server, seq<Sent>) {
    if h in s.hdlToId || name == "" then (s, [])
    else
      var (reg, id) := Registered(s.reg, name);
      if id < 0 then (s.(reg := reg), [Sent(h, Error(NameTaken))])
      else
        var s' := Server(reg, s.idToHdl[id := h], s.hdlToId[h := id], s.lastPong[h := now]);
        (s', [Sent(h, Welcome(id))] + Broadcast(s'))
  }

  function OnCall(s: Server, h: Hdl, self: int, to: int, body: string): (Server, seq<Sent>) {
    match CallOutcome(s.reg, self, to)
    case Ok =>
      var s' := s.(reg := Called(s.reg, self, to));
      (s', SendTo(s', to, Forwarded(CallRelay, self, to, body)) + Broadcast(s'))
    case TargetBusy => (s, [Sent(h, Error(TargetIsBusy))])
    case TargetOffline => (s, [Sent(h, Error(Offline))])
    case CallerBusy => (s, [])
  }

  function OnLeave(s: Server, h: Hdl, self: int): (Server, seq<Sent>) {
    var peer := PeerOf(s.reg, self);
    if peer == 0 then (s, [])
    else
      var s' := s.(reg := HungUp(s.reg, self, peer));
      (s', [Sent(h, LeaveFrom(self))] + SendTo(s, peer, LeaveFrom(self)) + Broadcast(s'))
  }

  // A request on a connection registered as `self`.
  function OnRequest(s: Server, h: Hdl, self: int, req: Request): (Server, seq<Sent>) {
    match req
    case Relay(CallRelay, to, body) => OnCall(s, h, self, to, body)
    case Relay(kind, to, body) =>
      (s, if Paired(s.reg, self, to) then SendTo(s, to, Forwarded(kind, self, to, body)) else [])
    case Text(to, text) =>
      (s, if to in s.reg.members then SendTo(s, to, TextFrom(self, text)) else [Sent(h, Error(Offline))])
    case Leave => OnLeave(s, h, self)
    case GetRoster => (s, [Sent(h, Roster(RosterOf(s.reg.members)))])
    case _ => (s, [])
  }

  function OnMessage(s: Server, h: Hdl, req: Request, now: int): (Server, seq<Sent>) {
    if req.RegisterAs? then OnRegister(s, h, req.name, now)
    else if h !in s.hdlToId then (s, [])
    else OnRequest(s, h, s.hdlToId[h], req)
  }

  function OnDrop(s: Server, h: Hdl): (Server, seq<Sent>) {
    var pongs := s.lastPong - {h};
    if h !in s.hdlToId then (s.(lastPong := pongs), [])
    else
      var id := s.hdlToId[h];
      var s' := Server(Removed(s.reg, id), s.idToHdl - {id}, s.hdlToId - {h}, pongs);
      var peer := PeerOf(s.reg, id);
      (s', (if peer != 0 then SendTo(s', peer, PeerGone(id)) else []) + Broadcast(s'))
  }

  function Step(s: Server, e: Event): (Server, seq<Sent>) {
    match e
    case Opened(h, now) => (s.(lastPong := s.lastPong[h := now]), [])
    case Ponged(h, now) => (s.(lastPong := s.lastPong[h := now]), [])
    case Closed(h) => OnDrop(s, h)
    case Received(h, req, now) => OnMessage(s, h, req, now)
    case Heartbeat(_) => (s, [])
  }

  // ---------- Runs ----------

  function Run(es: seq<Event>): Server {
    if es == [] then INITIAL else Step(Run(es[..|es| - 1]), es[|es| - 1]).0
  }

  // Everything sent while handling event i.
  function Outs(es: seq<Event>, i: nat): seq<Sent>
    requires i < |es|
  {
    Step(Run(es[..i]), es[i]).1
  }

  function Log(es: seq<Event>): seq<Sent> {
    if es == [] then [] else Log(es[..|es| - 1]) + Outs(es, |es| - 1)
  }

  lemma RunStep(es: seq<Event>, i: nat)
    requires i < |es|
    ensures Run(es[..i + 1]) == Step(Run(es[..i]), es[i]).0
  {
    assert es[..i + 1][..i] == es[..i];
  }

  // ---------- Invariant of every reachable state ----------

  // The two connection maps are mutually inverse, their ids are `ids`, and every
  // registered connection is watched by the heartbeat.
  ghost predicate ConnInv(idToHdl: map<int, Hdl>, hdlToId: map<Hdl, int>, watched: set<Hdl>, ids: set<int>) {
    && idToHdl.Keys == ids
    && (forall id :: id in idToHdl ==> idToHdl[id] in hdlToId && hdlToId[idToHdl[id]] == id)
    && (forall h :: h in hdlToId ==> hdlToId[h] in idToHdl && idToHdl[hdlToId[h]] == h)
    && hdlToId.Keys <= watched
  }

  ghost predicate Inv(s: Server) {
    RegInv(s.reg) && ConnInv(s.idToHdl, s.hdlToId, s.lastPong.Keys, s.reg.members.Keys)
  }

  lemma NextIdIsFree(r: Reg)
    requires RegInv(r)
    ensures 1 <= r.nextId && r.nextId !in r.members
  {
  }

  lemma EnrolledMaps(s: Server, h: Hdl, id: int, now: int, reg: Reg)
    requires ConnInv(s.idToHdl, s.hdlToId, s.lastPong.Keys, s.reg.members.Keys)
    requires id !in s.reg.members && h !in s.hdlToId && reg.members.Keys == s.reg.members.Keys + {id}
    ensures ConnInv(s.idToHdl[id := h], s.hdlToId[h := id], s.lastPong[h := now].Keys, reg.members.Keys)
  {
  }

  lemma OnRegisterKeeps(s: Server, h: Hdl, name: string, now: int)
    requires Inv(s)
    ensures Inv(OnRegister(s, h, name, now).0)
  {
    NextIdIsFree(s.reg);
    RegisterKeeps(s.reg, name);
    hide RegInv, ConnInv, RosterOf, Broadcast;
    if name !in s.reg.names && h !in s.hdlToId && name != "" {
      EnrolledMaps(s, h, s.reg.nextId, now, Registered(s.reg, name).0);
    }
  }

  lemma OnCallKeeps(s: Server, h: Hdl, self: int, to: int, body: string)
    requires Inv(s)
    ensures Inv(OnCall(s, h, self, to, body).0)
  {
    hide RegInv, ConnInv, RosterOf, Broadcast;
    CallKeeps(s.reg, self, to);
    assert Called(s.reg, self, to).members.Keys == s.reg.members.Keys;
  }

  lemma OnLeaveKeeps(s: Server, h: Hdl, self: int)
    requires Inv(s)
    ensures Inv(OnLeave(s, h, self).0)
  {
    hide RegInv, RosterOf, Broadcast;
    if PeerOf(s.reg, self) != 0 {
      HangupKeeps(s.reg, self);
    }
  }

  lemma OnDropKeeps(s: Server, h: Hdl)
    requires Inv(s)
    ensures Inv(OnDrop(s, h).0)
  {
    hide RegInv, RosterOf, Broadcast;
    if h in s.hdlToId {
      RemoveKeeps(s.reg, s.hdlToId[h]);
    }
  }

  lemma WatchKeeps(s: Server, h: Hdl, now: int)
    requires Inv(s)
    ensures Inv(s.(lastPong := s.lastPong[h := now]))
  {
  }

  lemma StepKeeps(s: Server, e: Event)
    requires Inv(s)
    ensures Inv(Step(s, e).0)
  {
    hide Inv, OnRegister, OnCall, OnLeave, OnDrop;
    if e.Opened? || e.Ponged? {
      WatchKeeps(s, e.hdl, e.now);
    } else if e.Closed? {
      OnDropKeeps(s, e.hdl);
    } else if e.Received? && e.req.RegisterAs? {
      OnRegisterKeeps(s, e.hdl, e.req.name, e.now);
    } else if e.Received? && e.hdl in s.hdlToId {
      var self := s.hdlToId[e.hdl];
      if e.req.Relay? {
        OnCallKeeps(s, e.hdl, self, e.req.to, e.req.body);
      } else if e.req.Leave? {
        OnLeaveKeeps(s, e.hdl, self);
      }
    }
  }

  // After every handler of every run: the two connection maps are mutually
  // inverse, their ids are the registry's members, every registered connection is
  // watched by the heartbeat, names are unique, and the calls form a matching.
  lemma {:induction false} RunInv(es: seq<Event>)
    ensures Inv(Run(es))
  {
    if es != [] {
      RunInv(es[..|es| - 1]);
      StepKeeps(Run(es[..|es| - 1]), es[|es| - 1]);
    }
  }
}
