/** Who is online, under which name and in a call or not, read off the run alone; and, in
    these terms, what the rosters say and how every request is answered. */
module Membership {
  import opened Basics
  import opened OrderedKeys
  import opened Registry
  import opened Signaling
  import opened CallSessions
  import opened SignalingLog

  // ---------- Online, read off the run ----------

  // Handling e in state s welcomes h with this id, under the name it asked for.
  ghost predicate Welcomes(s: Server, e: Event, h: Hdl, id: int, name: string) {
    e.Received? && e.hdl == h && e.req == RegisterAs(name) && Sent(h, Welcome(id)) in Step(s, e).1
  }

  ghost predicate WelcomedAt(es: seq<Event>, k: nat, h: Hdl, id: int, name: string)
    requires k < |es|
  {
    Welcomes(Run(es[..k]), es[k], h, id, name)
  }

  // h was welcomed and has not closed since.
  ghost predicate Online(es: seq<Event>, h: Hdl, id: int, name: string) {
    exists k :: 0 <= k < |es| && WelcomedAt(es, k, h, id, name) && forall j :: k < j < |es| ==> es[j] != Closed(h)
  }

  lemma OnlineStep(es: seq<Event>, h: Hdl, id: int, name: string)
    requires es != []
    ensures var n := |es| - 1;
            Online(es, h, id, name) <==>
            WelcomedAt(es, n, h, id, name) || (Online(es[..n], h, id, name) && es[n] != Closed(h))
  {
    hide Welcomes, Run;
    var n := |es| - 1;
    var pre := es[..n];
    forall k | 0 <= k < n ensures pre[..k] == es[..k] {}
    assert forall k :: 0 <= k < n ==> WelcomedAt(pre, k, h, id, name) == WelcomedAt(es, k, h, id, name);
    if Online(es, h, id, name) {
      var k :| 0 <= k < |es| && WelcomedAt(es, k, h, id, name) && forall j :: k < j < |es| ==> es[j] != Closed(h);
      if k < n { assert WelcomedAt(pre, k, h, id, name); }
    }
    if Online(pre, h, id, name) && es[n] != Closed(h) {
      var k :| 0 <= k < |pre| && WelcomedAt(pre, k, h, id, name) && forall j :: k < j < |pre| ==> pre[j] != Closed(h);
      assert WelcomedAt(es, k, h, id, name);
    }
  }

  // ---------- The server knows exactly those ----------

  ghost predicate Known(s: Server, h: Hdl, id: int, name: string) {
    id in s.idToHdl && s.idToHdl[id] == h && id in s.reg.members && s.reg.members[id].name == name
  }

  lemma RegisterKnows(s: Server, h': Hdl, asked: string, now: int, h: Hdl, id: int, name: string)
    requires Inv(s)
    ensures var e := Received(h', RegisterAs(asked), now);
            Known(Step(s, e).0, h, id, name) <==> Welcomes(s, e, h, id, name) || Known(s, h, id, name)
  {
    hide RosterOf, NamesMatch, Matching;
    NextIdIsFree(s.reg);
  }

  // No other message is a welcome.
  lemma WelcomesRegister(s: Server, e: Event, h: Hdl, id: int, name: string)
    ensures Welcomes(s, e, h, id, name) ==> e.Received? && e.req.RegisterAs?
  {
  }

  lemma CallKnows(s: Server, h': Hdl, self: int, to: int, body: string, h: Hdl, id: int, name: string)
    ensures Known(OnCall(s, h', self, to, body).0, h, id, name) <==> Known(s, h, id, name)
  {
    hide Broadcast, RosterOf;
  }

  lemma LeaveKnows(s: Server, h': Hdl, self: int, h: Hdl, id: int, name: string)
    ensures Known(OnLeave(s, h', self).0, h, id, name) <==> Known(s, h, id, name)
  {
    hide Broadcast, RosterOf;
  }

  lemma DropKnows(s: Server, h': Hdl, h: Hdl, id: int, name: string)
    requires Inv(s)
    ensures Known(OnDrop(s, h').0, h, id, name) <==> Known(s, h, id, name) && h != h'
  {
    hide Broadcast, RosterOf, NamesMatch, Matching;
  }

  lemma KnownStep(s: Server, e: Event, h: Hdl, id: int, name: string)
    requires Inv(s)
    ensures Known(Step(s, e).0, h, id, name) <==>
            Welcomes(s, e, h, id, name) || (Known(s, h, id, name) && e != Closed(h))
  {
    hide Inv, Known, Welcomes, OnRegister, OnCall, OnLeave, OnDrop;
    WelcomesRegister(s, e, h, id, name);
    if e.Received? && e.req.RegisterAs? {
      RegisterKnows(s, e.hdl, e.req.name, e.now, h, id, name);
    } else if e.Received? && e.hdl in s.hdlToId {
      SameMembers(s, s, h, id, name);
      if e.req.Relay? && e.req.kind == CallRelay {
        CallKnows(s, e.hdl, s.hdlToId[e.hdl], e.req.to, e.req.body, h, id, name);
      } else if e.req.Leave? {
        LeaveKnows(s, e.hdl, s.hdlToId[e.hdl], h, id, name);
      }
    } else if e.Closed? {
      DropKnows(s, e.hdl, h, id, name);
    } else {
      SameMembers(s, Step(s, e).0, h, id, name);
    }
  }

  lemma SameMembers(s: Server, t: Server, h: Hdl, id: int, name: string)
    requires t.reg == s.reg && t.idToHdl == s.idToHdl
    ensures Known(t, h, id, name) <==> Known(s, h, id, name)
  {
  }

  // After every run, the maps and the registry know a connection under an id and a name
  // if and only if it was welcomed so and has not closed since.
  lemma {:induction false} KnownIffOnline(es: seq<Event>, h: Hdl, id: int, name: string)
    ensures Known(Run(es), h, id, name) <==> Online(es, h, id, name)
  {
    if es != [] {
      hide Known, Step, Inv;
      var n := |es| - 1;
      RunInv(es[..n]);
      KnownIffOnline(es[..n], h, id, name);
      OnlineStep(es, h, id, name);
      KnownStep(Run(es[..n]), es[n], h, id, name);
    }
  }

  // ---------- What the rosters say ----------

  ghost predicate InCall(es: seq<Event>, id: int) { exists b :: InSession(es, id, b) }

  ghost predicate IsOnline(es: seq<Event>, id: int) { exists h, name :: Online(es, h, id, name) }

  ghost predicate OnlineAt(es: seq<Event>, h: Hdl, id: int) { exists name :: Online(es, h, id, name) }

  ghost predicate Connected(es: seq<Event>, h: Hdl) { exists id, name :: Online(es, h, id, name) }

  // This line is true of the run: someone online, under this name, busy in a session.
  ghost predicate TrueLine(es: seq<Event>, p: PeerInfo) {
    (exists h :: Online(es, h, p.id, p.name)) && (p.state == Busy <==> InCall(es, p.id))
  }

  // Strictly ascending by id, all the true lines and no others.
  ghost predicate TrueRoster(es: seq<Event>, peers: seq<PeerInfo>) {
    && (forall i, j :: 0 <= i < j < |peers| ==> peers[i].id < peers[j].id)
    && (forall p :: p in peers <==> TrueLine(es, p))
  }

  // A member is registered on some connection, and busy exactly in a session.
  lemma MemberIsOnline(es: seq<Event>, id: int)
    ensures id in Run(es).reg.members <==> id in Run(es).idToHdl
    ensures id in Run(es).idToHdl ==> Online(es, Run(es).idToHdl[id], id, Run(es).reg.members[id].name)
    ensures IsOnline(es, id) <==> id in Run(es).idToHdl
    ensures id in Run(es).reg.members ==> (Run(es).reg.members[id].state == Busy <==> InCall(es, id))
    ensures InCall(es, id) <==> PeerOf(Run(es).reg, id) != 0
    ensures InCall(es, id) ==> InSession(es, id, PeerOf(Run(es).reg, id))
  {
    RunInv(es);
    var s := Run(es);
    hide Online, InSession, Run;
    forall h, name ensures Known(s, h, id, name) <==> Online(es, h, id, name) {
      KnownIffOnline(es, h, id, name);
    }
    if id in s.idToHdl {
      assert Known(s, s.idToHdl[id], id, s.reg.members[id].name);
    }
    forall b ensures Paired(s.reg, id, b) <==> InSession(es, id, b) {
      PairedIffInSession(es, id, b);
    }
    if PeerOf(s.reg, id) != 0 {
      assert Mated(s.reg.members, id) && Paired(s.reg, id, PeerOf(s.reg, id));
    }
  }

  lemma OnlineConnection(es: seq<Event>, h: Hdl, id: int, name: string)
    requires Online(es, h, id, name)
    ensures id in Run(es).idToHdl && Run(es).idToHdl[id] == h && h in Run(es).hdlToId && Run(es).hdlToId[h] == id
    ensures id in Run(es).reg.members && Run(es).reg.members[id].name == name
  {
    RunInv(es);
    KnownIffOnline(es, h, id, name);
    hide Run, Online;
  }

  lemma RosterIsTrue(es: seq<Event>)
    ensures TrueRoster(es, RosterOf(Run(es).reg.members))
  {
    hide Run, RosterOf, TrueLine;
    var members := Run(es).reg.members;
    RosterIsRoster(members);
    forall p ensures p in RosterOf(members) <==> TrueLine(es, p) {
      LineIsTrueIff(es, p);
      assert p.id in members ==> Info(p.id, members[p.id]) in RosterOf(members);
    }
  }

  lemma LineIsTrueIff(es: seq<Event>, p: PeerInfo)
    ensures TrueLine(es, p) <==> p.id in Run(es).reg.members && p == Info(p.id, Run(es).reg.members[p.id])
  {
    hide Run, InCall, Online, IsOnline, InSession;
    MemberIsOnline(es, p.id);
    if h :| Online(es, h, p.id, p.name) {
      OnlineConnection(es, h, p.id, p.name);
    }
  }

  // Over every run, the last roster each connection online was sent tells the truth.
  lemma PushedRosterIsTrue(es: seq<Event>, h: Hdl, id: int, name: string)
    requires Online(es, h, id, name)
    ensures exists peers :: LastRoster(Log(es), h) == Some(peers) && TrueRoster(es, peers)
  {
    OnlineConnection(es, h, id, name);
    PushedRosterIsCurrent(es, id);
    RosterIsTrue(es);
    hide Online, TrueRoster, RosterOf, Run;
  }

  // ---------- Announcements ----------

  // One true roster to each connection online and to nobody else.
  ghost predicate Announces(es: seq<Event>, out: seq<Sent>) {
    && (forall x :: x in out ==> x.msg.Roster? && TrueRoster(es, x.msg.peers))
    && (forall i, j :: 0 <= i < j < |out| ==> out[i].hdl != out[j].hdl)
    && (forall h :: Mentions(out, h) <==> Connected(es, h))
  }

  lemma BroadcastOnce(s: Server)
    requires Inv(s)
    ensures forall i, j :: 0 <= i < j < |Broadcast(s)| ==> Broadcast(s)[i].hdl != Broadcast(s)[j].hdl
    ensures forall x :: x in Broadcast(s) ==> x.hdl in s.hdlToId
  {
    hide RosterOf, RegInv, SortedKeys;
    var ids := SortedKeys(s.idToHdl.Keys);
    assert forall i :: 0 <= i < |ids| ==> ids[i] in ids;
    assert forall i, j :: 0 <= i < j < |ids| ==> ids[i] < ids[j];
  }

  lemma BroadcastAnnounces(es: seq<Event>)
    ensures Announces(es, Broadcast(Run(es)))
  {
    hide Run, RosterOf, TrueRoster, Online, Broadcast, Inv, Mentions, Connected;
    RunInv(es);
    var s := Run(es);
    RosterIsTrue(es);
    BroadcastContents(s);
    BroadcastOnce(s);
    forall h ensures Mentions(Broadcast(s), h) <==> Connected(es, h) {
      ConnectedIff(es, h);
      BroadcastMentions(s, h);
    }
  }

  lemma ConnectedIff(es: seq<Event>, h: Hdl)
    ensures Connected(es, h) <==> h in Run(es).hdlToId
  {
    RunInv(es);
    hide Run, Online, RegInv;
    if h in Run(es).hdlToId {
      MemberIsOnline(es, Run(es).hdlToId[h]);
    }
    if id, name :| Online(es, h, id, name) {
      OnlineConnection(es, h, id, name);
    }
  }

  lemma BroadcastMentions(s: Server, h: Hdl)
    requires Inv(s)
    ensures Mentions(Broadcast(s), h) <==> h in s.hdlToId
  {
    BroadcastOnce(s);
    hide RosterOf, RegInv, Broadcast;
    if h in s.hdlToId {
      BroadcastReaches(s, s.hdlToId[h]);
    }
  }

  // ---------- How requests are answered ----------

  // What is sent on a further event.
  ghost function Answer(es: seq<Event>, e: Event): seq<Sent> { Step(Run(es), e).1 }

  lemma NextRun(es: seq<Event>, e: Event)
    ensures Run(es + [e]) == Step(Run(es), e).0
  {
    assert (es + [e])[..|es|] == es;
  }

  // The ids given out so far are 1, 2, and so on.
  predicate IsWelcome(m: Msg) { m.Welcome? }

  lemma WelcomesCounted(s: Server, e: Event)
    requires s.reg.nextId >= 1
    ensures Step(s, e).0.reg.nextId == s.reg.nextId + Tally(Step(s, e).1, IsWelcome)
  {
    BroadcastContents(Step(s, e).0);
    var out := Step(s, e).1;
    if e.Received? && e.req.RegisterAs? {
      hide RosterOf;
      if out != [] && out[0].msg.Welcome? {
        OneWelcome(out);
      } else {
        TallyNone(out, IsWelcome);
      }
    } else {
      NoOtherIds(s, e);
      hide Step, Tally;
      TallyNone(out, IsWelcome);
    }
  }

  lemma OneWelcome(out: seq<Sent>)
    requires out != [] && IsWelcome(out[0].msg) && forall x :: x in out[1..] ==> !IsWelcome(x.msg)
    ensures Tally(out, IsWelcome) == 1
  {
    TallyOne(out[0], IsWelcome);
    TallyNone(out[1..], IsWelcome);
    TallyAppend([out[0]], out[1..], IsWelcome);
    assert out == [out[0]] + out[1..];
  }

  lemma NoOtherIds(s: Server, e: Event)
    requires !(e.Received? && e.req.RegisterAs?)
    ensures Step(s, e).0.reg.nextId == s.reg.nextId && forall x :: x in Step(s, e).1 ==> !IsWelcome(x.msg)
  {
    BroadcastContents(Step(s, e).0);
    hide Broadcast, RosterOf;
  }

  lemma {:induction false} IdsAreConsecutive(es: seq<Event>)
    ensures Run(es).reg.nextId == 1 + Tally(Log(es), IsWelcome)
  {
    if es != [] {
      var n := |es| - 1;
      IdsAreConsecutive(es[..n]);
      RunInv(es[..n]);
      hide Step, Tally;
      WelcomesCounted(Run(es[..n]), es[n]);
      TallyAppend(Log(es[..n]), Outs(es, n), IsWelcome);
    } else {
      assert Tally([], IsWelcome) == 0;
    }
  }

  // A registration is ignored on a connection that is online already or without a name,
  // refused while someone online bears the name, and granted otherwise: with the next
  // number, and everyone online is told.
  lemma RegisterAnswered(es: seq<Event>, h: Hdl, name: string, now: int)
    ensures var e := Received(h, RegisterAs(name), now);
            var out := Answer(es, e);
            if name == "" || Connected(es, h) then out == []
            else if exists h', id :: Online(es, h', id, name) then out == [Sent(h, Error(NameTaken))]
            else && out != [] && out[0] == Sent(h, Welcome(1 + Tally(Log(es), IsWelcome)))
                 && Announces(es + [e], out[1..])
  {
    var s, e := Run(es), Received(h, RegisterAs(name), now);
    RunInv(es);
    NextRun(es, e);
    IdsAreConsecutive(es);
    BroadcastAnnounces(es + [e]);
    hide Run, RosterOf, Announces, Online, Connected, Tally, Broadcast;
    ConnectedIff(es, h);
    if h', id :| Online(es, h', id, name) {
      OnlineConnection(es, h', id, name);
    }
    if name in s.reg.names {
      var id :| id in s.reg.members && s.reg.members[id].name == name;
      MemberIsOnline(es, id);
    }
  }

  // The outcome of a call, in terms of the run.
  lemma CallOutcomeOfRun(es: seq<Event>, a: int, b: int)
    requires IsOnline(es, a)
    ensures CallOutcome(Run(es).reg, a, b) ==
            if a == b then TargetBusy
            else if InCall(es, a) then CallerBusy
            else if !IsOnline(es, b) then TargetOffline
            else if InCall(es, b) then TargetBusy
            else Ok
  {
    MemberIsOnline(es, a);
    MemberIsOnline(es, b);
    hide Run, InCall, IsOnline;
  }

  // A call on the connection of a is put through to b if and only if b is someone else
  // who is online and neither is in a session.
  lemma CallPutThroughIff(es: seq<Event>, h: Hdl, a: int, name: string, b: int, body: string, now: int)
    requires Online(es, h, a, name)
    ensures Accepts(Run(es), Received(h, Relay(CallRelay, b, body), now), a, b)
            <==> a != b && IsOnline(es, b) && !InCall(es, a) && !InCall(es, b)
  {
    RunInv(es);
    OnlineConnection(es, h, a, name);
    AcceptsIffOk(Run(es), h, b, body, now, a, b);
    CallOutcomeOfRun(es, a, b);
    hide Run, InCall, IsOnline, Accepts, CallOutcome;
  }

  // What is sent on a call: "busy" to the caller for a call to itself, and from outside
  // a session to someone in one; "offline" from outside a session to someone who is not
  // online; nothing from inside a session; and otherwise the call, stamped, to the other
  // one's connection, and the new roster to everyone.
  lemma CallAnswered(es: seq<Event>, h: Hdl, a: int, name: string, b: int, body: string, now: int)
    requires Online(es, h, a, name)
    ensures var e := Received(h, Relay(CallRelay, b, body), now);
            var out := Answer(es, e);
            if a == b then out == [Sent(h, Error(TargetIsBusy))]
            else if InCall(es, a) then out == []
            else if !IsOnline(es, b) then out == [Sent(h, Error(Offline))]
            else if InCall(es, b) then out == [Sent(h, Error(TargetIsBusy))]
            else && out != [] && out[0].msg == Forwarded(CallRelay, a, b, body)
                 && OnlineAt(es, out[0].hdl, b)
                 && Announces(es + [e], out[1..])
  {
    var e := Received(h, Relay(CallRelay, b, body), now);
    assert IsOnline(es, a);
    hide Run, InCall, IsOnline, Announces, Online, CallOutcome, Called, Broadcast, InSession;
    OnlineConnection(es, h, a, name);
    CallOutcomeOfRun(es, a, b);
    MemberIsOnline(es, b);
    NextRun(es, e);
    BroadcastAnnounces(es + [e]);
    CallSends(Run(es), h, a, b, body, now);
    hide Step;
    var out := Answer(es, e);
    assert out != [] ==> ([out[0]] + Broadcast(Run(es + [e])))[1..] == Broadcast(Run(es + [e]));
  }

  lemma CallSends(s: Server, h: Hdl, a: int, b: int, body: string, now: int)
    requires h in s.hdlToId && s.hdlToId[h] == a && (CallOutcome(s.reg, a, b) == Ok ==> b in s.idToHdl)
    ensures var (s', out) := Step(s, Received(h, Relay(CallRelay, b, body), now));
            out == match CallOutcome(s.reg, a, b)
                   case Ok => [Sent(s.idToHdl[b], Forwarded(CallRelay, a, b, body))] + Broadcast(s')
                   case TargetBusy => [Sent(h, Error(TargetIsBusy))]
                   case TargetOffline => [Sent(h, Error(Offline))]
                   case CallerBusy => []
  {
    hide CallOutcome, Called, Broadcast;
  }

  // A text goes to the one it is for, with its sender's id, or comes back as "offline".
  lemma TextAnswered(es: seq<Event>, h: Hdl, a: int, name: string, b: int, text: string, now: int)
    requires Online(es, h, a, name)
    ensures var out := Answer(es, Received(h, Text(b, text), now));
            if IsOnline(es, b)
            then |out| == 1 && out[0].msg == TextFrom(a, text) && OnlineAt(es, out[0].hdl, b)
            else out == [Sent(h, Error(Offline))]
  {
    OnlineConnection(es, h, a, name);
    MemberIsOnline(es, b);
    hide Run, IsOnline, Online, InCall, InSession;
  }

  // Leaving a session is announced to both sides and changes the roster; outside one it
  // is ignored. Losing a connection is announced to the side that remains.
  lemma EndAnswered(es: seq<Event>, h: Hdl, a: int, name: string, e: Event)
    requires Online(es, h, a, name) && ((e.Received? && e.hdl == h && e.req == Leave) || e == Closed(h))
    ensures var out := Answer(es, e);
            if InCall(es, a)
            then var k := if e.Closed? then 1 else 2;
                 && |out| >= k && Announces(es + [e], out[k..])
                 && out[k - 1].msg == (if e.Closed? then PeerGone(a) else LeaveFrom(a))
                 && (exists b :: InSession(es, a, b) && OnlineAt(es, out[k - 1].hdl, b))
                 && (e.Received? ==> out[0] == Sent(h, LeaveFrom(a)))
            else if e.Closed? then Announces(es + [e], out)
            else out == []
  {
    RunInv(es);
    OnlineConnection(es, h, a, name);
    MemberIsOnline(es, a);
    NextRun(es, e);
    BroadcastAnnounces(es + [e]);
    var b := PeerOf(Run(es).reg, a);
    MemberIsOnline(es, b);
    hide Run, InCall, IsOnline, Announces, Online, InSession, Inv;
    if InCall(es, a) {
      PairedIffInSession(es, a, b);
      EndingTargets(Run(es), e, a, b);
      hide Step;
      var two := Broadcast(Run(es + [e]));
      assert forall x, y :: ([x] + two)[1..] == two && ([x, y] + two)[2..] == two;
    } else {
      NothingEnded(Run(es), e, a);
      hide Step;
    }
  }

  lemma NothingEnded(s: Server, e: Event, a: int)
    requires EndsFor(s, e, a) && PeerOf(s.reg, a) == 0
    ensures Step(s, e).1 == if e.Closed? then Broadcast(Step(s, e).0) else []
  {
    hide Broadcast;
  }

  lemma EndingTargets(s: Server, e: Event, a: int, b: int)
    requires Inv(s) && Paired(s.reg, a, b) && EndsFor(s, e, a)
    ensures a in s.idToHdl && b in s.idToHdl
    ensures Step(s, e).1 == (if e.Closed? then [Sent(s.idToHdl[b], PeerGone(a))]
                             else [Sent(s.idToHdl[a], LeaveFrom(a)), Sent(s.idToHdl[b], LeaveFrom(a))])
                            + Broadcast(Step(s, e).0)
  {
    EndingStep(s, e, a, b);
    hide Broadcast, RosterOf, RegInv;
    assert a != b;
  }

  // A request for the roster is answered with it; everything else but the relays of
  // a session (RelayedExactlyInSession) is met with silence.
  lemma RestAnswered(es: seq<Event>, e: Event)
    ensures var out := Answer(es, e);
            match e
            case Received(h, req, _) =>
              if Connected(es, h) then
                (req.GetRoster? ==> exists peers :: TrueRoster(es, peers) && out == [Sent(h, Roster(peers))])
                && (req.Malformed? || req.UnknownType? ==> out == [])
              else !req.RegisterAs? ==> out == []
            case Closed(h) => !Connected(es, h) ==> out == []
            case _ => out == []
  {
    RunInv(es);
    RosterIsTrue(es);
    var s := Run(es);
    hide Run, Online, Connected, TrueRoster, RosterOf, Inv, Broadcast;
    if e.Received? || e.Closed? {
      ConnectedIff(es, e.hdl);
    }
  }
}
