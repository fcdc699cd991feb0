/** Sessions counted by the events that open and end them, and by what was sent. */
module SessionCounts {
  import opened Registry
  import opened Signaling
  import opened CallSessions
  import opened SignalingLog

  // ---------- Counting events ----------

  ghost predicate OpensAt(es: seq<Event>, k: nat)
    requires k < |es|
  {
    Opens(Run(es[..k]), es[k])
  }

  ghost predicate Opens(s: Server, e: Event) { exists a, b :: Accepts(s, e, a, b) }

  // Event k takes a member out of the session it is in.
  ghost predicate EndsOneAt(es: seq<Event>, k: nat)
    requires k < |es|
  {
    exists a, b :: InSession(es[..k], a, b) && EndsAt(es, k, a)
  }

  ghost function Opened(es: seq<Event>): nat {
    if es == [] then 0 else Opened(es[..|es| - 1]) + if OpensAt(es, |es| - 1) then 1 else 0
  }

  ghost function EndedByLeave(es: seq<Event>): nat {
    if es == [] then 0
    else EndedByLeave(es[..|es| - 1]) + if EndsOneAt(es, |es| - 1) && es[|es| - 1].Received? then 1 else 0
  }

  ghost function EndedByDrop(es: seq<Event>): nat {
    if es == [] then 0
    else EndedByDrop(es[..|es| - 1]) + if EndsOneAt(es, |es| - 1) && es[|es| - 1].Closed? then 1 else 0
  }

  // ---------- One step ----------

  ghost predicate Ends(s: Server, e: Event) { exists a, b :: Paired(s.reg, a, b) && EndsFor(s, e, a) }

  lemma EndsIff(es: seq<Event>, k: nat)
    requires k < |es|
    ensures EndsOneAt(es, k) <==> Ends(Run(es[..k]), es[k])
  {
    hide Paired, EndsFor, InSession, Run;
    forall a, b ensures Paired(Run(es[..k]).reg, a, b) <==> InSession(es[..k], a, b) {
      PairedIffInSession(es[..k], a, b);
    }
  }

  // Each count of messages in one step, by what the step does to sessions.
  ghost predicate Told(out: seq<Sent>, calls: nat, leaves: nat, drops: nat) {
    Tally(out, IsCall) == calls && Tally(out, IsLeave) == leaves && Tally(out, IsGone) == drops
  }

  lemma ToldNone(out: seq<Sent>)
    requires forall x :: x in out ==> !IsCall(x.msg) && !IsLeave(x.msg) && !IsGone(x.msg)
    ensures Told(out, 0, 0, 0)
  {
    TallyNone(out, IsCall);
    TallyNone(out, IsLeave);
    TallyNone(out, IsGone);
  }

  lemma ToldOne(x: Sent, s: Server)
    ensures Told([x] + Broadcast(s), if IsCall(x.msg) then 1 else 0, if IsLeave(x.msg) then 1 else 0,
                 if IsGone(x.msg) then 1 else 0)
  {
    TallyOne(x, IsCall);
    TallyOne(x, IsLeave);
    TallyOne(x, IsGone);
    TalliesWithRoster([x], s);
  }

  lemma ToldTwoLeaves(x: Sent, y: Sent, s: Server)
    requires x.msg.LeaveFrom? && y.msg.LeaveFrom?
    ensures Told([x, y] + Broadcast(s), 0, 2, 0)
  {
    TallyTwo(x, y, IsCall);
    TallyTwo(x, y, IsLeave);
    TallyTwo(x, y, IsGone);
    TalliesWithRoster([x, y], s);
  }

  lemma TargetConnected(s: Server, to: int)
    requires Inv(s) && to in s.reg.members
    ensures to in s.idToHdl
  {
  }

  lemma PeerIsPartner(s: Server, self: int)
    requires Inv(s)
    ensures var peer := PeerOf(s.reg, self);
            if peer != 0 then Paired(s.reg, self, peer) && peer in s.idToHdl && peer != self
            else forall b :: !Paired(s.reg, self, b)
  {
  }

  // ---------- Which steps open and end a session ----------

  lemma CallOpensIff(s: Server, h: Hdl, to: int, body: string, now: int)
    requires Inv(s)
    ensures var e := Received(h, Relay(CallRelay, to, body), now);
            !Ends(s, e) && (Opens(s, e) <==> h in s.hdlToId && CallOutcome(s.reg, s.hdlToId[h], to) == Ok)
  {
    hide Inv, Accepts;
    var e := Received(h, Relay(CallRelay, to, body), now);
    forall a, b ensures Accepts(s, e, a, b)
                        <==> h in s.hdlToId && s.hdlToId[h] == a && to == b && CallOutcome(s.reg, a, b) == Ok
    {
      AcceptsIffOk(s, h, to, body, now, a, b);
    }
    if h in s.hdlToId && CallOutcome(s.reg, s.hdlToId[h], to) == Ok {
      assert Accepts(s, e, s.hdlToId[h], to);
    }
  }

  lemma LeaveEndsIff(s: Server, h: Hdl, now: int)
    requires Inv(s)
    ensures !Opens(s, Received(h, Leave, now))
    ensures Ends(s, Received(h, Leave, now)) <==> h in s.hdlToId && PeerOf(s.reg, s.hdlToId[h]) != 0
  {
    hide Inv, PeerOf, Paired;
    if h in s.hdlToId {
      PeerIsPartner(s, s.hdlToId[h]);
      assert EndsFor(s, Received(h, Leave, now), s.hdlToId[h]);
    }
  }

  lemma DropEndsIff(s: Server, h: Hdl)
    requires Inv(s)
    ensures !Opens(s, Closed(h))
    ensures Ends(s, Closed(h)) <==> h in s.hdlToId && PeerOf(s.reg, s.hdlToId[h]) != 0
  {
    hide Inv, PeerOf, Paired;
    if h in s.hdlToId {
      PeerIsPartner(s, s.hdlToId[h]);
      assert EndsFor(s, Closed(h), s.hdlToId[h]);
    }
  }

  predicate Neutral(e: Event) {
    !e.Closed? && (e.Received? ==> !e.req.Leave? && !(e.req.Relay? && e.req.kind == CallRelay))
  }

  lemma NeutralIff(s: Server, e: Event)
    requires Neutral(e)
    ensures !Opens(s, e) && !Ends(s, e)
  {
  }

  // ---------- What each of them sends ----------

  lemma CallTold(s: Server, h: Hdl, self: int, to: int, body: string)
    requires Inv(s)
    ensures Told(OnCall(s, h, self, to, body).1, if CallOutcome(s.reg, self, to) == Ok then 1 else 0, 0, 0)
  {
    hide Broadcast, RosterOf, Called, Told, Inv;
    if CallOutcome(s.reg, self, to) == Ok {
      TargetConnected(s, to);
      ToldOne(Sent(s.idToHdl[to], Forwarded(CallRelay, self, to, body)), OnCall(s, h, self, to, body).0);
    } else {
      ToldNone(OnCall(s, h, self, to, body).1);
    }
  }

  lemma LeaveTold(s: Server, h: Hdl, self: int)
    requires Inv(s)
    ensures Told(OnLeave(s, h, self).1, 0, if PeerOf(s.reg, self) != 0 then 2 else 0, 0)
  {
    hide Broadcast, RosterOf, HungUp, Told, Inv, PeerOf, Paired;
    var peer := PeerOf(s.reg, self);
    if peer != 0 {
      PeerIsPartner(s, self);
      var x, y := Sent(h, LeaveFrom(self)), Sent(s.idToHdl[peer], LeaveFrom(self));
      ToldTwoLeaves(x, y, OnLeave(s, h, self).0);
      assert [x] + [y] == [x, y];
    } else {
      ToldNone(OnLeave(s, h, self).1);
    }
  }

  lemma DropTold(s: Server, h: Hdl)
    requires Inv(s)
    ensures Told(OnDrop(s, h).1, 0, 0, if h in s.hdlToId && PeerOf(s.reg, s.hdlToId[h]) != 0 then 1 else 0)
  {
    hide Broadcast, RosterOf, Removed, Told, Inv, PeerOf, Paired;
    var s' := OnDrop(s, h).0;
    if h in s.hdlToId && PeerOf(s.reg, s.hdlToId[h]) != 0 {
      var self := s.hdlToId[h];
      PeerIsPartner(s, self);
      ToldOne(Sent(s'.idToHdl[PeerOf(s.reg, self)], PeerGone(self)), s');
    } else {
      BroadcastContents(s');
      assert [] + Broadcast(s') == Broadcast(s');
      ToldNone(OnDrop(s, h).1);
    }
  }

  lemma NeutralTold(s: Server, e: Event)
    requires Neutral(e)
    ensures Told(Step(s, e).1, 0, 0, 0)
  {
    hide Broadcast, RosterOf, Registered, Told, Paired;
    BroadcastContents(Step(s, e).0);
    ToldNone(Step(s, e).1);
  }

  // ---------- How each of them moves the two sets ----------

  ghost predicate Moved(r: Reg, r': Reg, pairs: int) {
    |OpenPairs(r')| == |OpenPairs(r)| + pairs && |BusyIds(r')| == |BusyIds(r)| + 2 * pairs
  }

  lemma NeutralMoves(s: Server, e: Event)
    requires Inv(s) && Neutral(e)
    ensures Moved(s.reg, Step(s, e).0.reg, 0)
  {
    hide Broadcast, RosterOf, NamesMatch, ConnInv;
    var r, r' := s.reg, Step(s, e).0.reg;
    if r' != r {
      assert r'.members == r.members[r.nextId := Member(e.req.name, Idle, 0)];
      assert BusyIds(r') == BusyIds(r) && OpenPairs(r') == OpenPairs(r);
    }
  }

  // ---------- One step, all together ----------

  ghost predicate StepCounted(s: Server, e: Event) {
    var opens, ends := if Opens(s, e) then 1 else 0, if Ends(s, e) then 1 else 0;
    && Told(Step(s, e).1, opens, if e.Received? then 2 * ends else 0, if e.Closed? then ends else 0)
    && Moved(s.reg, Step(s, e).0.reg, opens - ends)
    && (Ends(s, e) ==> e.Received? || e.Closed?)
  }

  lemma CallCounted(s: Server, h: Hdl, to: int, body: string, now: int)
    requires Inv(s)
    ensures StepCounted(s, Received(h, Relay(CallRelay, to, body), now))
  {
    hide Told, Opens, Ends, Inv, RegInv, Broadcast, BusyIds, OpenPairs;
    CallOpensIff(s, h, to, body, now);
    if h in s.hdlToId {
      CallTold(s, h, s.hdlToId[h], to, body);
      if CallOutcome(s.reg, s.hdlToId[h], to) == Ok {
        assert RegInv(s.reg) by { InvParts(s); }
        CallOpens(s.reg, s.hdlToId[h], to);
      }
    } else {
      ToldNone([]);
    }
  }

  lemma InvParts(s: Server)
    requires Inv(s)
    ensures RegInv(s.reg)
  {
  }

  lemma LeaveCounted(s: Server, h: Hdl, now: int)
    requires Inv(s)
    ensures StepCounted(s, Received(h, Leave, now))
  {
    hide Told, Opens, Ends, Inv, RegInv, Broadcast, BusyIds, OpenPairs, PeerOf, HungUp;
    LeaveEndsIff(s, h, now);
    if h in s.hdlToId {
      LeaveTold(s, h, s.hdlToId[h]);
      if PeerOf(s.reg, s.hdlToId[h]) != 0 {
        InvParts(s);
        HangupCloses(s.reg, s.hdlToId[h]);
      }
    } else {
      ToldNone([]);
    }
  }

  lemma DropCounted(s: Server, h: Hdl)
    requires Inv(s)
    ensures StepCounted(s, Closed(h))
  {
    hide Told, Opens, Ends, Inv, RegInv, Broadcast, BusyIds, OpenPairs, PeerOf, Removed;
    DropEndsIff(s, h);
    DropTold(s, h);
    if h in s.hdlToId {
      InvParts(s);
      RemoveCloses(s.reg, s.hdlToId[h]);
    }
  }

  lemma StepIsCounted(s: Server, e: Event)
    requires Inv(s)
    ensures StepCounted(s, e)
  {
    hide StepCounted, Inv;
    if e.Closed? {
      DropCounted(s, e.hdl);
    } else if e.Received? && e.req.Leave? {
      LeaveCounted(s, e.hdl, e.now);
    } else if e.Received? && e.req.Relay? && e.req.kind == CallRelay {
      CallCounted(s, e.hdl, e.req.to, e.req.body, e.now);
    } else {
      NeutralCounted(s, e);
    }
  }

  lemma NeutralCounted(s: Server, e: Event)
    requires Inv(s) && Neutral(e)
    ensures StepCounted(s, e)
  {
    hide Told, Moved, Opens, Ends, Inv, Step;
    NeutralIff(s, e);
    NeutralTold(s, e);
    NeutralMoves(s, e);
  }

  // ---------- Whole runs ----------

  lemma EventCounted(es: seq<Event>, k: nat)
    requires k < |es|
    ensures var opens, ends := if OpensAt(es, k) then 1 else 0, if EndsOneAt(es, k) then 1 else 0;
            && Told(Outs(es, k), opens, if es[k].Received? then 2 * ends else 0, if es[k].Closed? then ends else 0)
            && Moved(Run(es[..k]).reg, Run(es[..k + 1]).reg, opens - ends)
            && (EndsOneAt(es, k) ==> es[k].Received? || es[k].Closed?)
  {
    hide Told, Moved, Opens, Ends, EndsOneAt, Step, Inv, Run;
    RunInv(es[..k]);
    RunStep(es, k);
    StepIsCounted(Run(es[..k]), es[k]);
    EndsIff(es, k);
  }

  lemma CountsGrow(es: seq<Event>)
    requires es != []
    ensures var n := |es| - 1;
            var opens, ends := if OpensAt(es, n) then 1 else 0, if EndsOneAt(es, n) then 1 else 0;
            && Opened(es) == Opened(es[..n]) + opens
            && EndedByLeave(es) == EndedByLeave(es[..n]) + (if es[n].Received? then ends else 0)
            && EndedByDrop(es) == EndedByDrop(es[..n]) + (if es[n].Closed? then ends else 0)
            && Log(es) == Log(es[..n]) + Outs(es, n)
  {
    hide OpensAt, EndsOneAt, Outs;
  }

  lemma ToldAppend(a: seq<Sent>, b: seq<Sent>, i: nat, j: nat, k: nat, i': nat, j': nat, k': nat)
    requires Told(a, i, j, k) && Told(b, i', j', k')
    ensures Told(a + b, i + i', j + j', k + k')
  {
    TallyAppend(a, b, IsCall);
    TallyAppend(a, b, IsLeave);
    TallyAppend(a, b, IsGone);
  }

  lemma NothingYet()
    ensures BusyIds(EMPTY) == {} && OpenPairs(EMPTY) == {} && Told([], 0, 0, 0)
  {
  }

  // Over every run: sessions opened == ended by a leave + ended by a drop + still open,
  // and two members are busy for each one that is open. The messages tell of exactly
  // these: one call for each opened, a leave to both sides for each ended by a leave,
  // one peer_gone for each ended by a drop.
  lemma {:induction false} SessionsConserved(es: seq<Event>)
    ensures Opened(es) == EndedByLeave(es) + EndedByDrop(es) + |OpenPairs(Run(es).reg)|
    ensures |BusyIds(Run(es).reg)| == 2 * |OpenPairs(Run(es).reg)|
    ensures Told(Log(es), Opened(es), 2 * EndedByLeave(es), EndedByDrop(es))
  {
    if es == [] {
      NothingYet();
    } else {
      hide Told, BusyIds, OpenPairs, OpensAt, EndsOneAt, Run, Outs, Opened, EndedByLeave, EndedByDrop, Log;
      CountsGrow(es);
      var n := |es| - 1;
      var pre := es[..n];
      SessionsConserved(pre);
      EventCounted(es, n);
      assert es[..n + 1] == es;
      var opens, ends := if OpensAt(es, n) then 1 else 0, if EndsOneAt(es, n) then 1 else 0;
      ToldAppend(Log(pre), Outs(es, n), Opened(pre), 2 * EndedByLeave(pre), EndedByDrop(pre),
                 opens, if es[n].Received? then 2 * ends else 0, if es[n].Closed? then ends else 0);
    }
  }

  // The open pairs and the busy members are those of the sessions of the run.
  lemma OpenPairsAreSessions(es: seq<Event>, id: int)
    ensures id in OpenPairs(Run(es).reg) <==> exists b :: id < b && InSession(es, id, b)
    ensures id in BusyIds(Run(es).reg) <==> exists b :: InSession(es, id, b)
  {
    RunInv(es);
    var r := Run(es).reg;
    hide InSession, Run;
    forall b ensures Paired(r, id, b) <==> InSession(es, id, b) {
      PairedIffInSession(es, id, b);
    }
    if id in r.members && r.members[id].peerId != 0 {
      assert Paired(r, id, r.members[id].peerId);
    }
  }
}
