/** What a whole run has put on the wire: counts of messages, the pushed
    roster, fresh ids, and no send that misses its connection. */
module SignalingLog {
  import opened Basics
  import opened OrderedKeys
  import opened Registry
  import opened Signaling

  lemma BroadcastContents(s: Server)
    ensures forall x :: x in Broadcast(s) ==> x.msg == Roster(RosterOf(s.reg.members))
  {
  }

  // ---------- Counting messages ----------

  ghost function Tally(log: seq<Sent>, p: Msg -> bool): nat {
    if log == [] then 0
    else Tally(log[..|log| - 1], p) + (if p(log[|log| - 1].msg) then 1 else 0)
  }

  predicate IsCall(m: Msg) { m.Forwarded? && m.kind == CallRelay }
  predicate IsLeave(m: Msg) { m.LeaveFrom? }
  predicate IsGone(m: Msg) { m.PeerGone? }

  lemma {:induction false} TallyAppend(a: seq<Sent>, b: seq<Sent>, p: Msg -> bool)
    ensures Tally(a + b, p) == Tally(a, p) + Tally(b, p)
  {
    if b == [] {
      assert a + b == a;
    } else {
      var n := |b| - 1;
      assert (a + b)[..|a + b| - 1] == a + b[..n];
      TallyAppend(a, b[..n], p);
    }
  }

  lemma {:induction false} TallyNone(log: seq<Sent>, p: Msg -> bool)
    requires forall x :: x in log ==> !p(x.msg)
    ensures Tally(log, p) == 0
  {
    if log != [] {
      TallyNone(log[..|log| - 1], p);
    }
  }

  // ---------- Busy members and open pairs ----------

  ghost function BusyIds(r: Reg): set<int> {
    set id | id in r.members && r.members[id].state == Busy
  }

  // One entry per open pair: its lower id.
  ghost function OpenPairs(r: Reg): set<int> {
    set id | id in r.members && id < r.members[id].peerId
  }

  ghost function Low(a: int, b: int): int { if a < b then a else b }

  lemma CallBusies(r: Reg, a: int, b: int)
    requires RegInv(r) && CallOutcome(r, a, b) == Ok
    ensures a != b && a !in BusyIds(r) && b !in BusyIds(r)
    ensures BusyIds(Called(r, a, b)) == BusyIds(r) + {a, b}
  {
  }

  lemma CallPairs(r: Reg, a: int, b: int)
    requires RegInv(r) && CallOutcome(r, a, b) == Ok
    ensures Low(a, b) !in OpenPairs(r)
    ensures OpenPairs(Called(r, a, b)) == OpenPairs(r) + {Low(a, b)}
  {
  }

  lemma CallOpens(r: Reg, a: int, b: int)
    requires RegInv(r) && CallOutcome(r, a, b) == Ok
    ensures |BusyIds(Called(r, a, b))| == |BusyIds(r)| + 2
    ensures |OpenPairs(Called(r, a, b))| == |OpenPairs(r)| + 1
  {
    hide BusyIds, OpenPairs, Called, CallOutcome, RegInv, Low;
    CallBusies(r, a, b);
    CallPairs(r, a, b);
  }

  lemma PairIsOpen(r: Reg, a: int)
    requires RegInv(r) && PeerOf(r, a) != 0
    ensures var b := PeerOf(r, a);
            a != b && a in BusyIds(r) && b in BusyIds(r) && Low(a, b) in OpenPairs(r)
  {
    hide NamesMatch;
  }

  lemma HangupIdles(r: Reg, a: int)
    requires RegInv(r) && PeerOf(r, a) != 0
    ensures BusyIds(HungUp(r, a, PeerOf(r, a))) == BusyIds(r) - {a, PeerOf(r, a)}
  {
    hide NamesMatch;
  }

  lemma HangupUnpairs(r: Reg, a: int)
    requires RegInv(r) && PeerOf(r, a) != 0
    ensures OpenPairs(HungUp(r, a, PeerOf(r, a))) == OpenPairs(r) - {Low(a, PeerOf(r, a))}
  {
    hide NamesMatch;
  }

  lemma RemoveIdles(r: Reg, a: int)
    requires RegInv(r)
    ensures BusyIds(Removed(r, a)) == if PeerOf(r, a) != 0 then BusyIds(r) - {a, PeerOf(r, a)} else BusyIds(r)
  {
    hide NamesMatch;
  }

  lemma RemoveUnpairs(r: Reg, a: int)
    requires RegInv(r)
    ensures OpenPairs(Removed(r, a)) ==
            if PeerOf(r, a) != 0 then OpenPairs(r) - {Low(a, PeerOf(r, a))} else OpenPairs(r)
  {
    hide NamesMatch;
  }

  lemma TwoFewer(s: set<int>, a: int, b: int)
    requires a in s && b in s && a != b
    ensures |s - {a, b}| == |s| - 2
  {
    assert s - {a, b} == s - {a} - {b};
  }

  lemma HangupCloses(r: Reg, a: int)
    requires RegInv(r) && PeerOf(r, a) != 0
    ensures |BusyIds(HungUp(r, a, PeerOf(r, a)))| == |BusyIds(r)| - 2
    ensures |OpenPairs(HungUp(r, a, PeerOf(r, a)))| == |OpenPairs(r)| - 1
  {
    hide BusyIds, OpenPairs, HungUp, RegInv, PeerOf, Low;
    HangupIdles(r, a);
    PairIsOpen(r, a);
    HangupUnpairs(r, a);
    TwoFewer(BusyIds(r), a, PeerOf(r, a));
  }

  lemma RemoveCloses(r: Reg, a: int)
    requires RegInv(r)
    ensures var k := if PeerOf(r, a) != 0 then 1 else 0;
            && |BusyIds(Removed(r, a))| == |BusyIds(r)| - 2 * k
            && |OpenPairs(Removed(r, a))| == |OpenPairs(r)| - k
  {
    hide BusyIds, OpenPairs, Removed, RegInv, PeerOf, Low;
    RemoveIdles(r, a);
    RemoveUnpairs(r, a);
    if PeerOf(r, a) != 0 {
      PairIsOpen(r, a);
      TwoFewer(BusyIds(r), a, PeerOf(r, a));
    }
  }

  lemma TalliesWithRoster(front: seq<Sent>, s: Server)
    ensures Tally(front + Broadcast(s), IsCall) == Tally(front, IsCall)
    ensures Tally(front + Broadcast(s), IsLeave) == Tally(front, IsLeave)
    ensures Tally(front + Broadcast(s), IsGone) == Tally(front, IsGone)
  {
    BroadcastContents(s);
    TallyNone(Broadcast(s), IsCall);
    TallyNone(Broadcast(s), IsLeave);
    TallyNone(Broadcast(s), IsGone);
    TallyAppend(front, Broadcast(s), IsCall);
    TallyAppend(front, Broadcast(s), IsLeave);
    TallyAppend(front, Broadcast(s), IsGone);
  }

  lemma TallyOne(x: Sent, p: Msg -> bool)
    ensures Tally([x], p) == if p(x.msg) then 1 else 0
  {
  }

  lemma TallyTwo(x: Sent, y: Sent, p: Msg -> bool)
    ensures Tally([x, y], p) == (if p(x.msg) then 1 else 0) + (if p(y.msg) then 1 else 0)
  {
    assert [x, y][..1] == [x];
    TallyOne(x, p);
  }

  // ---------- The pushed roster never goes stale ----------

  // The last roster sent to h.
  ghost function LastRoster(log: seq<Sent>, h: Hdl): Option<seq<PeerInfo>> {
    if log == [] then None
    else
      var x := log[|log| - 1];
      if x.hdl == h && x.msg.Roster? then Some(x.msg.peers) else LastRoster(log[..|log| - 1], h)
  }

  ghost predicate Mentions(out: seq<Sent>, h: Hdl) {
    exists x :: x in out && x.hdl == h && x.msg.Roster?
  }

  // If every roster in `out` for h is the same and there is one, it is the last.
  lemma {:induction false} LastAfter(log: seq<Sent>, out: seq<Sent>, h: Hdl, roster: seq<PeerInfo>)
    requires forall x :: x in out && x.hdl == h && x.msg.Roster? ==> x.msg.peers == roster
    ensures LastRoster(log + out, h) == if Mentions(out, h) then Some(roster) else LastRoster(log, h)
  {
    if out == [] {
      assert log + out == log;
    } else {
      var n := |out| - 1;
      assert (log + out)[..|log + out| - 1] == log + out[..n];
      LastAfter(log, out[..n], h, roster);
      assert out == out[..n] + [out[n]];
    }
  }

  lemma BroadcastReaches(s: Server, id: int)
    requires id in s.idToHdl
    ensures Sent(s.idToHdl[id], Roster(RosterOf(s.reg.members))) in Broadcast(s)
  {
    var ids := SortedKeys(s.idToHdl.Keys);
    var i :| 0 <= i < |ids| && ids[i] == id;
    assert Broadcast(s)[i] == Sent(s.idToHdl[id], Roster(RosterOf(s.reg.members)));
  }

  // Each step sends only the roster of the state it leaves behind.
  lemma StepSendsNewRoster(s: Server, e: Event, x: Sent)
    requires x in Step(s, e).1 && x.msg.Roster?
    ensures x.msg.peers == RosterOf(Step(s, e).0.reg.members)
  {
    hide Broadcast, RosterOf, Registered, Called, HungUp, Removed, CallOutcome, PeerOf, Paired;
    BroadcastContents(Step(s, e).0);
    if x !in Broadcast(Step(s, e).0) {
      assert e.Received? && e.req.GetRoster?;
    }
  }

  // A step that changes the members or the connections tells every connection.
  lemma ChangeIsBroadcast(s: Server, e: Event)
    requires RegInv(s.reg)
    ensures var s' := Step(s, e).0;
            (s'.reg.members == s.reg.members && s'.idToHdl == s.idToHdl)
            || (forall x :: x in Broadcast(s') ==> x in Step(s, e).1)
  {
    hide Broadcast, RosterOf, Called, HungUp, Removed, CallOutcome, PeerOf, Paired, SendTo;
  }

  lemma RosterStep(s: Server, e: Event, log: seq<Sent>, id: int)
    requires Inv(s) && id in Step(s, e).0.idToHdl
    requires id in s.idToHdl ==> LastRoster(log, s.idToHdl[id]) == Some(RosterOf(s.reg.members))
    ensures var s' := Step(s, e).0;
            LastRoster(log + Step(s, e).1, s'.idToHdl[id]) == Some(RosterOf(s'.reg.members))
  {
    var (s', out) := Step(s, e);
    var h := s'.idToHdl[id];
    forall x | x in out && x.hdl == h && x.msg.Roster? ensures x.msg.peers == RosterOf(s'.reg.members) {
      StepSendsNewRoster(s, e, x);
    }
    LastAfter(log, out, h, RosterOf(s'.reg.members));
    ChangeIsBroadcast(s, e);
    BroadcastReaches(s', id);
  }

  // After every handler of every run, the last roster each registered connection
  // was sent is the current one.
  lemma {:induction false} PushedRosterIsCurrent(es: seq<Event>, id: int)
    requires id in Run(es).idToHdl
    ensures LastRoster(Log(es), Run(es).idToHdl[id]) == Some(RosterOf(Run(es).reg.members))
  {
    var n := |es| - 1;
    var pre := es[..n];
    RunInv(pre);
    if id in Run(pre).idToHdl {
      PushedRosterIsCurrent(pre, id);
    }
    RosterStep(Run(pre), es[n], Log(pre), id);
  }

  // ---------- Ids ----------

  lemma WelcomeStep(s: Server, e: Event, x: Sent)
    requires x in Step(s, e).1 && x.msg.Welcome?
    ensures x.msg.id == s.reg.nextId && Step(s, e).0.reg.nextId == s.reg.nextId + 1
    ensures x == Step(s, e).1[0]
  {
    hide Broadcast, RosterOf, Called, HungUp, Removed, CallOutcome, PeerOf, Paired;
    BroadcastContents(Step(s, e).0);
    assert e.Received? && e.req.RegisterAs?;
  }

  lemma {:induction false} WelcomeIdsBelowNext(es: seq<Event>, i: nat)
    requires i < |Log(es)| && Log(es)[i].msg.Welcome?
    ensures Log(es)[i].msg.id < Run(es).reg.nextId
  {
    var n := |es| - 1;
    var pre := es[..n];
    if i < |Log(pre)| {
      WelcomeIdsBelowNext(pre, i);
      NextIdGrows(Run(pre), es[n]);
    } else {
      WelcomeStep(Run(pre), es[n], Log(es)[i]);
    }
  }

  lemma NextIdGrows(s: Server, e: Event)
    ensures s.reg.nextId <= Step(s, e).0.reg.nextId
  {
  }

  // Ids are handed out in strictly increasing order over the whole run, so none
  // is ever given twice, not even after its owner has left.
  lemma {:induction false} IdsNeverReused(es: seq<Event>, i: nat, j: nat)
    requires i < j < |Log(es)| && Log(es)[i].msg.Welcome? && Log(es)[j].msg.Welcome?
    ensures Log(es)[i].msg.id < Log(es)[j].msg.id
  {
    var n := |es| - 1;
    var pre := es[..n];
    if j < |Log(pre)| {
      IdsNeverReused(pre, i, j);
    } else {
      WelcomeStep(Run(pre), es[n], Log(es)[j]);
      if i < |Log(pre)| {
        WelcomeIdsBelowNext(pre, i);
      } else {
        WelcomeOnce(Run(pre), es[n], i - |Log(pre)|, j - |Log(pre)|);
      }
    }
  }

  lemma WelcomeOnce(s: Server, e: Event, i: nat, j: nat)
    requires i < |Step(s, e).1| && j < |Step(s, e).1|
    requires Step(s, e).1[i].msg.Welcome? && Step(s, e).1[j].msg.Welcome?
    ensures i == j
  {
    BroadcastContents(Step(s, e).0);
    hide Broadcast, RosterOf, Called, HungUp, Removed, CallOutcome, PeerOf, Paired;
  }

  // ---------- No send is lost to a missing connection ----------

  // The id a handler looks up to send to, if it does.
  ghost function Addressee(s: Server, e: Event): Option<int> {
    match e
    case Received(h, req, _) =>
      if h !in s.hdlToId then None
      else
        var self := s.hdlToId[h];
        (match req
         case Relay(CallRelay, to, _) => if CallOutcome(s.reg, self, to) == Ok then Some(to) else None
         case Relay(_, to, _) => if Paired(s.reg, self, to) then Some(to) else None
         case Text(to, _) => if to in s.reg.members then Some(to) else None
         case Leave => if PeerOf(s.reg, self) != 0 then Some(PeerOf(s.reg, self)) else None
         case _ => None)
    case Closed(h) =>
      if h in s.hdlToId && PeerOf(s.reg, s.hdlToId[h]) != 0 then Some(PeerOf(s.reg, s.hdlToId[h])) else None
    case _ => None
  }

  lemma AddresseePresent(s: Server, e: Event)
    requires Inv(s) && Addressee(s, e).Some?
    ensures Addressee(s, e).value in Step(s, e).0.idToHdl
    ensures e.Received? ==> Step(s, e).0.idToHdl == s.idToHdl
  {
    hide Broadcast, RosterOf, Called, HungUp, Registered, NamesMatch;
  }

  lemma AddresseeIsSentTo(s: Server, e: Event)
    requires Addressee(s, e).Some? && Addressee(s, e).value in Step(s, e).0.idToHdl
    requires e.Received? ==> Step(s, e).0.idToHdl == s.idToHdl
    ensures exists x :: x in Step(s, e).1 && x.hdl == Step(s, e).0.idToHdl[Addressee(s, e).value] && !x.msg.Roster?
  {
  }

  // In every reachable state every lookup finds a connection, and the message for
  // that member is on the wire.
  lemma EveryLookupFinds(es: seq<Event>, e: Event)
    requires Addressee(Run(es), e).Some?
    ensures var s, s' := Run(es), Step(Run(es), e).0;
            Addressee(s, e).value in s'.idToHdl
            && exists x :: x in Step(s, e).1 && x.hdl == s'.idToHdl[Addressee(s, e).value] && !x.msg.Roster?
  {
    hide Step, Addressee, Run;
    RunInv(es);
    AddresseePresent(Run(es), e);
    AddresseeIsSentTo(Run(es), e);
  }
}
