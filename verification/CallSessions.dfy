/** Calls as they appear in a run: when two members are in a session, what may be
    relayed between them, and how a session ends. The definitions look only at
    events and at what was sent, never at the registry's busy flags. */
module CallSessions {
  import opened Registry
  import opened Signaling

  // ---------- Sessions, read off the run ----------

  // Handling e in state s put a call of a through to b.
  ghost predicate Accepts(s: Server, e: Event, a: int, b: int) {
    match e
    case Received(h, Relay(CallRelay, to, body), _) =>
      h in s.hdlToId && s.hdlToId[h] == a && to == b && b in s.idToHdl
      && Sent(s.idToHdl[b], Forwarded(CallRelay, a, b, body)) in Step(s, e).1
    case _ => false
  }

  // e is a leave by a, or the loss of a's connection.
  ghost predicate EndsFor(s: Server, e: Event, a: int) {
    match e
    case Received(h, Leave, _) => h in s.hdlToId && s.hdlToId[h] == a
    case Closed(h) => h in s.hdlToId && s.hdlToId[h] == a
    case _ => false
  }

  ghost predicate JoinsAt(es: seq<Event>, k: nat, a: int, b: int)
    requires k < |es|
  {
    Accepts(Run(es[..k]), es[k], a, b) || Accepts(Run(es[..k]), es[k], b, a)
  }

  ghost predicate EndsAt(es: seq<Event>, k: nat, a: int)
    requires k < |es|
  {
    EndsFor(Run(es[..k]), es[k], a)
  }

  // An accepted call joined a and b, and neither has left or dropped since.
  ghost predicate InSession(es: seq<Event>, a: int, b: int) {
    exists k :: 0 <= k < |es| && JoinsAt(es, k, a, b)
                && forall j :: k < j < |es| ==> !EndsAt(es, j, a) && !EndsAt(es, j, b)
  }

  lemma SessionStep(es: seq<Event>, a: int, b: int)
    requires es != []
    ensures var n := |es| - 1;
            InSession(es, a, b) <==>
            JoinsAt(es, n, a, b) || (InSession(es[..n], a, b) && !EndsAt(es, n, a) && !EndsAt(es, n, b))
  {
    hide Accepts, EndsFor, Run;
    var n := |es| - 1;
    var pre := es[..n];
    forall k | 0 <= k < n ensures pre[..k] == es[..k] {}
    assert forall k :: 0 <= k < n ==> JoinsAt(pre, k, a, b) == JoinsAt(es, k, a, b);
    assert forall k :: 0 <= k < n ==> EndsAt(pre, k, a) == EndsAt(es, k, a);
    assert forall k :: 0 <= k < n ==> EndsAt(pre, k, b) == EndsAt(es, k, b);
    if InSession(es, a, b) {
      var k :| 0 <= k < |es| && JoinsAt(es, k, a, b)
               && forall j :: k < j < |es| ==> !EndsAt(es, j, a) && !EndsAt(es, j, b);
      if k < n { assert JoinsAt(pre, k, a, b); }
    }
    if InSession(pre, a, b) && !EndsAt(es, n, a) && !EndsAt(es, n, b) {
      var k :| 0 <= k < |pre| && JoinsAt(pre, k, a, b)
               && forall j :: k < j < |pre| ==> !EndsAt(pre, j, a) && !EndsAt(pre, j, b);
      assert JoinsAt(es, k, a, b);
    }
  }

  // ---------- One step ----------

  lemma BroadcastIsRosters(s: Server)
    ensures forall x :: x in Broadcast(s) ==> x.msg.Roster?
  {
  }

  // A call is put through exactly when the registry accepts it.
  lemma AcceptsIffOk(s: Server, h: Hdl, to: int, body: string, now: int, a: int, b: int)
    requires Inv(s)
    ensures Accepts(s, Received(h, Relay(CallRelay, to, body), now), a, b) <==>
            h in s.hdlToId && s.hdlToId[h] == a && to == b && CallOutcome(s.reg, a, b) == Ok
  {
  }

  lemma CallChangesPairing(r: Reg, caller: int, target: int, a: int, b: int)
    requires RegInv(r)
    ensures Paired(Called(r, caller, target), a, b) <==>
            Paired(r, a, b) || (CallOutcome(r, caller, target) == Ok && {a, b} == {caller, target} && a != b)
  {
  }

  lemma HangupChangesPairing(r: Reg, self: int, a: int, b: int)
    requires RegInv(r) && PeerOf(r, self) != 0
    ensures Paired(HungUp(r, self, PeerOf(r, self)), a, b) <==> Paired(r, a, b) && self != a && self != b
  {
  }

  lemma RemoveChangesPairing(r: Reg, id: int, a: int, b: int)
    requires RegInv(r)
    ensures Paired(Removed(r, id), a, b) <==> Paired(r, a, b) && id != a && id != b
  {
  }

  lemma PairingStep(s: Server, e: Event, a: int, b: int)
    requires Inv(s)
    ensures Paired(Step(s, e).0.reg, a, b) <==>
            Accepts(s, e, a, b) || Accepts(s, e, b, a)
            || (Paired(s.reg, a, b) && !EndsFor(s, e, a) && !EndsFor(s, e, b))
  {
    hide Broadcast, RosterOf, NamesMatch;
    match e
    case Received(h, RegisterAs(name), now) =>
      assert Paired(Registered(s.reg, name).0, a, b) <==> Paired(s.reg, a, b);
    case Received(h, Relay(CallRelay, to, body), now) =>
      AcceptsIffOk(s, h, to, body, now, a, b);
      AcceptsIffOk(s, h, to, body, now, b, a);
      if h in s.hdlToId {
        CallChangesPairing(s.reg, s.hdlToId[h], to, a, b);
      }
    case Received(h, Leave, now) =>
      if h in s.hdlToId && PeerOf(s.reg, s.hdlToId[h]) != 0 {
        HangupChangesPairing(s.reg, s.hdlToId[h], a, b);
      }
    case Closed(h) =>
      if h in s.hdlToId {
        RemoveChangesPairing(s.reg, s.hdlToId[h], a, b);
      }
    case _ =>
  }

  // ---------- Whole runs ----------

  // The registry pairs a with b exactly while the run has them in a session.
  lemma {:induction false} PairedIffInSession(es: seq<Event>, a: int, b: int)
    ensures Paired(Run(es).reg, a, b) <==> InSession(es, a, b)
  {
    if es != [] {
      var n := |es| - 1;
      RunInv(es[..n]);
      PairedIffInSession(es[..n], a, b);
      SessionStep(es, a, b);
      PairingStep(Run(es[..n]), es[n], a, b);
    }
  }

  // Nobody is in a session with themselves or with two others.
  lemma SessionsAreExclusive(es: seq<Event>, a: int, b: int, c: int)
    requires InSession(es, a, b)
    ensures a != b && InSession(es, b, a)
    ensures InSession(es, a, c) ==> c == b
  {
    RunInv(es);
    PairedIffInSession(es, a, b);
    PairedIffInSession(es, b, a);
    PairedIffInSession(es, a, c);
  }

  // An answer or candidate reaches its target exactly when it falls inside a
  // session of sender and target; then it is sent once, to the target's own
  // connection, stamped with the sender's id. Otherwise nothing is sent.
  lemma RelayedExactlyInSession(es: seq<Event>, i: nat, h: Hdl, kind: RelayKind, to: int, body: string, now: int)
    requires i < |es| && es[i] == Received(h, Relay(kind, to, body), now) && kind != CallRelay
    ensures var s := Run(es[..i]);
            if h in s.hdlToId && InSession(es[..i], s.hdlToId[h], to)
            then to in s.idToHdl && Outs(es, i) == [Sent(s.idToHdl[to], Forwarded(kind, s.hdlToId[h], to, body))]
            else Outs(es, i) == []
  {
    var s := Run(es[..i]);
    RunInv(es[..i]);
    if h in s.hdlToId {
      PairedIffInSession(es[..i], s.hdlToId[h], to);
    }
  }

  // Only a relay request puts a forwarded message on the wire.
  lemma ForwardedStep(s: Server, e: Event, x: Sent)
    requires x in Step(s, e).1 && x.msg.Forwarded? && x.msg.kind != CallRelay
    ensures e.Received? && e.req.Relay? && e.req.kind != CallRelay && e.hdl in s.hdlToId
    ensures Paired(s.reg, s.hdlToId[e.hdl], e.req.to)
    ensures x in SendTo(s, e.req.to, Forwarded(e.req.kind, s.hdlToId[e.hdl], e.req.to, e.req.body))
  {
    hide Broadcast, RosterOf, Called, HungUp, Removed, Registered, CallOutcome, PeerOf, Paired;
    BroadcastIsRosters(Step(s, e).0);
  }

  // Conversely, every answer or candidate on the wire was sent that way.
  lemma ForwardedOnlyInSession(es: seq<Event>, i: nat, x: Sent)
    requires i < |es| && x in Outs(es, i) && x.msg.Forwarded? && x.msg.kind != CallRelay
    ensures InSession(es[..i], x.msg.from, x.msg.to)
    ensures var s := Run(es[..i]);
            && es[i].Received? && es[i].hdl in s.hdlToId && s.hdlToId[es[i].hdl] == x.msg.from
            && x.msg.to in s.idToHdl && x.hdl == s.idToHdl[x.msg.to]
  {
    ForwardedStep(Run(es[..i]), es[i], x);
    PairedIffInSession(es[..i], x.msg.from, x.msg.to);
  }

  lemma EndingStep(s: Server, e: Event, a: int, b: int)
    requires Inv(s) && Paired(s.reg, a, b) && EndsFor(s, e, a)
    ensures var s' := Step(s, e).0;
            && a in s.idToHdl && b in s'.idToHdl && s'.idToHdl[b] != s.idToHdl[a]
            && Step(s, e).1 == (if e.Closed? then [Sent(s'.idToHdl[b], PeerGone(a))]
                                else [Sent(s.idToHdl[a], LeaveFrom(a)), Sent(s'.idToHdl[b], LeaveFrom(a))])
                               + Broadcast(s')
    ensures !Paired(Step(s, e).0.reg, a, b)
  {
    hide Broadcast, RosterOf, NamesMatch;
    if e.Closed? {
      assert PeerOf(s.reg, a) == b;
    }
  }

  // The end of a session: a leave is announced once to each side, a drop once to
  // the side that remains; all else sent at that moment is the new roster, and
  // the session is over.
  lemma EndingIsAnnounced(es: seq<Event>, i: nat, a: int, b: int)
    requires i < |es| && InSession(es[..i], a, b) && EndsAt(es, i, a)
    ensures var s, s' := Run(es[..i]), Run(es[..i + 1]);
            && a in s.idToHdl && b in s'.idToHdl && s'.idToHdl[b] != s.idToHdl[a]
            && Outs(es, i) == (if es[i].Closed? then [Sent(s'.idToHdl[b], PeerGone(a))]
                               else [Sent(s.idToHdl[a], LeaveFrom(a)), Sent(s'.idToHdl[b], LeaveFrom(a))])
                              + Broadcast(s')
    ensures !InSession(es[..i + 1], a, b)
  {
    var s := Run(es[..i]);
    RunInv(es[..i]);
    PairedIffInSession(es[..i], a, b);
    EndingStep(s, es[i], a, b);
    RunStep(es, i);
    PairedIffInSession(es[..i + 1], a, b);
  }

  lemma AnnouncementStep(s: Server, e: Event, x: Sent)
    requires Inv(s) && x in Step(s, e).1 && (x.msg.LeaveFrom? || x.msg.PeerGone?)
    ensures EndsFor(s, e, x.msg.from) && Paired(s.reg, x.msg.from, PeerOf(s.reg, x.msg.from))
  {
    hide Broadcast, RosterOf, NamesMatch, Called, HungUp, Removed, CallOutcome, Registered;
    BroadcastIsRosters(Step(s, e).0);
  }

  // Conversely, a leave or peer_gone on the wire tells of a session's end, and names
  // the member that ended it.
  lemma AnnouncedOnlyAtEnd(es: seq<Event>, i: nat, x: Sent)
    requires i < |es| && x in Outs(es, i) && (x.msg.LeaveFrom? || x.msg.PeerGone?)
    ensures EndsAt(es, i, x.msg.from) && exists b :: InSession(es[..i], x.msg.from, b)
  {
    hide Step, InSession, Run;
    RunInv(es[..i]);
    AnnouncementStep(Run(es[..i]), es[i], x);
    PairedIffInSession(es[..i], x.msg.from, PeerOf(Run(es[..i]).reg, x.msg.from));
  }
}
