/** The client over whole calls and sign-ins: whom messages go to, which request each step
    puts on the wire, and what is never sent any more. */
module ClientLife {
  import opened OutgoingQueue

  // ---------- Whom the engine is talking to, read off the events ----------

  // A first message may come from a peer for which no peer connection can be made.
  datatype Talk = Nobody | FirstMessage(peer: int) | InCallWith(peer: int)

  // The first peer called since the last end; a second call during a call is ignored.
  function TalkAfter(es: seq<Event>): Talk {
    if es == [] then Nobody else NextTalk(TalkAfter(es[..|es| - 1]), es[|es| - 1])
  }

  function NextTalk(t: Talk, e: Event): Talk {
    match e
    case Disconnected => Nobody
    case PeerLeft => Nobody
    case Shutdown(_) => Nobody
    case Deleted => Nobody
    case Call(peer) => if t.InCallWith? then t else InCallWith(peer)
    case InitFailed(peer, deleted, _) => if t.InCallWith? then t else if deleted then Nobody else FirstMessage(peer)
    case ControlClosed(_) => if t.FirstMessage? then Nobody else t
    case _ => t
  }

  function PeerIn(t: Talk): int { if t == Nobody then -1 else t.peer }

  ghost predicate TalksTo(s: Engine, t: Talk) { (s.inCall <==> t.InCallWith?) && s.peerId == PeerIn(t) }

  lemma TalkStep(s: Engine, t: Talk, e: Event)
    requires TalksTo(s, t)
    ensures TalksTo(Step(s, e), NextTalk(t, e))
  {
    hide SignedOut, Answered, SigningInAgain, SentHangUp, SentToPeer, Shut;
  }

  // Over every run, the engine is in a call with exactly that peer.
  lemma {:induction false} TalkOfRun(es: seq<Event>)
    ensures Run(es).inCall <==> TalkAfter(es).InCallWith?
    ensures Run(es).peerId == PeerIn(TalkAfter(es))
  {
    if es != [] {
      hide Step, NextTalk;
      var front := es[..|es| - 1];
      TalkOfRun(front);
      TalkStep(Run(front), TalkAfter(front), es[|es| - 1]);
    }
  }

  // ---------- What each step puts on the wire ----------

  // The request for which the step starts a connection, if it starts one.
  function Started(s: Engine, e: Event): seq<Request> {
    var after := Step(s, e).client.wire;
    if |after| > |s.client.wire| then [after[|after| - 1]] else []
  }

  // A step starts at most one connection, and the wire forgets nothing.
  lemma StartedOne(s: Engine, e: Event)
    ensures Step(s, e).client.wire == s.client.wire + Started(s, e)
  {
    if e.Send? || e.ControlClosed? {
      OneBySending(s, e);
    } else {
      OneOtherwise(s, e);
    }
    hide Step, Started;
  }

  lemma OneBySending(s: Engine, e: Event)
    requires e.Send? || e.ControlClosed?
    ensures Step(s, e).client.wire == s.client.wire + Started(s, e)
  {
  }

  lemma OneOtherwise(s: Engine, e: Event)
    requires !e.Send? && !e.ControlClosed?
    ensures Step(s, e).client.wire == s.client.wire + Started(s, e)
  {
    hide Popped;
  }

  // A sign-in is started by connecting while not connected and by a retry while not
  // closed, and by nothing else.
  lemma SignInStartedIff(s: Engine, e: Event)
    ensures SignIn in Started(s, e) <==>
            || (e.Connect? && e.ok && s.client.phase == NotConnected)
            || (e.Retry? && e.ok && s.client.phase != NotConnected)
  {
  }

  // A hang-up is started by hanging up in a call, signed in, under the client's id.
  lemma HangupStartedIff(s: Engine, e: Event, id: int)
    ensures Hangup(id) in Started(s, e) <==>
            e.HangUp? && e.ok && s.inCall && s.client.phase == Connected && s.client.myId == id && id != -1
  {
  }

  // A message is started by sending or by the close of the socket, for the peer the
  // engine talks to and under the client's id, the oldest waiting one first.
  lemma MessageStartedIff(s: Engine, e: Event, id: int, peer: int, body: string)
    ensures ToPeer(id, peer, body) in Started(s, e) <==>
            && s.client.phase == Connected && s.client.myId == id && id != -1 && s.peerId == peer && peer != -1
            && ((e.Send? && e.ok && s.client.control == Closed && body == (s.pending + [e.body])[0])
                || (e.ControlClosed? && e.ok && s.pending != [] && body == s.pending[0]))
  {
  }

  // A sign-out is started, under the client's id, while the control socket is free and
  // none is under way: by the user, by the end of the engine, by a first message that
  // cannot be served, by the answer that a waiting sign-out has been waiting for, or by
  // a message that cannot be sent because the client is not connected.
  lemma SignOutStartedIff(s: Engine, e: Event, id: int)
    ensures SignOut(id) in Started(s, e) <==> StartsSignOut(s, e, id)
  {
    if e.Send? || e.ControlClosed? {
      SignOutBySending(s, e, id);
    } else {
      SignOutOtherwise(s, e, id);
    }
    hide Started, StartsSignOut;
  }

  predicate StartsSignOut(s: Engine, e: Event, id: int) {
    && s.client.myId == id && id != -1 && !s.client.phase.NotConnected? && !s.client.phase.SigningOut?
    && match e
       case LogOff(ok) => ok && s.client.control == Closed
       case Shutdown(ok) => ok && s.client.control == Closed
       case InitFailed(_, _, ok) => ok && s.client.control == Closed && !s.inCall
       case Responded(_, ok) => ok && s.client.control == Closed && s.client.phase == SigningOutWaiting
       case Send(_, ok) => ok && s.client.control == Closed && s.client.phase != Connected && s.peerId != -1
       case ControlClosed(ok) => ok && s.pending != [] && s.client.phase != Connected && s.peerId != -1
       case _ => false
  }

  lemma SignOutBySending(s: Engine, e: Event, id: int)
    requires e.Send? || e.ControlClosed?
    ensures SignOut(id) in Started(s, e) <==> StartsSignOut(s, e, id)
  {
  }

  lemma SignOutOtherwise(s: Engine, e: Event, id: int)
    requires !e.Send? && !e.ControlClosed?
    ensures SignOut(id) in Started(s, e) <==> StartsSignOut(s, e, id)
  {
    hide Popped;
  }

  // The client goes over to signing out when a sign-out is started, and when the engine
  // ends or a first message cannot be served before it has an id: then without a request.
  lemma SigningOutIff(s: Engine, e: Event)
    requires s.client.phase != SigningOut
    ensures Step(s, e).client.phase == SigningOut <==> GoesOver(s, e)
  {
    if e.Send? || e.ControlClosed? {
      GoesOverBySending(s, e);
    } else {
      GoesOverOtherwise(s, e);
    }
    hide Step, GoesOver;
  }

  predicate GoesOver(s: Engine, e: Event) {
    || SignOut(s.client.myId) in Started(s, e)
    || (s.client.myId == -1 && s.client.phase != NotConnected && s.client.control == Closed
        && (e.Shutdown? || (e.InitFailed? && !s.inCall)))
  }

  lemma GoesOverBySending(s: Engine, e: Event)
    requires s.client.phase != SigningOut && (e.Send? || e.ControlClosed?)
    ensures Step(s, e).client.phase == SigningOut <==> GoesOver(s, e)
  {
  }

  lemma GoesOverOtherwise(s: Engine, e: Event)
    requires s.client.phase != SigningOut && !e.Send? && !e.ControlClosed?
    ensures Step(s, e).client.phase == SigningOut <==> GoesOver(s, e)
  {
  }

  // A message is taken off the queue and put on no wire exactly when it is its turn and
  // the client is not signed in, has nobody to send it to, or cannot connect.
  lemma MessageDroppedIff(s: Engine, e: Event)
    ensures |Step(s, e).handed| == |s.handed| + 1 && !HasMessage(Started(s, e)) <==>
            && ((e.Send? && (s.client.phase != Connected || s.client.control == Closed))
                || (e.ControlClosed? && s.pending != []))
            && (s.client.phase != Connected || s.client.myId == -1 || s.peerId == -1 || !e.ok)
  {
    var after := Step(s, e).client.wire;
    if after != [] {
      OneMessage(after[|after| - 1]);
    }
  }

  lemma OneMessage(r: Request)
    ensures HasMessage([r]) <==> r.ToPeer?
  {
    assert r in [r];
  }

  // The client's id is the one its first answer gave, until the client is closed: no
  // later answer changes it, not even to a sign-in that was sent again.
  lemma IdKept(s: Engine, e: Event)
    ensures var id := Step(s, e).client.myId;
            || id == s.client.myId
            || (id == -1 && Step(s, e).client.phase == NotConnected)
            || (s.client.myId == -1 && e.Responded? && id == e.id)
    ensures e.Responded? && s.client.myId == -1 ==> Step(s, e).client.myId == e.id
  {
  }

  // The same event with a connect that fails.
  function Failing(e: Event): Event {
    match e
    case Connect(_) => Connect(false)
    case Retry(_) => Retry(false)
    case Responded(id, _) => Responded(id, false)
    case Send(body, _) => Send(body, false)
    case ControlClosed(_) => ControlClosed(false)
    case HangUp(_) => HangUp(false)
    case LogOff(_) => LogOff(false)
    case InitFailed(peer, deleted, _) => InitFailed(peer, deleted, false)
    case Shutdown(_) => Shutdown(false)
    case _ => e
  }

  // Wherever a step starts a connection, a failing connect closes the client instead: it
  // is signed in nowhere and knows nobody.
  lemma FailedConnectCloses(s: Engine, e: Event)
    requires Started(s, e) != []
    ensures Step(s, Failing(e)).client == Client(NotConnected, -1, Closed, s.client.wire, map[])
  {
    if e.Send? || e.ControlClosed? {
      FailsBySending(s, e);
    } else {
      FailsOtherwise(s, e);
    }
    hide Step, Started;
  }

  lemma FailsBySending(s: Engine, e: Event)
    requires (e.Send? || e.ControlClosed?) && Started(s, e) != []
    ensures Step(s, Failing(e)).client == Client(NotConnected, -1, Closed, s.client.wire, map[])
  {
  }

  lemma FailsOtherwise(s: Engine, e: Event)
    requires !e.Send? && !e.ControlClosed? && Started(s, e) != []
    ensures Step(s, Failing(e)).client == Client(NotConnected, -1, Closed, s.client.wire, map[])
  {
    hide Popped;
  }

  // Over every run: a message goes on the wire only for the peer that was called first
  // since the last end (or whose first message came), under the client's own id.
  lemma MessagesFollowCalls(es: seq<Event>, e: Event, r: Request)
    requires r.ToPeer? && r in Started(Run(es), e)
    ensures TalkAfter(es) != Nobody && r.peer == TalkAfter(es).peer && r.id == Run(es).client.myId
  {
    TalkOfRun(es);
    hide Step, Run, Started;
    MessageStartedIff(Run(es), e, r.id, r.peer, r.body);
  }

  // ---------- A call from its start ----------

  // Signed in, with no call and nothing stranded.
  predicate Ready(s: Engine) { s.client.phase == Connected && s.client.myId != -1 && !s.inCall && !Stranded(s) }

  lemma RunConcat(s: Engine, a: seq<Event>, b: seq<Event>)
    ensures RunFrom(s, a + b) == RunFrom(RunFrom(s, a), b)
  {
    if b == [] {
      assert a + b == a;
    } else {
      assert (a + b)[..|a + b| - 1] == a + b[..|b| - 1];
      RunConcat(s, a, b[..|b| - 1]);
    }
  }

  lemma RunOne(s: Engine, e: Event)
    ensures RunFrom(s, [e]) == Step(s, e)
  {
    assert [e][..0] == [];
  }

  lemma CallBegins(s: Engine, peer: int)
    requires Ready(s) && peer != -1
    ensures var t := Step(s, Call(peer));
            && Talking(t) && !Stranded(t) && t.peerId == peer && t.client == s.client && t.pending == s.pending
  {
  }

  // Calling a peer and then sending, as long as connects succeed: every message that goes
  // on the wire from then on is for that peer, and their bodies followed by the queue are
  // the messages that waited and those sent, in order.
  lemma CallReachesPeer(s: Engine, peer: int, es: seq<Event>)
    requires Ready(s) && peer != -1 && forall e :: e in es ==> CallEvent(e)
    ensures var t := RunFrom(s, [Call(peer)] + es);
            && s.client.wire <= t.client.wire
            && (forall r :: r in t.client.wire[|s.client.wire|..] && r.ToPeer? ==>
                  r.peer == peer && r.id == s.client.myId)
            && Bodies(t.client.wire[|s.client.wire|..]) + t.pending == s.pending + Enqueued(es)
  {
    CallBegins(s, peer);
    RunConcat(s, [Call(peer)], es);
    RunOne(s, Call(peer));
    hide Step, Ready, Talking, Stranded, RunFrom, Bodies, Enqueued;
    CallDeliversInOrder(Step(s, Call(peer)), es);
  }

  // Calling somebody else during the call changes none of it.
  lemma SecondCallIgnored(s: Engine, peer: int, es: seq<Event>, other: int, more: seq<Event>)
    requires Ready(s) && peer != -1 && forall e :: e in es ==> CallEvent(e)
    ensures RunFrom(s, [Call(peer)] + es + [Call(other)] + more) == RunFrom(s, [Call(peer)] + es + more)
  {
    var call := [Call(peer)] + es;
    CallBegins(s, peer);
    RunConcat(s, [Call(peer)], es);
    RunOne(s, Call(peer));
    RunConcat(s, call + [Call(other)], more);
    RunConcat(s, call, [Call(other)]);
    RunConcat(s, call, more);
    RunOne(RunFrom(s, call), Call(other));
    CallIgnored(RunFrom(s, call), other);
    hide Step, Ready, Stranded, RunFrom;
    CallDeliversInOrder(Step(s, Call(peer)), es);
    assert Talking(RunFrom(s, call));
  }

  lemma CallIgnored(s: Engine, other: int)
    ensures Talking(s) ==> Step(s, Call(other)) == s
  {
  }

  // ---------- What is over ----------

  // What empties the queue: the end of the engine, of the connection or of the call, and
  // the clearing that follows when the peer has left.
  predicate Clears(e: Event) {
    e.Deleted? || e.Disconnected? || e.Shutdown? || e.Cleared? || (e.InitFailed? && e.deleted)
  }

  predicate HasMessage(wire: seq<Request>) { exists r :: r in wire && r.ToPeer? }

  lemma NoSendNoMessage(s: Engine, e: Event)
    requires s.pending == [] && !e.Send?
    ensures Step(s, e).pending == [] && !HasMessage(Started(s, e))
  {
  }

  // Without a new message nothing of the old call goes on the wire any more, whatever
  // else happens, in the next call either.
  lemma {:induction false} NothingComesBack(s: Engine, e: Event, es: seq<Event>)
    requires Clears(e) && (e.InitFailed? ==> !s.inCall) && forall x :: x in es ==> !x.Send?
    ensures var after, t := Step(s, e), RunFrom(Step(s, e), es);
            t.pending == [] && after.client.wire <= t.client.wire
            && !HasMessage(t.client.wire[|after.client.wire|..])
  {
    var after := Step(s, e);
    if es == [] {
      assert after.client.wire[|after.client.wire|..] == [];
    } else {
      var front, x := es[..|es| - 1], es[|es| - 1];
      assert x in es && forall y :: y in front ==> y in es;
      NothingComesBack(s, e, front);
      var m := RunFrom(after, front);
      NoSendNoMessage(m, x);
      StartedOne(m, x);
      hide Step, Started;
      var n := |after.client.wire|;
      assert Step(m, x).client.wire[n..] == m.client.wire[n..] + Started(m, x);
    }
  }

  // ---------- Signing out ----------

  // What may happen while the answer to a sign-out is awaited.
  predicate Idle(e: Event) {
    || e.Send? || e.Call? || e.HangUp? || e.LogOff? || e.Shutdown? || e.InitFailed? || e.Connect? || e.Cleared?
    || e.Deleted?
  }

  lemma SilentStep(s: Engine, e: Event)
    requires s.client.phase == SigningOut && Idle(e)
    ensures Step(s, e).client == s.client
  {
  }

  // A client that signs off with a free control socket asks the server to sign its own id
  // out, and until the answer comes nothing else goes on the wire, whatever is sent or
  // asked for meanwhile; the answer leaves it connected under the same id.
  lemma {:induction false} SigningOutIsSilent(s: Engine, es: seq<Event>, id: int, ok: bool)
    requires s.client.phase == Connected && s.client.myId != -1 && s.client.control == Closed
    requires forall e :: e in es ==> Idle(e)
    ensures var t := RunFrom(Step(s, LogOff(true)), es);
            && t.client == s.client.(phase := SigningOut, control := Busy(SignOut(s.client.myId)),
                                     wire := s.client.wire + [SignOut(s.client.myId)])
            && Step(t, Responded(id, ok)).client == t.client.(phase := Connected)
  {
    if es != [] {
      var front, e := es[..|es| - 1], es[|es| - 1];
      assert e in es && forall y :: y in front ==> y in es;
      SigningOutIsSilent(s, front, id, ok);
      SilentStep(RunFrom(Step(s, LogOff(true)), front), e);
    }
  }
}
