/** The engine's outgoing message queue on top of the client's single control socket.
    One handler of the signaling thread is one step. */
module OutgoingQueue {

  // What the client writes on a fresh control connection.
  datatype Request = SignIn | SignOut(id: int) | Hangup(id: int) | ToPeer(id: int, peer: int, body: string)

  datatype Phase = NotConnected | SigningIn | Connected | SigningOutWaiting | SigningOut

  // CS_CLOSED, or connecting or open on behalf of a request.
  datatype Control = Closed | Busy(request: Request)

  // wire lists the requests for which a connection was started.
  datatype Client = Client(phase: Phase, myId: int, control: Control, wire: seq<Request>, peers: map<int, string>)

  // handed and enqueued are kept since the queue was last cleared.
  datatype Engine = Engine(client: Client, pending: seq<string>, peerId: int, inCall: bool,
                           handed: seq<string>, enqueued: seq<string>)

  // ok says whether the connect that the step attempts succeeds.
  datatype Event =
    | Connect(ok: bool)
    | Retry(ok: bool)
    | Responded(id: int, ok: bool)
    | Disconnected
    | Send(body: string, ok: bool)
    | ControlClosed(ok: bool)
    | Refused
    | HangUp(ok: bool)
    | Call(peer: int)
    | PeerLeft
    | LogOff(ok: bool)                 // DisconnectFromServer
    | InitFailed(peer: int, deleted: bool, ok: bool)    // a first message, no peer connection
    | Shutdown(ok: bool)
    | Deleted
    | Cleared

  // ---------- The client ----------

  function Shut(c: Client): Client { c.(phase := NotConnected, myId := -1, control := Closed, peers := map[]) }

  function Connecting(c: Client, request: Request, ok: bool): Client {
    if ok then c.(control := Busy(request), wire := c.wire + [request]) else Shut(c)
  }

  predicate IsSending(c: Client) { c.phase == Connected && c.control != Closed }

  predicate Admits(c: Client, peer: int) { c.phase == Connected && c.myId != -1 && peer != -1 }

  function SentToPeer(c: Client, peer: int, body: string, ok: bool): Client {
    if Admits(c, peer) then Connecting(c, ToPeer(c.myId, peer, body), ok) else c
  }

  function SentHangUp(c: Client, ok: bool): Client {
    if c.phase == Connected && c.myId != -1 then Connecting(c, Hangup(c.myId), ok) else c
  }

  function SignedOut(c: Client, ok: bool): Client {
    if c.phase == NotConnected || c.phase == SigningOut then c
    else if c.control != Closed then c.(phase := SigningOutWaiting)
    else if c.myId != -1 then Connecting(c.(phase := SigningOut), SignOut(c.myId), ok)
    else c.(phase := SigningOut)
  }

  function SigningInAgain(c: Client, ok: bool): Client {
    var d := Connecting(c, SignIn, ok);
    if ok then d.(phase := SigningIn) else d
  }

  // A good response on the control socket.
  function Answered(c: Client, id: int, ok: bool): Client {
    var d := if c.myId == -1 then c.(myId := id)
             else if c.phase == SigningOut then c.(phase := Connected)
             else if c.phase == SigningOutWaiting then SignedOut(c, ok)
             else c;
    if d.phase == SigningIn then d.(phase := Connected) else d
  }

  // ---------- The engine ----------

  // SendToPeer for the head of the queue; on failure the engine signs out, for which
  // DisconnectFromServer needs the client still to be connected.
  function Popped(s: Engine, ok: bool): Engine
    requires s.pending != []
  {
    var c := SentToPeer(s.client, s.peerId, s.pending[0], ok);
    var failed := !(Admits(s.client, s.peerId) && ok) && s.peerId != -1 && c.myId != -1;
    s.(client := if failed then SignedOut(c, ok) else c,
       pending := s.pending[1..], handed := s.handed + [s.pending[0]])
  }

  function Sent(s: Engine, body: string, ok: bool): Engine {
    var t := s.(pending := s.pending + [body], enqueued := s.enqueued + [body]);
    if IsSending(t.client) then t else Popped(t, ok)
  }

  function MessageDone(s: Engine, ok: bool): Engine {
    var t := if s.pending != [] && !IsSending(s.client) then Popped(s, ok) else s;
    if t.inCall then t else t.(peerId := -1)
  }

  function Emptied(s: Engine): Engine { s.(pending := [], handed := [], enqueued := []) }

  function Ended(s: Engine): Engine { Emptied(s).(inCall := false, peerId := -1) }

  function Step(s: Engine, e: Event): Engine {
    match e
    case Connect(ok) =>
      if s.client.phase == NotConnected then s.(client := SigningInAgain(s.client, ok)) else s
    case Retry(ok) =>
      if s.client.phase != NotConnected then s.(client := SigningInAgain(s.client, ok)) else s
    case Responded(id, ok) => s.(client := Answered(s.client, id, ok))
    case Disconnected => Ended(s.(client := Shut(s.client)))
    case Send(body, ok) => Sent(s, body, ok)
    case ControlClosed(ok) => MessageDone(s.(client := s.client.(control := Closed)), ok)
    case Refused => s.(client := s.client.(control := Closed))
    case HangUp(ok) => if s.inCall then s.(client := SentHangUp(s.client, ok)) else s
    case Call(peer) => if s.inCall then s else s.(peerId := peer, inCall := true)
    case PeerLeft => s.(client := Shut(s.client), peerId := -1, inCall := false)
    case LogOff(ok) => if s.client.myId != -1 then s.(client := SignedOut(s.client, ok)) else s
    case InitFailed(peer, deleted, ok) =>
      if s.inCall then s
      else
        var t := if deleted then Ended(s) else s.(peerId := peer);
        t.(client := SignedOut(t.client, ok))
    case Shutdown(ok) => Ended(s.(client := SignedOut(s.client, ok)))
    case Deleted => Ended(s)
    case Cleared => Emptied(s)
  }

  const FRESH := Engine(Client(NotConnected, -1, Closed, [], map[]), [], -1, false, [], [])

  function RunFrom(s: Engine, es: seq<Event>): Engine {
    if es == [] then s else Step(RunFrom(s, es[..|es| - 1]), es[|es| - 1])
  }

  function Run(es: seq<Event>): Engine { RunFrom(FRESH, es) }

  // ---------- Conservation ----------

  predicate Conserved(s: Engine) { s.handed + s.pending == s.enqueued }

  lemma StepConserves(s: Engine, e: Event)
    requires Conserved(s)
    ensures Conserved(Step(s, e))
  {
  }

  // Between clears, over every run: what was handed to the client followed by what
  // waits is what was enqueued, in order.
  lemma {:induction false} NothingReordered(es: seq<Event>)
    ensures Run(es).handed + Run(es).pending == Run(es).enqueued
  {
    if es != [] {
      NothingReordered(es[..|es| - 1]);
      hide Step;
      StepConserves(Run(es[..|es| - 1]), es[|es| - 1]);
    }
  }

  // ---------- In-flight requests ----------

  // What ends a request on the control socket: its own close, or the client giving
  // the socket up.
  predicate Interrupts(e: Event) {
    e.Connect? || e.Retry? || e.Disconnected? || e.ControlClosed? || e.Refused? || e.HangUp? || e.PeerLeft?
  }

  lemma InFlightSurvives(s: Engine, e: Event)
    requires s.client.control.Busy?
    ensures !Interrupts(e) ==> Step(s, e).client.control == s.client.control && Step(s, e).client.wire == s.client.wire
    ensures e.HangUp? ==>
              (Step(s, e).client != s.client <==> s.inCall && s.client.phase == Connected && s.client.myId != -1)
  {
  }

  // However many messages are sent meanwhile, a request in flight stays on the
  // control socket and nothing else is put on the wire until one of those events.
  lemma {:induction false} LaterMessagesWait(s: Engine, es: seq<Event>)
    requires s.client.control.Busy? && forall e :: e in es ==> !Interrupts(e)
    ensures RunFrom(s, es).client.control == s.client.control && RunFrom(s, es).client.wire == s.client.wire
  {
    if es != [] {
      LaterMessagesWait(s, es[..|es| - 1]);
      hide Step;
      InFlightSurvives(RunFrom(s, es[..|es| - 1]), es[|es| - 1]);
    }
  }

  // ---------- Nothing is stranded ----------

  // Messages wait and no close of the control socket is to come that would send them.
  predicate Stranded(s: Engine) { s.pending != [] && s.client.control == Closed }

  predicate Fails(e: Event) {
    match e
    case Connect(ok) => !ok
    case Retry(ok) => !ok
    case Responded(_, ok) => !ok
    case Send(_, ok) => !ok
    case ControlClosed(ok) => !ok
    case HangUp(ok) => !ok
    case _ => false
  }

  // The events that leave messages stranded: a refused connection, the peer's leaving
  // (the posted clearing still to come), a connect that fails and closes the client,
  // and a close of the control socket of which the next message cannot make use.
  predicate Strands(s: Engine, e: Event) {
    var c := s.client;
    && s.pending != []
    && match e
       case Refused => true
       case PeerLeft => true
       case Connect(ok) => c.phase == NotConnected && !ok
       case Retry(ok) => c.phase != NotConnected && !ok
       case HangUp(ok) => s.inCall && c.phase == Connected && c.myId != -1 && !ok
       case ControlClosed(ok) =>
         |s.pending| > 1
         && !(ok && Admits(c, s.peerId))
         && !(ok && s.peerId != -1 && c.myId != -1 && (c.phase == SigningIn || c.phase == SigningOutWaiting))
       case _ => false
  }

  // A step strands messages if and only if it is one of these.
  lemma StrandedIff(s: Engine, e: Event)
    requires !Stranded(s)
    ensures Stranded(Step(s, e)) <==> Strands(s, e)
  {
  }

  lemma RunSplits(s: Engine, es: seq<Event>, k: nat)
    requires k < |es|
    ensures RunFrom(s, es[..k + 1]) == Step(RunFrom(s, es[..k]), es[k])
  {
    assert es[..k + 1][..k] == es[..k];
  }

  // A run that starts with nothing stranded strands messages at some point if and
  // only if one of these events happens in it.
  lemma RunStrandsIff(s: Engine, es: seq<Event>)
    requires !Stranded(s)
    ensures (exists k :: 0 <= k <= |es| && Stranded(RunFrom(s, es[..k])))
            <==> exists k :: 0 <= k < |es| && Strands(RunFrom(s, es[..k]), es[k])
  {
    hide Step, Strands, Stranded;
    if k :| 0 <= k < |es| && Strands(RunFrom(s, es[..k]), es[k]) {
      RunSplits(s, es, k);
      if !Stranded(RunFrom(s, es[..k])) {
        StrandedIff(RunFrom(s, es[..k]), es[k]);
        assert Stranded(RunFrom(s, es[..k + 1]));
      }
    }
    if k :| 0 <= k <= |es| && Stranded(RunFrom(s, es[..k])) {
      FirstStranding(s, es, k);
    }
  }

  lemma {:induction false} FirstStranding(s: Engine, es: seq<Event>, k: nat)
    requires !Stranded(s) && k <= |es| && Stranded(RunFrom(s, es[..k]))
    ensures exists j :: 0 <= j < |es| && Strands(RunFrom(s, es[..j]), es[j])
    decreases k
  {
    hide Step, Strands, Stranded;
    assert k > 0 by { assert es[..0] == []; }
    RunSplits(s, es, k - 1);
    if Stranded(RunFrom(s, es[..k - 1])) {
      FirstStranding(s, es, k - 1);
    } else {
      StrandedIff(RunFrom(s, es[..k - 1]), es[k - 1]);
    }
  }

  // A run from the start that does: the connection carrying the first message is
  // refused while the second one waits.
  lemma RefusedRunStrands()
    ensures var es := [Connect(true), Responded(7, true), ControlClosed(true), Call(3),
                       Send("a", true), Send("b", true), Refused];
            Stranded(Run(es)) && Run(es).pending == ["b"]
  {
    var none: seq<Event> := [];
    var signedIn := none + [Connect(true)] + [Responded(7, true)] + [ControlClosed(true)];
    var sent := signedIn + [Call(3)] + [Send("a", true)] + [Send("b", true)];
    SignedInRun();
    RunAppend(FRESH, signedIn, Call(3));
    RunAppend(FRESH, signedIn + [Call(3)], Send("a", true));
    RunAppend(FRESH, signedIn + [Call(3)] + [Send("a", true)], Send("b", true));
    RunAppend(FRESH, sent, Refused);
    assert sent + [Refused] == [Connect(true), Responded(7, true), ControlClosed(true), Call(3),
                                Send("a", true), Send("b", true), Refused];
    hide RunFrom;
  }

  lemma SignedInRun()
    ensures var none: seq<Event> := [];
            Run(none + [Connect(true)] + [Responded(7, true)] + [ControlClosed(true)])
            == FRESH.(client := Client(Connected, 7, Closed, [SignIn], map[]))
  {
    var none: seq<Event> := [];
    RunAppend(FRESH, none, Connect(true));
    RunAppend(FRESH, none + [Connect(true)], Responded(7, true));
    RunAppend(FRESH, none + [Connect(true)] + [Responded(7, true)], ControlClosed(true));
  }

  lemma RunAppend(s: Engine, es: seq<Event>, e: Event)
    ensures RunFrom(s, es + [e]) == Step(RunFrom(s, es), e)
  {
    assert (es + [e])[..|es|] == es;
  }

  // ---------- A call whose connects succeed ----------

  predicate Talking(s: Engine) { s.inCall && Admits(s.client, s.peerId) }

  // What happens during a call: messages, closes after a response, hang-up requests.
  predicate CallEvent(e: Event) {
    !Fails(e) && (e.Send? || e.ControlClosed? || e.HangUp? || e.Responded? || e.Call? || e.Connect?)
  }

  function Bodies(wire: seq<Request>): seq<string> {
    if wire == [] then []
    else Bodies(wire[..|wire| - 1]) + match wire[|wire| - 1] { case ToPeer(_, _, body) => [body] case _ => [] }
  }

  lemma {:induction false} BodiesAppend(a: seq<Request>, b: seq<Request>)
    ensures Bodies(a + b) == Bodies(a) + Bodies(b)
  {
    if b == [] {
      assert a + b == a;
    } else {
      assert (a + b)[..|a + b| - 1] == a + b[..|b| - 1];
      BodiesAppend(a, b[..|b| - 1]);
    }
  }

  function Sends(e: Event): seq<string> { if e.Send? then [e.body] else [] }

  function Enqueued(es: seq<Event>): seq<string> {
    if es == [] then [] else Enqueued(es[..|es| - 1]) + Sends(es[|es| - 1])
  }

  // The requests for this peer among these: all of them.
  predicate Addressed(wire: seq<Request>, id: int, peer: int) {
    forall r :: r in wire && r.ToPeer? ==> r.id == id && r.peer == peer
  }

  // The connections that a step of a call starts.
  function Starts(s: Engine, e: Event): seq<Request> {
    if e.Send? && s.client.control == Closed then [ToPeer(s.client.myId, s.peerId, e.body)]
    else if e.ControlClosed? && s.pending != [] then [ToPeer(s.client.myId, s.peerId, s.pending[0])]
    else if e.HangUp? then [Hangup(s.client.myId)]
    else []
  }

  lemma CallStep(s: Engine, e: Event)
    requires Talking(s) && !Stranded(s) && CallEvent(e)
    ensures var t := Step(s, e);
            && Talking(t) && !Stranded(t)
            && t.client.myId == s.client.myId && t.peerId == s.peerId
            && t.client.wire == s.client.wire + Starts(s, e)
            && (e.ControlClosed? && s.pending != [] ==> t.pending == s.pending[1..])
  {
  }

  function InFlight(c: Control): seq<string> {
    if c.Busy? && c.request.ToPeer? then [c.request.body] else []
  }

  // Where a step of a call leaves the control socket and the queue.
  lemma CallControl(s: Engine, e: Event)
    requires Talking(s) && !Stranded(s) && CallEvent(e)
    ensures var t, c := Step(s, e), s.client.control;
            && InFlight(t.client.control)
               == (if e.ControlClosed? then s.pending[..if s.pending == [] then 0 else 1]
                   else if e.HangUp? then []
                   else if c == Closed then Sends(e) else InFlight(c))
            && t.pending
               == (if e.ControlClosed? then s.pending[if s.pending == [] then 0 else 1..]
                   else if c == Closed then [] else s.pending + Sends(e))
            && (e.HangUp? ==> t.client.control != c || InFlight(c) == [])
            && (!e.HangUp? && !e.ControlClosed? && c.Busy? ==> t.client.control == c)
  {
  }

  lemma BodiesOfOne(r: Request)
    ensures Bodies([]) == [] && Bodies([r]) == if r.ToPeer? then [r.body] else []
  {
    assert [r][..0] == [];
  }

  lemma CallStepBodies(s: Engine, e: Event)
    requires Talking(s) && !Stranded(s) && CallEvent(e)
    ensures Bodies(Starts(s, e)) + Step(s, e).pending == s.pending + Sends(e)
    ensures Addressed(Starts(s, e), s.client.myId, s.peerId)
  {
    hide Step, Talking, CallEvent, Bodies, InFlight, Admits;
    CallControl(s, e);
    var t, me := Step(s, e), s.client.myId;
    if e.Send? {
      BodiesOfOne(ToPeer(me, s.peerId, e.body));
      assert s.client.control == Closed ==> s.pending == [] && [e.body] + t.pending == s.pending + [e.body];
    } else if e.ControlClosed? && s.pending != [] {
      BodiesOfOne(ToPeer(me, s.peerId, s.pending[0]));
      assert [s.pending[0]] + t.pending == s.pending + [];
    } else {
      BodiesOfOne(Hangup(me));
    }
  }

  // From any moment of a call with no message stranded, as long as connects succeed:
  // none is stranded ever after; the bodies connections were started for, followed by
  // the queue, are the queue and the messages sent since, in order, all for this peer.
  lemma {:induction false} CallDeliversInOrder(s: Engine, es: seq<Event>)
    requires Talking(s) && !Stranded(s) && forall e :: e in es ==> CallEvent(e)
    ensures var t := RunFrom(s, es);
            && Talking(t) && !Stranded(t) && t.client.myId == s.client.myId && t.peerId == s.peerId
    ensures var t := RunFrom(s, es);
            && s.client.wire <= t.client.wire
            && Addressed(t.client.wire[|s.client.wire|..], s.client.myId, s.peerId)
            && Bodies(t.client.wire[|s.client.wire|..]) + t.pending == s.pending + Enqueued(es)
  {
    hide Step, Talking, Stranded, CallEvent, Addressed, Starts, Sends;
    var n := |s.client.wire|;
    if es == [] {
      assert s.client.wire[n..] == [];
      NothingAddressed(s.client.myId, s.peerId);
    } else {
      var front, e := es[..|es| - 1], es[|es| - 1];
      assert forall x :: x in front ==> x in es;
      assert e in es;
      CallDeliversInOrder(s, front);
      var m, t := RunFrom(s, front), RunFrom(s, es);
      CallStep(m, e);
      CallStepBodies(m, e);
      hide Bodies, RunFrom, Enqueued;
      WireGrows(s.client.wire, m.client.wire, Starts(m, e), s.client.myId, s.peerId);
      Shift(Bodies(m.client.wire[n..]), Bodies(Starts(m, e)), t.pending, m.pending, Sends(e));
      Shift([], s.pending, Enqueued(front) + Sends(e), s.pending + Enqueued(front), Sends(e));
    }
  }

  lemma NothingAddressed(id: int, peer: int)
    ensures Addressed([], id, peer)
  {
  }

  lemma WireGrows(before: seq<Request>, w: seq<Request>, more: seq<Request>, id: int, peer: int)
    requires before <= w && Addressed(w[|before|..], id, peer) && Addressed(more, id, peer)
    ensures before <= w + more && Addressed((w + more)[|before|..], id, peer)
    ensures Bodies((w + more)[|before|..]) == Bodies(w[|before|..]) + Bodies(more)
  {
    assert (w + more)[|before|..] == w[|before|..] + more;
    BodiesAppend(w[|before|..], more);
    hide Bodies;
  }

  // b + c is d followed by x; the same with a before all of it.
  lemma Shift(a: seq<string>, b: seq<string>, c: seq<string>, d: seq<string>, x: seq<string>)
    requires b + c == d + x
    ensures (a + b) + c == (a + d) + x
  {
    assert (a + b) + c == a + (b + c);
  }

  // ---------- What becomes of each message of a call ----------

  // The message's connection came to its own close, or lost the socket before.
  datatype Outcome = Finished(body: string) | CutOff(body: string)

  // What a step does to the message in flight.
  function Settles(s: Engine, e: Event): seq<Outcome> {
    var c := s.client.control;
    if InFlight(c) == [] then []
    else if e.ControlClosed? then [Finished(c.request.body)]
    else if Step(s, e).client.control != c then [CutOff(c.request.body)]
    else []
  }

  function Settled(s: Engine, es: seq<Event>): seq<Outcome> {
    if es == [] then []
    else Settled(s, es[..|es| - 1]) + Settles(RunFrom(s, es[..|es| - 1]), es[|es| - 1])
  }

  function BodiesOf(os: seq<Outcome>): (bodies: seq<string>)
    ensures |bodies| == |os|
  {
    seq(|os|, i requires 0 <= i < |os| => os[i].body)
  }

  // The message in flight and those behind it.
  function Backlog(s: Engine): seq<string> { InFlight(s.client.control) + s.pending }

  lemma CallSettlesBodies(s: Engine, e: Event)
    requires Talking(s) && !Stranded(s) && CallEvent(e)
    ensures BodiesOf(Settles(s, e)) == if e.ControlClosed? || e.HangUp? then InFlight(s.client.control) else []
  {
  }

  lemma CallBacklog(s: Engine, e: Event)
    requires Talking(s) && !Stranded(s) && CallEvent(e)
    ensures BodiesOf(Settles(s, e)) + Backlog(Step(s, e)) == Backlog(s) + Sends(e)
  {
    CallControl(s, e);
    CallSettlesBodies(s, e);
    hide Step, Talking, Stranded, CallEvent, Settles, BodiesOf;
    if e.ControlClosed? && s.pending != [] {
      assert [s.pending[0]] + s.pending[1..] == s.pending;
    }
  }

  // Exactly when a message in flight is cut off, in any state.
  lemma CutOffIff(s: Engine, e: Event)
    requires InFlight(s.client.control) != []
    ensures Settles(s, e) == [CutOff(s.client.control.request.body)] <==>
            match e
            case Connect(_) => s.client.phase == NotConnected
            case Retry(_) => s.client.phase != NotConnected
            case HangUp(_) => s.inCall && s.client.phase == Connected && s.client.myId != -1
            case Disconnected => true
            case Refused => true
            case PeerLeft => true
            case _ => false
    ensures Settles(s, e) == [Finished(s.client.control.request.body)] <==> e.ControlClosed?
  {
  }

  // In a call whose connects succeed only a hang-up does, and it does every time.
  lemma CallSettles(s: Engine, e: Event)
    requires Talking(s) && !Stranded(s) && CallEvent(e)
    ensures InFlight(s.client.control) != [] ==>
              (e.HangUp? <==> Settles(s, e) == [CutOff(s.client.control.request.body)])
    ensures !e.HangUp? ==> forall o :: o in Settles(s, e) ==> o.Finished?
  {
  }

  // The same moment of a call: every message from then on, in order, has come to its
  // own close, or was cut off, or is in flight, or waits; and without a hang-up none
  // is cut off.
  lemma {:induction false} CallSettlesInOrder(s: Engine, es: seq<Event>)
    requires Talking(s) && !Stranded(s) && forall e :: e in es ==> CallEvent(e)
    ensures BodiesOf(Settled(s, es)) + Backlog(RunFrom(s, es)) == Backlog(s) + Enqueued(es)
    ensures (forall e :: e in es ==> !e.HangUp?) ==> forall o :: o in Settled(s, es) ==> o.Finished?
  {
    hide Step, Talking, Stranded, CallEvent, Sends, Backlog, Settles;
    if es != [] {
      var front, e := es[..|es| - 1], es[|es| - 1];
      assert forall x :: x in front ==> x in es;
      assert e in es;
      CallSettlesInOrder(s, front);
      CallDeliversInOrder(s, front);
      var m := RunFrom(s, front);
      CallSettles(m, e);
      CallBacklog(m, e);
      hide RunFrom, Enqueued;
      var a, b := Settled(s, front), Settles(m, e);
      assert BodiesOf(a + b) == BodiesOf(a) + BodiesOf(b);
      Shift(BodiesOf(a), BodiesOf(b), Backlog(Step(m, e)), Backlog(m), Sends(e));
      Shift([], Backlog(s), Enqueued(front) + Sends(e), Backlog(s) + Enqueued(front), Sends(e));
    }
  }

  // Closes of the control socket drain the queue: one message each, in order.
  function Closes(n: nat): seq<Event> { if n == 0 then [] else Closes(n - 1) + [ControlClosed(true)] }

  lemma {:induction false} ClosesDrain(s: Engine, n: nat)
    requires Talking(s) && !Stranded(s) && n <= |s.pending|
    ensures var t := RunFrom(s, Closes(n));
            Talking(t) && !Stranded(t) && t.pending == s.pending[n..]
  {
    if n > 0 {
      ClosesDrain(s, n - 1);
      var es := Closes(n);
      assert es[..|es| - 1] == Closes(n - 1) && es[|es| - 1] == ControlClosed(true);
      hide Step, Talking, Stranded;
      CallStep(RunFrom(s, Closes(n - 1)), ControlClosed(true));
    }
  }

  // ---------- The objects ----------

  class PeerConnectionClient {
    var phase: Phase
    var myId: int
    var control: Control
    var peers: map<int, string>
    ghost var wire: seq<Request>

    ghost function State(): Client
      reads this
    {
      Client(phase, myId, control, wire, peers)
    }

    constructor ()
      ensures State() == FRESH.client
    {
      phase, myId, control, wire, peers := NotConnected, -1, Closed, [], map[];
    }

    method Close()
      modifies this
      ensures State() == Shut(old(State()))
    {
      control := Closed;
      peers := map[];
      myId := -1;
      phase := NotConnected;
    }

    method ConnectControlSocket(request: Request, ok: bool) returns (connected: bool)
      requires control == Closed
      modifies this
      ensures connected == ok && State() == Connecting(old(State()), request, ok)
    {
      if !ok {
        Close();
        return false;
      }
      control := Busy(request);
      wire := wire + [request];
      return true;
    }

    method IsSendingMessage() returns (sending: bool)
      ensures sending == IsSending(State())
    {
      sending := phase == Connected && control != Closed;
    }

    method SendToPeer(peer: int, body: string, ok: bool) returns (sent: bool)
      modifies this
      ensures State() == SentToPeer(old(State()), peer, body, ok)
      ensures sent == (old(Admits(State(), peer)) && ok)
    {
      if phase != Connected {
        return false;
      }
      if myId == -1 || peer == -1 {
        return false;
      }
      if control != Closed {
        control := Closed;
      }
      sent := ConnectControlSocket(ToPeer(myId, peer, body), ok);
    }

    method SendHangUp(ok: bool) returns (sent: bool)
      modifies this
      ensures State() == SentHangUp(old(State()), ok)
    {
      if phase != Connected || myId == -1 {
        return false;
      }
      if control != Closed {
        control := Closed;
      }
      sent := ConnectControlSocket(Hangup(myId), ok);
    }

    method SignOutNow(ok: bool) returns (done: bool)
      modifies this
      ensures State() == SignedOut(old(State()), ok)
    {
      if phase == NotConnected || phase == SigningOut {
        return true;
      }
      done := true;
      if control == Closed {
        phase := SigningOut;
        if myId != -1 {
          done := ConnectControlSocket(SignOut(myId), ok);
        }
      } else {
        phase := SigningOutWaiting;
      }
    }

    // What a good response does to the client's id and phase.
    method Answer(id: int, ok: bool)
      modifies this
      ensures State() == Answered(old(State()), id, ok)
    {
      if myId == -1 {
        myId := id;
      } else if phase == SigningOut {
        phase := Connected;
      } else if phase == SigningOutWaiting {
        var done := SignOutNow(ok);
      }
      if phase == SigningIn {
        phase := Connected;
      }
    }
  }

  class WebRTCEngine {
    const signaling: PeerConnectionClient
    var pending: seq<string>
    var peerId: int
    var inCall: bool
    ghost var handed: seq<string>
    ghost var enqueued: seq<string>

    ghost function State(): Engine
      reads this, signaling
    {
      Engine(signaling.State(), pending, peerId, inCall, handed, enqueued)
    }

    constructor ()
      ensures fresh(signaling) && State() == Run([])
    {
      signaling := new PeerConnectionClient();
      pending, peerId, inCall, handed, enqueued := [], -1, false, [], [];
    }

    method PopAndSend(ok: bool)
      requires pending != []
      modifies this, signaling
      ensures State() == Popped(old(State()), ok)
    {
      var body := pending[0];
      pending := pending[1..];
      handed := handed + [body];
      var sent := signaling.SendToPeer(peerId, body, ok);
      if !sent && peerId != -1 && signaling.myId != -1 {
        var done := signaling.SignOutNow(ok);
      }
    }

    method SendMessage(body: string, ok: bool)
      modifies this, signaling
      ensures State() == Step(old(State()), Send(body, ok))
    {
      pending := pending + [body];
      enqueued := enqueued + [body];
      var sending := signaling.IsSendingMessage();
      if !sending {
        hide Popped;
        PopAndSend(ok);
      }
    }

    method OnMessageSent(ok: bool)
      modifies this, signaling
      ensures State() == MessageDone(old(State()), ok)
    {
      hide Popped;
      var sending := signaling.IsSendingMessage();
      if pending != [] && !sending {
        PopAndSend(ok);
      }
      if !inCall {
        peerId := -1;
      }
    }

    // The client's close handler for the control socket, then OnMessageSent.
    method OnControlClosed(ok: bool)
      modifies this, signaling
      ensures State() == Step(old(State()), ControlClosed(ok))
    {
      hide MessageDone;
      signaling.control := Closed;
      OnMessageSent(ok);
    }

    method HangUpImpl(ok: bool)
      modifies this, signaling
      ensures State() == Step(old(State()), HangUp(ok))
    {
      if inCall {
        var sent := signaling.SendHangUp(ok);
      }
    }

    method OnResponse(id: int, ok: bool)
      modifies this, signaling
      ensures State() == Step(old(State()), Responded(id, ok))
    {
      signaling.Answer(id, ok);
    }

    // The client's Close, then OnDisconnected.
    method OnDisconnected()
      modifies this, signaling
      ensures State() == Step(old(State()), Disconnected)
    {
      signaling.Close();
      DeletePeerConnection();
    }

    method DisconnectFromServerImpl(ok: bool)
      modifies this, signaling
      ensures State() == Step(old(State()), LogOff(ok))
    {
      if signaling.myId != -1 {
        var done := signaling.SignOutNow(ok);
      }
    }

    // The clearing loop pops one message at a time.
    method DeletePeerConnection()
      modifies this
      ensures State() == Step(old(State()), Deleted)
    {
      while pending != []
        invariant unchanged(`peerId, `inCall)
        decreases |pending|
      {
        pending := pending[1..];
      }
      handed, enqueued := [], [];
      inCall := false;
      peerId := -1;
    }
  }
}
