/** The heartbeat: which connections it drops, and when, over a timed run. */
module Heartbeats {
  import opened Registry
  import opened Signaling

  // The connections a heartbeat at `now` asks the transport to close.
  function Overdue(lastPong: map<Hdl, int>, now: int, timeout: int): set<Hdl> {
    set h | h in lastPong && now - lastPong[h] > timeout
  }

  // ---------- Signs of life, read off the run ----------

  // Event e in state s shows h alive: it opened, ponged or was welcomed.
  ghost predicate Touch(s: Server, e: Event, h: Hdl) {
    match e
    case Opened(h', _) => h' == h
    case Ponged(h', _) => h' == h
    case Received(h', _, _) => h' == h && exists id :: Sent(h, Welcome(id)) in Step(s, e).1
    case _ => false
  }

  ghost predicate TouchAt(es: seq<Event>, k: nat, h: Hdl)
    requires k < |es|
  {
    Touch(Run(es[..k]), es[k], h)
  }

  // h showed life at event k, and has neither shown life nor closed since.
  ghost predicate SilentSince(es: seq<Event>, h: Hdl, k: nat) {
    && k < |es| && TouchAt(es, k, h)
    && forall j :: k < j < |es| ==> es[j] != Closed(h) && !TouchAt(es, j, h)
  }

  lemma RegisterTouches(s: Server, h: Hdl, name: string, now: int)
    requires RegInv(s.reg)
    ensures (exists id :: Sent(h, Welcome(id)) in OnRegister(s, h, name, now).1)
            <==> h !in s.hdlToId && name != "" && name !in s.reg.names
    ensures OnRegister(s, h, name, now).0.lastPong ==
            if h !in s.hdlToId && name != "" && name !in s.reg.names then s.lastPong[h := now] else s.lastPong
  {
  }

  lemma RequestDoesNotTouch(s: Server, h: Hdl, req: Request, now: int, id: int)
    requires !req.RegisterAs?
    ensures Sent(h, Welcome(id)) !in OnMessage(s, h, req, now).1
    ensures OnMessage(s, h, req, now).0.lastPong == s.lastPong
  {
  }

  lemma TouchStep(s: Server, e: Event, h: Hdl)
    requires RegInv(s.reg)
    ensures var p, p' := s.lastPong, Step(s, e).0.lastPong;
            if Touch(s, e, h) then h in p' && p'[h] == e.now
            else if e == Closed(h) then h !in p'
            else (h in p' <==> h in p) && (h in p ==> p'[h] == p[h])
  {
    match e
    case Received(h', RegisterAs(name), now) => RegisterTouches(s, h', name, now);
    case Received(h', req, now) =>
      forall id ensures Sent(h', Welcome(id)) !in Step(s, e).1 {
        RequestDoesNotTouch(s, h', req, now, id);
      }
      RequestDoesNotTouch(s, h', req, now, 0);
    case _ =>
  }

  lemma SilencePrefix(es: seq<Event>, h: Hdl, k: nat, q: nat)
    requires k < q <= |es|
    ensures SilentSince(es[..q], h, k) <==>
            TouchAt(es, k, h) && forall j :: k < j < q ==> es[j] != Closed(h) && !TouchAt(es, j, h)
  {
    forall j | 0 <= j < q ensures es[..q][..j] == es[..j] {}
    assert forall j :: 0 <= j < q ==> TouchAt(es[..q], j, h) == TouchAt(es, j, h);
  }

  // The server watches h, with time t, exactly when h has been silent since t.
  lemma {:induction false} LastPongIsSilence(es: seq<Event>, h: Hdl, t: int)
    ensures h in Run(es).lastPong && Run(es).lastPong[h] == t
            <==> exists k: nat :: SilentSince(es, h, k) && es[k].now == t
  {
    if es != [] {
      hide Step, Touch, SilentSince, RegInv, ConnInv;
      var n := |es| - 1;
      var pre := es[..n];
      RunInv(pre);
      LastPongIsSilence(pre, h, t);
      TouchStep(Run(pre), es[n], h);
      SilenceGrows(es, h, t);
    }
  }

  lemma SilenceSplits(es: seq<Event>, h: Hdl, k: nat)
    requires es != []
    ensures var n := |es| - 1;
            SilentSince(es, h, k) <==>
            (k == n && TouchAt(es, n, h))
            || (SilentSince(es[..n], h, k) && es[n] != Closed(h) && !TouchAt(es, n, h))
  {
    hide Run, Touch;
    var n := |es| - 1;
    if k < n {
      SilencePrefix(es, h, k, n);
      assert es[..|es|] == es;
    }
  }

  lemma SilenceInside(es: seq<Event>, h: Hdl, k: nat)
    requires SilentSince(es, h, k)
    ensures k < |es| && !es[k].Closed?
  {
  }

  lemma TouchHasTime(es: seq<Event>, k: nat, h: Hdl)
    requires k < |es|
    ensures TouchAt(es, k, h) ==> !es[k].Closed?
  {
  }

  lemma SilenceGrows(es: seq<Event>, h: Hdl, t: int)
    requires es != []
    ensures var n := |es| - 1;
            (exists k: nat :: SilentSince(es, h, k) && es[k].now == t)
            <==> (TouchAt(es, n, h) && es[n].now == t)
                 || (!TouchAt(es, n, h) && es[n] != Closed(h)
                     && exists k: nat :: SilentSince(es[..n], h, k) && es[..n][k].now == t)
  {
    hide Run, SilentSince, TouchAt;
    var n := |es| - 1;
    var pre := es[..n];
    forall k: nat ensures SilentSince(es, h, k) <==>
                          (k == n && TouchAt(es, n, h))
                          || (SilentSince(pre, h, k) && es[n] != Closed(h) && !TouchAt(es, n, h))
    {
      SilenceSplits(es, h, k);
    }
    forall k: nat | SilentSince(pre, h, k) ensures k < n && pre[k] == es[k] && !es[k].Closed? {
      SilenceInside(pre, h, k);
    }
    forall k: nat | SilentSince(es, h, k) ensures k <= n && !es[k].Closed? {
      SilenceInside(es, h, k);
    }
    TouchHasTime(es, n, h);
    if k: nat :| SilentSince(es, h, k) && es[k].now == t && k < n {
      assert SilentSince(pre, h, k) && pre[k].now == t;
    }
    if k: nat :| SilentSince(pre, h, k) && pre[k].now == t {
      assert pre[k].now == es[k].now;
    }
  }

  // A heartbeat drops h exactly when h has been silent for longer than the timeout.
  lemma DroppedExactlyWhenSilent(es: seq<Event>, i: nat, h: Hdl, now: int, timeout: int)
    requires i < |es| && es[i] == Heartbeat(now)
    ensures h in Overdue(Run(es[..i]).lastPong, now, timeout) <==>
            exists k: nat :: SilentSince(es[..i], h, k) && now > es[k].now + timeout
  {
    var p := Run(es[..i]).lastPong;
    if h in Overdue(p, now, timeout) {
      LastPongIsSilence(es[..i], h, p[h]);
    }
    if k: nat :| SilentSince(es[..i], h, k) && now > es[k].now + timeout {
      LastPongIsSilence(es[..i], h, es[k].now);
    }
  }

  // ---------- Timed runs ----------

  ghost function Clock(es: seq<Event>, start: int): int {
    if es == [] then start
    else if es[|es| - 1].Closed? then Clock(es[..|es| - 1], start)
    else es[|es| - 1].now
  }

  ghost function LastBeat(es: seq<Event>, start: int): int {
    if es == [] then start
    else if es[|es| - 1].Heartbeat? then es[|es| - 1].now
    else LastBeat(es[..|es| - 1], start)
  }

  // A monotone clock from `start`, and a heartbeat exactly every `interval`.
  ghost predicate Timely(es: seq<Event>, start: int, interval: int) {
    es != [] ==>
      var pre, e := es[..|es| - 1], es[|es| - 1];
      && Timely(pre, start, interval)
      && (e.Heartbeat? ==> e.now == LastBeat(pre, start) + interval)
      && (!e.Closed? ==> Clock(pre, start) <= e.now <= LastBeat(pre, start) + interval)
  }

  lemma {:induction false} BeatNotAhead(es: seq<Event>, start: int, interval: int)
    requires Timely(es, start, interval)
    ensures LastBeat(es, start) <= Clock(es, start) <= LastBeat(es, start) + if interval < 0 then 0 else interval
  {
    if es != [] {
      BeatNotAhead(es[..|es| - 1], start, interval);
    }
  }

  // A connection silent since event k is dropped by a heartbeat later than
  // timeout, and no later than timeout + interval, after that event, as soon as
  // the clock has passed that window, whether or not it ever registered.
  lemma DroppedInTime(es: seq<Event>, start: int, interval: int, timeout: int, h: Hdl, k: nat) returns (q: nat)
    requires Timely(es, start, interval) && interval > 0 && timeout >= 0
    requires SilentSince(es, h, k) && Clock(es, start) > es[k].now + timeout + interval
    ensures k < q < |es| && es[q].Heartbeat?
    ensures es[k].now + timeout < es[q].now <= es[k].now + timeout + interval
    ensures h in Overdue(Run(es[..q]).lastPong, es[q].now, timeout)
  {
    BeatNotAhead(es, start, interval);
    q := FirstLateBeat(es, start, interval, timeout, h, k);
    SilencePrefix(es, h, k, q);
    DroppedExactlyWhenSilent(es, q, h, es[q].now, timeout);
  }

  lemma {:induction false} FirstLateBeat(es: seq<Event>, start: int, interval: int, timeout: int, h: Hdl, k: nat)
    returns (q: nat)
    requires Timely(es, start, interval) && interval > 0 && timeout >= 0
    requires SilentSince(es, h, k) && LastBeat(es, start) > es[k].now + timeout
    ensures k < q < |es| && es[q].Heartbeat?
    ensures es[k].now + timeout < es[q].now <= es[k].now + timeout + interval
    decreases |es|
  {
    var n := |es| - 1;
    var pre := es[..n];
    BeatNotAhead(pre, start, interval);
    if k < n && LastBeat(pre, start) > es[k].now + timeout {
      SilencePrefix(es, h, k, n);
      q := FirstLateBeat(pre, start, interval, timeout, h, k);
    } else {
      q := n;
    }
  }
}
