/** Progress of the frame pipeline: what is left to do falls with every step the threads
    take, until everything has been delivered. */
module Progress {
  import opened ShmRing
  import opened FramePipeline

  // ---------- Ending ----------

  // A thread that has ended was told to.
  ghost predicate EndedWhenTold(s: State) {
    && (s.io.IoExited? ==> s.stopped) && (s.rd.RdDone? ==> !s.running) && (s.stopRequested ==> !s.running)
  }

  lemma ReadEndsWhenTold(max: nat, s: State)
    requires Inv(s, max) && EndedWhenTold(s)
    ensures EndedWhenTold(DoRead(max, s))
  {
    if s.rd.RdTry? && s.ring.count > 0 {
      TakeKeeps(max, s);
    }
    hide Inv, Take, FrameIn;
  }

  lemma EndsWhenTold(max: nat, s: State, l: Label)
    requires Inv(s, max) && EndedWhenTold(s)
    ensures EndedWhenTold(Do(max, s, l))
  {
    hide Inv, FrameOf;
    if l.RdStep? {
      ReadEndsWhenTold(max, s);
      hide DoRead;
    }
  }

  lemma {:induction false} RunEndsWhenTold(max: nat, s: State, ls: seq<Label>)
    requires Start(s, max)
    ensures EndedWhenTold(Exec(max, s, ls))
  {
    if ls != [] {
      hide Do, EndedWhenTold;
      RunInv(max, s, ls[..|ls| - 1]);
      RunEndsWhenTold(max, s, ls[..|ls| - 1]);
      EndsWhenTold(max, Exec(max, s, ls[..|ls| - 1]), ls[|ls| - 1]);
    } else {
      assert EndedWhenTold(s);
    }
  }

  // ---------- Working ----------

  // A step of the threads without a new offer: finishing an offer, running, or waking
  // because of a signal (not out of itself).
  predicate Own(s: State, l: Label) {
    || l.NotifyOne? || l.IoStep? || l.RdStep?
    || (l.IoWake? && (s.io == IoAsleep(true) || (s.io.IoBlocked? && s.io.signalled)))
    || (l.RdWake? && s.rd == RdAsleep(true))
  }

  // What is left to do: each frame the further the more, and the threads' own steps.
  function Work(s: State): nat {
    (if s.mailbox.Some? then 20 else 0) + IoWork(s.io) + 10 * s.ring.count + RdWork(s.rd)
    + if s.src.SrcNotify? then 3 else 0
  }

  function IoWork(io: IoPc): nat {
    match io
    case IoTest => 1
    case IoAsleep(notified) => if notified then 2 else 0
    case IoWrite(_) => 16
    case IoBlocked(_, signalled) => if signalled then 17 else 15
    case IoExited => 0
  }

  function RdWork(rd: RdPc): nat {
    match rd
    case RdLoop => 2
    case RdTry => 1
    case RdAsleep(signalled) => if signalled then 2 else 0
    case RdDeliver(_) => 5
    case RdDone => 0
  }

  ghost predicate Going(s: State, max: nat) {
    Inv(s, max) && EndedWhenTold(s) && s.running && !s.stopped
  }

  // Every step of the threads that does anything leaves less to do.
  lemma WorkFalls(max: nat, s: State, l: Label)
    requires Going(s, max) && Own(s, l) && Do(max, s, l) != s
    ensures Going(Do(max, s, l), max) && Work(Do(max, s, l)) < Work(s)
    ensures Do(max, s, l).offered == s.offered
  {
    DoKeeps(max, s, l);
    EndsWhenTold(max, s, l);
    OfferedStep(max, s, l);
    if l.RdStep? {
      ReadWork(max, s);
    } else if l.IoStep? {
      IoStepWork(max, s);
    } else {
      WakeWork(max, s, l);
    }
    hide Inv, Do, EndedWhenTold, Work;
  }

  lemma WakeWork(max: nat, s: State, l: Label)
    requires Own(s, l) && !l.RdStep? && !l.IoStep? && Do(max, s, l) != s
    ensures var s' := Do(max, s, l); s'.running == s.running && s'.stopped == s.stopped && Work(s') < Work(s)
  {
    hide DoIo, DoRead, DoOnData;
    match l
    case NotifyOne => assert s.src.SrcNotify?;
    case IoWake =>
    case RdWake =>
  }

  lemma IoStepWork(max: nat, s: State)
    requires Going(s, max) && DoIo(max, s) != s
    ensures var s' := DoIo(max, s); s'.running == s.running && s'.stopped == s.stopped && Work(s') < Work(s)
  {
    hide RingInv, AllGenuine, Accounted, FrameOf;
    if s.io.IoWrite? && Fits(max, s.ring, s.io.item.frame) {
      PutCounts(s.ring, s.io.item.frame);
    }
    hide Put;
  }

  lemma PutCounts(r: Ring, f: Frame)
    requires r.wIdx < |r.slots| && f.head.frameLen <= |f.payload| && f.head.frameLen <= |r.slots[r.wIdx].data|
    ensures Put(r, f.head, f.payload).count == r.count + 1
  {
  }

  lemma ReadWork(max: nat, s: State)
    requires Going(s, max) && DoRead(max, s) != s
    ensures var s' := DoRead(max, s); s'.running == s.running && s'.stopped == s.stopped && Work(s') < Work(s)
  {
    if s.rd.RdTry? && s.ring.count > 0 {
      TakeKeeps(max, s);
      TakeCounts(s.ring);
    }
    hide RingInv, AllGenuine, Accounted, FrameOf, FrameIn, Take;
  }

  // When no step of the threads does anything any more, everything has arrived.
  lemma StillMeansDelivered(max: nat, s: State)
    requires Going(s, max) && forall l :: Own(s, l) ==> Do(max, s, l) == s
    ensures s.mailbox.None? && Kept(s) == Tags(s.delivered)
  {
    assert Own(s, NotifyOne) && Own(s, IoStep) && Own(s, RdStep);
    assert !s.src.SrcNotify?;
    IoStill(max, s);
    ReadStill(max, s);
    assert s.io.IoBlocked? && s.io.signalled ==> Own(s, IoWake);
    assert s.io == IoAsleep(true) ==> Own(s, IoWake);
    assert s.rd == RdAsleep(true) ==> Own(s, RdWake);
    RingHasSlots(s.ring, max);
    hide RingInv, Accounted, Contents, FrameOf, Tags, DoIo, DoRead;
  }

  lemma RingHasSlots(r: Ring, max: nat)
    requires RingInv(r, max)
    ensures |r.slots| >= 1
  {
  }

  lemma IoStill(max: nat, s: State)
    requires Going(s, max) && DoIo(max, s) == s
    ensures s.io.IoAsleep? || s.io.IoBlocked?
  {
    if s.io.IoWrite? && s.io.item.frame.head.frameLen <= max && s.ring.count < |s.ring.slots| {
      IoWriteKeeps(max, s);
    }
    hide RingInv, AllGenuine, Accounted, FrameOf, Put;
  }

  lemma ReadStill(max: nat, s: State)
    requires Going(s, max) && DoRead(max, s) == s
    ensures s.rd.RdAsleep?
  {
    if s.rd.RdTry? && s.ring.count > 0 {
      TakeKeeps(max, s);
    }
    if s.rd.RdDeliver? {
      assert |s.delivered + [s.rd.item]| > |s.delivered|;
    }
    hide RingInv, AllGenuine, Accounted, FrameOf, FrameIn, Take;
  }

  // Steps of the threads that each do something.
  ghost predicate Busily(max: nat, s: State, ls: seq<Label>) {
    ls != [] ==>
      var front, l := ls[..|ls| - 1], ls[|ls| - 1];
      && Busily(max, s, front) && Own(Exec(max, s, front), l)
      && Do(max, Exec(max, s, front), l) != Exec(max, s, front)
  }

  lemma {:induction false} BusyRunsEnd(max: nat, s: State, ls: seq<Label>)
    requires Going(s, max) && Busily(max, s, ls)
    ensures Going(Exec(max, s, ls), max) && Exec(max, s, ls).offered == s.offered
    ensures |ls| + Work(Exec(max, s, ls)) <= Work(s)
  {
    hide Going, Do, Own, Work;
    if ls != [] {
      BusyRunsEnd(max, s, ls[..|ls| - 1]);
      WorkFalls(max, Exec(max, s, ls[..|ls| - 1]), ls[|ls| - 1]);
    }
  }

  // From any state of a run that is neither stopped nor asked to stop, without spurious
  // wakeups and without new offers: the threads take no more than Work(s) steps that do
  // anything, in whatever order, and when none is left to take, the mailbox and
  // everything behind it has been delivered.
  lemma ThreadsDeliver(max: nat, s0: State, past: seq<Label>, ls: seq<Label>)
    requires Start(s0, max)
    requires var s := Exec(max, s0, past); s.running && !s.stopped && Busily(max, s, ls)
    ensures var s, e := Exec(max, s0, past), Exec(max, Exec(max, s0, past), ls);
            && |ls| <= Work(s) && e.offered == s.offered
            && ((forall l :: Own(e, l) ==> Do(max, e, l) == e) ==> e.mailbox.None? && Kept(e) == Tags(e.delivered))
  {
    RunInv(max, s0, past);
    RunEndsWhenTold(max, s0, past);
    var s := Exec(max, s0, past);
    assert Going(s, max);
    hide Going, Do, Own, Work, Inv, Busily, Exec, EndedWhenTold;
    BusyRunsEnd(max, s, ls);
    var e := Exec(max, s, ls);
    if forall l :: Own(e, l) ==> Do(max, e, l) == e {
      StillMeansDelivered(max, e);
    }
  }

  // In particular some such steps get there.
  lemma {:induction false} SomeStepsDeliver(max: nat, s: State) returns (ls: seq<Label>)
    requires Going(s, max)
    ensures Busily(max, s, ls) && |ls| <= Work(s)
    ensures Exec(max, s, ls).mailbox.None? && Kept(Exec(max, s, ls)) == Tags(Exec(max, s, ls).delivered)
  {
    hide Going, Do, Own, Work, Kept, Tags;
    ls := [];
    BusyRunsEnd(max, s, ls);
    while exists l :: Own(Exec(max, s, ls), l) && Do(max, Exec(max, s, ls), l) != Exec(max, s, ls)
      invariant Busily(max, s, ls)
      decreases Work(s) - |ls|
    {
      BusyRunsEnd(max, s, ls);
      var l :| Own(Exec(max, s, ls), l) && Do(max, Exec(max, s, ls), l) != Exec(max, s, ls);
      assert (ls + [l])[..|ls|] == ls;
      ls := ls + [l];
      BusyRunsEnd(max, s, ls);
    }
    BusyRunsEnd(max, s, ls);
    StillMeansDelivered(max, Exec(max, s, ls));
  }
}
