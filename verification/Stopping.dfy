/** The frame pipeline's threads and the ring's own operations, and how the threads end
    once they are told to. */
module Stopping {
  import opened ShmRing
  import opened FramePipeline
  import opened Progress

  // ---------- The threads do what the ring's operations do ----------

  // The capture thread's attempt is one pass of ReadFrame with a buffer of the maximum
  // size: it delivers, waits, or ends the loop as that tells it to.
  lemma ReaderReads(max: nat, s: State)
    requires Inv(s, max) && s.rd.RdTry?
    ensures var s' := DoRead(max, s);
            && RingInv(s'.ring, max)
            && exists outcome :: ReadEffect(s.ring, s'.ring, max, max, s.stopRequested, outcome)
                 && match outcome
                    case Got(_) => s'.rd.RdDeliver? && s'.rd.item.frame == Contents(s.ring, max)[0]
                    case MustWait => s'.rd == RdAsleep(false)
                    case _ => s'.rd == RdDone
  {
    var s' := DoRead(max, s);
    if s.ring.count > 0 {
      TakeGenuine(max, s);
      TakeRemoves(s.ring, max);
      HeadFits(s.ring, max);
      hide RingInv, AllGenuine, Accounted, Take, DoRead;
      assert ReadEffect(s.ring, s'.ring, max, max, s.stopRequested, Got(Contents(s.ring, max)[0].head));
    } else {
      hide RingInv, AllGenuine, Accounted;
      assert ReadEffect(s.ring, s'.ring, max, max, s.stopRequested, if s.stopRequested then Stopped else MustWait);
    }
  }

  lemma HeadFits(r: Ring, max: nat)
    requires RingInv(r, max) && r.count > 0
    ensures Contents(r, max)[0] == FrameIn(r.slots[At(r, 0)]) && Contents(r, max)[0].head.frameLen <= max
  {
  }

  // The IO thread's attempt is one pass of WriteFrame.
  lemma WriterWrites(max: nat, s: State)
    requires Inv(s, max) && s.io.IoWrite?
    ensures var s', f := DoIo(max, s), s.io.item.frame;
            && RingInv(s'.ring, max) && f.head.frameLen == |f.payload|
            && exists outcome :: WriteEffect(s.ring, s'.ring, max, f.head, f.payload, outcome)
                 && s'.io == if outcome == WouldWait then IoBlocked(s.io.item, false) else IoTest
  {
    var s', f := DoIo(max, s), s.io.item.frame;
    IoKeeps(max, s);
    FrameLength(s.offered[s.io.item.tag]);
    if f.head.frameLen <= max && s.ring.count < |s.ring.slots| {
      PutAppends(s.ring, max, f.head, f.payload);
      assert Fits(max, s.ring, f);
      hide RingInv, AllGenuine, Accounted, Put;
      assert WriteEffect(s.ring, s'.ring, max, f.head, f.payload, Written);
    } else {
      hide AllGenuine, Accounted, Put;
      assert WriteEffect(s.ring, s'.ring, max, f.head, f.payload,
                         if f.head.frameLen > max then Rejected else WouldWait);
    }
  }

  // ---------- Being told ----------

  // The destructors' calls: the capturer clears running_ and then asks its reader to
  // stop; the renderer sets stopped_.
  ghost predicate CapturerGone(ls: seq<Label>) {
    exists i, j :: 0 <= i < j < |ls| && ls[i] == StopRunning && ls[j] == RequestStop
  }

  lemma ToldOnce(max: nat, s: State, l: Label)
    ensures var e := Do(max, s, l);
            && (e.stopped <==> s.stopped || (l == StopRenderer && s.stopper.StopNone?))
            && (e.stopper.StopNone? <==> s.stopper.StopNone? && l != StopRenderer)
            && (!e.running <==> !s.running || l == StopRunning)
            && (e.stopRequested <==> s.stopRequested || (l == RequestStop && !s.running))
  {
    hide DoRead, DoIo, FrameOf;
    ReaderTellsNobody(max, s);
    IoTellsNobody(max, s);
  }

  lemma IoTellsNobody(max: nat, s: State)
    ensures var e := DoIo(max, s);
            && e.stopped == s.stopped && e.stopper == s.stopper
            && e.running == s.running && e.stopRequested == s.stopRequested
  {
    hide Put, Fits;
  }

  lemma ReaderTellsNobody(max: nat, s: State)
    ensures var e := DoRead(max, s);
            && e.stopped == s.stopped && e.stopper == s.stopper
            && e.running == s.running && e.stopRequested == s.stopRequested
  {
    hide Take, FrameIn;
  }

  // Over every run, the flags say exactly that.
  lemma {:induction false} FlagsOfRun(max: nat, s0: State, ls: seq<Label>)
    requires Start(s0, max)
    ensures var e := Exec(max, s0, ls);
            && (e.stopped <==> StopRenderer in ls) && (e.stopper.StopNone? <==> StopRenderer !in ls)
            && (!e.running <==> StopRunning in ls)
            && (e.stopRequested <==> CapturerGone(ls))
  {
    if ls != [] {
      var front, l := ls[..|ls| - 1], ls[|ls| - 1];
      FlagsOfRun(max, s0, front);
      hide Do;
      ToldOnce(max, Exec(max, s0, front), l);
      GoneGrows(front, l);
      assert ls == front + [l];
    } else {
      hide RingInv;
    }
  }

  lemma GoneGrows(front: seq<Label>, l: Label)
    ensures CapturerGone(front + [l]) <==> CapturerGone(front) || (StopRunning in front && l == RequestStop)
  {
    var ls := front + [l];
    if CapturerGone(ls) {
      var i, j :| 0 <= i < j < |ls| && ls[i] == StopRunning && ls[j] == RequestStop;
      if j < |front| {
        assert front[i] == StopRunning && front[j] == RequestStop;
      }
    }
    if CapturerGone(front) {
      var i, j :| 0 <= i < j < |front| && front[i] == StopRunning && front[j] == RequestStop;
      assert ls[i] == StopRunning && ls[j] == RequestStop;
    }
    if StopRunning in front && l == RequestStop {
      var i :| 0 <= i < |front| && front[i] == StopRunning;
      assert ls[i] == StopRunning && ls[|front|] == RequestStop;
    }
  }

  // ---------- The capture thread ----------

  function Times(ls: seq<Label>, l: Label): nat {
    if ls == [] then 0 else Times(ls[..|ls| - 1], l) + if ls[|ls| - 1] == l then 1 else 0
  }

  // Its steps to the end, a wake-up apart, and the frames it may still deliver.
  function ReaderLeft(rd: RdPc): nat {
    match rd
    case RdLoop => 1
    case RdTry => 3
    case RdAsleep(_) => 3
    case RdDeliver(_) => 2
    case RdDone => 0
  }

  function FramesLeft(rd: RdPc): nat { if rd.RdLoop? || rd.RdDone? then 0 else 1 }

  ghost predicate Told(s: State, max: nat) { Inv(s, max) && EndedWhenTold(s) && s.stopRequested }

  ghost predicate ReaderMoves(s: State, s': State, l: Label) {
    && s'.stopRequested && s.delivered <= s'.delivered
    && |s'.delivered| + FramesLeft(s'.rd) <= |s.delivered| + FramesLeft(s.rd)
    && (!s.rd.RdAsleep? || l == RdWake ==> !s'.rd.RdAsleep?)
    && ReaderLeft(s'.rd) <= ReaderLeft(s.rd) - if l == RdStep && !s.rd.RdAsleep? && s.rd != RdDone then 1 else 0
  }

  lemma ToldReads(max: nat, s: State)
    requires Told(s, max)
    ensures ReaderMoves(s, DoRead(max, s), RdStep)
  {
    if s.rd.RdTry? && s.ring.count > 0 {
      TakeKeeps(max, s);
    }
    hide RingInv, AllGenuine, Accounted, Take, FrameIn;
  }

  lemma ToldStep(max: nat, s: State, l: Label)
    requires Told(s, max)
    ensures Told(Do(max, s, l), max) && ReaderMoves(s, Do(max, s, l), l)
  {
    DoKeeps(max, s, l);
    EndsWhenTold(max, s, l);
    if l == RdStep {
      ToldReads(max, s);
    } else {
      hide Inv, EndedWhenTold;
      OthersLeaveReader(max, s, l);
    }
    hide Inv, EndedWhenTold, Do, DoRead;
  }

  lemma OthersLeaveReader(max: nat, s: State, l: Label)
    requires s.stopRequested && l != RdStep
    ensures ReaderMoves(s, Do(max, s, l), l)
  {
    hide DoRead, Put, Fits, FrameOf;
  }

  lemma {:induction false} ToldRun(max: nat, s: State, ls: seq<Label>)
    requires Told(s, max)
    ensures var e := Exec(max, s, ls);
            && Told(e, max) && s.delivered <= e.delivered
            && |e.delivered| + FramesLeft(e.rd) <= |s.delivered| + FramesLeft(s.rd)
            && (!s.rd.RdAsleep? || RdWake in ls ==> !e.rd.RdAsleep?)
            && ReaderLeft(e.rd) <= ReaderLeft(s.rd)
            && (!s.rd.RdAsleep? ==> ReaderLeft(e.rd) == 0 || ReaderLeft(e.rd) + Times(ls, RdStep) <= ReaderLeft(s.rd))
  {
    hide Told, Do;
    if ls != [] {
      var front, l := ls[..|ls| - 1], ls[|ls| - 1];
      ToldRun(max, s, front);
      ToldStep(max, Exec(max, s, front), l);
      assert ls == front + [l];
    }
  }

  lemma {:induction false} ExecConcat(max: nat, s: State, a: seq<Label>, b: seq<Label>)
    ensures Exec(max, s, a + b) == Exec(max, Exec(max, s, a), b)
  {
    if b == [] {
      assert a + b == a;
    } else {
      assert (a + b)[..|a + b| - 1] == a + b[..|b| - 1];
      hide Do;
      ExecConcat(max, s, a, b[..|b| - 1]);
    }
  }

  // From any state of a run in which the capturer's destructor has told the thread, and
  // whatever the other threads do in between: if it sleeps, one wake-up, and then three
  // steps of its own, and it has ended; and it delivers at most one more frame.
  lemma StoppedReaderEnds(max: nat, s0: State, past: seq<Label>, a: seq<Label>, b: seq<Label>)
    requires Start(s0, max) && CapturerGone(past)
    requires Exec(max, s0, past).rd.RdAsleep? ==> RdWake in a
    ensures var s, e := Exec(max, s0, past), Exec(max, Exec(max, s0, past), a + b);
            && (Times(b, RdStep) >= 3 ==> e.rd == RdDone)
            && s.delivered <= e.delivered && |e.delivered| <= |s.delivered| + 1
  {
    RunInv(max, s0, past);
    FlagsOfRun(max, s0, past);
    RunEndsWhenTold(max, s0, past);
    var s := Exec(max, s0, past);
    assert Told(s, max);
    hide Told, Exec, Inv, EndedWhenTold;
    ExecConcat(max, s, a, b);
    ToldRun(max, s, a);
    ToldRun(max, Exec(max, s, a), b);
  }

  // ---------- The IO thread ----------

  function IoLeft(io: IoPc): nat {
    match io
    case IoExited => 0
    case IoTest => 1
    case IoAsleep(_) => 2
    case IoWrite(_) => 2
    case IoBlocked(_, _) => 3
  }

  // l is a step of the IO thread's own that takes it further.
  ghost predicate IoMove(max: nat, s: State, l: Label) { (l.IoStep? || l.IoWake?) && Do(max, s, l).io != s.io }

  // It wants to write and finds the ring full.
  ghost predicate FindsFull(max: nat, s: State, l: Label) {
    l.IoStep? && s.io.IoWrite? && Do(max, s, l).io.IoBlocked? && s.ring.count == |s.ring.slots|
  }

  ghost function IoMovesIn(max: nat, s: State, ls: seq<Label>): nat {
    if ls == [] then 0
    else
      var front := ls[..|ls| - 1];
      IoMovesIn(max, s, front) + if IoMove(max, Exec(max, s, front), ls[|ls| - 1]) then 1 else 0
  }

  ghost function FullIn(max: nat, s: State, ls: seq<Label>): nat {
    if ls == [] then 0
    else
      var front := ls[..|ls| - 1];
      FullIn(max, s, front) + if FindsFull(max, Exec(max, s, front), ls[|ls| - 1]) then 1 else 0
  }

  // No other frame than the one in hand, if any.
  ghost predicate SameInHand(s: State, e: State) {
    e.io.IoWrite? || e.io.IoBlocked? ==> (s.io.IoWrite? || s.io.IoBlocked?) && e.io.item == s.io.item
  }

  lemma StoppedIoStep(max: nat, s: State, l: Label)
    requires Inv(s, max) && s.stopped
    ensures var e := Do(max, s, l);
            && e.stopped && SameInHand(s, e)
            && IoLeft(e.io) + (if IoMove(max, s, l) then 1 else 0)
               <= IoLeft(s.io) + if FindsFull(max, s, l) then 2 else 0
  {
    hide Inv, DoIo, DoRead, FrameOf;
    if l.IoStep? {
      StoppedIo(max, s);
    } else if l.RdStep? {
      ReaderLeavesIo(max, s);
    }
  }

  lemma StoppedIo(max: nat, s: State)
    requires Inv(s, max) && s.stopped
    ensures var e := DoIo(max, s);
            && e.stopped && SameInHand(s, e)
            && IoLeft(e.io) + (if e.io != s.io then 1 else 0)
               <= IoLeft(s.io) + if s.io.IoWrite? && e.io.IoBlocked? && s.ring.count == |s.ring.slots| then 2 else 0
  {
    hide RingInv, AllGenuine, Accounted, Put, Fits, NoLostWakeup;
    RingRoom(s.ring, max);
  }

  lemma RingRoom(r: Ring, max: nat)
    requires RingInv(r, max)
    ensures r.count <= |r.slots|
  {
  }

  lemma ReaderLeavesIo(max: nat, s: State)
    ensures DoRead(max, s).stopped == s.stopped && IoLeft(DoRead(max, s).io) == IoLeft(s.io)
    ensures SameInHand(s, DoRead(max, s))
  {
    hide Take, FrameIn;
  }

  lemma {:induction false} StoppedIoRun(max: nat, s: State, ls: seq<Label>)
    requires Inv(s, max) && s.stopped
    ensures var e := Exec(max, s, ls);
            && Inv(e, max) && e.stopped && SameInHand(s, e)
            && IoMovesIn(max, s, ls) + IoLeft(e.io) <= IoLeft(s.io) + 2 * FullIn(max, s, ls)
  {
    hide Inv, Do, IoMove, FindsFull;
    if ls != [] {
      var front, l := ls[..|ls| - 1], ls[|ls| - 1];
      StoppedIoRun(max, s, front);
      DoKeeps(max, Exec(max, s, front), l);
      StoppedIoStep(max, Exec(max, s, front), l);
    }
  }

  // Until it has ended, one of its own steps takes it further.
  lemma IoNotStuck(max: nat, s: State)
    requires Inv(s, max) && s.stopped && s.io != IoExited
    ensures IoMove(max, s, IoStep) || IoMove(max, s, IoWake)
  {
    if s.io.IoWrite? && s.io.item.frame.head.frameLen <= max && s.ring.count < |s.ring.slots| {
      IoWriteKeeps(max, s);
    }
    hide RingInv, AllGenuine, Accounted, Put, Fits;
  }

  // From any state of a run in which the renderer's destructor has stopped it, and whatever the other
  // threads do in between: the IO thread takes nothing more out of the mailbox; until it
  // has ended one of its own steps takes it further; and three that do end it, but for
  // two more each time it finds the ring full.
  lemma StoppedIoEnds(max: nat, s0: State, past: seq<Label>, ls: seq<Label>)
    requires Start(s0, max) && StopRenderer in past
    ensures var s, e := Exec(max, s0, past), Exec(max, Exec(max, s0, past), ls);
            && SameInHand(s, e)
            && (e.io != IoExited ==> IoMove(max, e, IoStep) || IoMove(max, e, IoWake))
            && IoMovesIn(max, s, ls) <= 3 + 2 * FullIn(max, s, ls)
            && (IoMovesIn(max, s, ls) == 3 + 2 * FullIn(max, s, ls) ==> e.io == IoExited)
  {
    hide Inv, Do, IoMove, IoMovesIn, FullIn;
    RunInv(max, s0, past);
    FlagsOfRun(max, s0, past);
    var s := Exec(max, s0, past);
    StoppedIoRun(max, s, ls);
    if Exec(max, s, ls).io != IoExited {
      IoNotStuck(max, Exec(max, s, ls));
    }
  }
}
