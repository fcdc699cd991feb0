/** The audio and the video path between two processes as concurrent steps: a source
    thread leaves frames in a latest-wins mailbox, an IO thread carries them into the
    shared ring, and a capture thread takes them out and hands them to the sinks. The
    audio source checks the size of a frame before the mailbox, the video source leaves
    that to the writer of the ring. Each step is one
    stretch of one thread between taking a lock and releasing it (by unlocking or by
    going to sleep on a condition variable), or one lock-free store. Sleeping threads
    sit in explicit wait sets; a signal marks the sleeper, and a sleeper may also wake
    unmarked (timeouts and spurious wakeups). Waits themselves do not fail. */
module FramePipeline {
  import opened Basics
  import opened ShmRing

  // ---------- What the source offers and what the sinks see ----------

  // One OnData call, with the whole buffer it points at, or one packed picture.
  datatype Offer =
    | AudioOffer(bits: nat, sampleRate: nat, channels: nat, frames: nat, ntpTimeMs: int, data: seq<Byte>)
    | VideoOffer(ntpTimeMs: int, info: Info, data: seq<Byte>)

  ghost predicate Coherent(o: Offer)
    requires o.AudioOffer?
  {
    |o.data| == o.frames * o.channels * (o.bits / 8) && o.sampleRate < 0x8000_0000
  }

  // The header stores the sample rate in 32 bits, channels and sample width in 16.
  function InfoOf(o: Offer): Info {
    match o
    case AudioOffer(bits, sampleRate, channels, _, _, _) =>
      AudioInfo(sampleRate % 0x1_0000_0000, channels % 0x1_0000, bits % 0x1_0000)
    case VideoOffer(_, info, _) => info
  }

  function FrameOf(o: Offer): Frame { Frame(Head(o.ntpTimeMs, |o.data|, InfoOf(o)), o.data) }

  // The bytes of one sample frame.
  function Unit(channels: nat, bits: nat): nat { channels * (bits / 8) }

  // The parameters of sink->OnData; None where the capture loop would divide by 0.
  datatype SinkCall = SinkCall(bits: nat, sampleRate: nat, channels: nat, frames: nat, ntpTimeMs: int, data: seq<Byte>)
  function CallFor(f: Frame): Option<SinkCall>
    requires f.head.info.AudioInfo?
  {
    var info := f.head.info;
    var unit := Unit(info.channels, info.bitsPerSample);
    if unit == 0 then None
    else Some(SinkCall(info.bitsPerSample, info.sampleRate, info.channels, f.head.frameLen / unit,
                       f.head.ntpTimeMs, f.payload))
  }

  lemma UnitZeroIff(channels: nat, bits: nat)
    ensures Unit(channels, bits) == 0 <==> channels == 0 || bits < 8
  {
    if channels > 0 && bits >= 8 {
      UnitPositive(channels, bits / 8);
    }
  }

  lemma LengthOverUnit(o: Offer)
    requires o.AudioOffer? && Coherent(o) && Unit(o.channels, o.bits) != 0
    ensures |o.data| / Unit(o.channels, o.bits) == o.frames
  {
    var w := o.bits / 8;
    assert o.frames * o.channels * w == o.frames * (o.channels * w);
    ProductOverUnit(o.frames, o.channels * w);
  }

  // The sink is called with exactly what the source offered if and only if the
  // header fields can hold the format and a sample frame is not empty.
  lemma SinkSeesOffer(o: Offer)
    requires o.AudioOffer? && Coherent(o)
    ensures CallFor(FrameOf(o)) == Some(SinkCall(o.bits, o.sampleRate, o.channels, o.frames, o.ntpTimeMs, o.data))
            <==> o.channels < 0x1_0000 && o.bits < 0x1_0000 && o.channels > 0 && o.bits >= 8
  {
    assert o.sampleRate % 0x1_0000_0000 == o.sampleRate;
    hide Unit, Coherent;
    UnitZeroIff(o.channels, o.bits);
    if o.channels < 0x1_0000 && o.bits < 0x1_0000 && Unit(o.channels, o.bits) != 0 {
      LengthOverUnit(o);
    }
  }

  // In any case the header holds the format modulo its widths, time and bytes as offered;
  // and the capture loop would divide by zero exactly when what is left of the channels
  // is none or what is left of the sample width is less than a byte.
  lemma FormatKept(o: Offer)
    requires o.AudioOffer?
    ensures var f := FrameOf(o);
            && f.head.ntpTimeMs == o.ntpTimeMs && f.payload == o.data && f.head.info.AudioInfo?
            && var info := f.head.info;
               && info.sampleRate < 0x1_0000_0000 && (o.sampleRate - info.sampleRate) % 0x1_0000_0000 == 0
               && info.channels < 0x1_0000 && (o.channels - info.channels) % 0x1_0000 == 0
               && info.bitsPerSample < 0x1_0000 && (o.bits - info.bitsPerSample) % 0x1_0000 == 0
               && (CallFor(f) == None <==> info.channels == 0 || info.bitsPerSample < 8)
  {
    var info := FrameOf(o).head.info;
    UnitZeroIff(info.channels, info.bitsPerSample);
    hide Unit;
  }

  lemma UnitPositive(a: nat, b: nat)
    requires a > 0 && b > 0
    ensures a * b > 0
  {
  }

  lemma ProductOverUnit(n: nat, u: nat)
    requires u > 0
    ensures n * u / u == n
  {
    var q := n * u / u;
    if q < n {
      ProductMonotone(q + 1, n, u);
    } else {
      ProductMonotone(n, q, u);
      if q > n { ProductMonotone(n + 1, q, u); }
    }
  }

  lemma ProductMonotone(a: nat, b: nat, u: nat)
    requires a <= b
    ensures a * u <= b * u
  {
  }

  // ---------- State ----------

  // A frame on its way, with the number of the OnData call that offered it.
  datatype Item = Item(tag: nat, frame: Frame)

  datatype SrcPc = SrcIdle | SrcNotify
  datatype StopPc = StopNone | StopNotify | StopDone
  datatype IoPc =
    | IoTest                                    // before testing the mailbox
    | IoAsleep(notified: bool)                  // waiting on cv_
    | IoWrite(item: Item)                       // before taking the ring's lock
    | IoBlocked(item: Item, signalled: bool)    // waiting on cv_can_write
    | IoExited
  datatype RdPc =
    | RdLoop                                    // at the head of CaptureLoop
    | RdTry                                     // before testing the ring
    | RdAsleep(signalled: bool)                 // waiting on cv_can_read
    | RdDeliver(item: Item)                     // frame copied out, lock released
    | RdDone

  // checks says whether the source rejects frames that are too large; no step changes
  // it. offered, overwritten, refused, delivered and the tags are history: no step
  // reads them.
  datatype State = State(
    checks: bool,
    offered: seq<Offer>, overwritten: set<nat>, refused: set<nat>, delivered: seq<Item>,
    src: SrcPc, mailbox: Option<Item>, stopper: StopPc, stopped: bool, io: IoPc,
    ring: Ring, ringTags: seq<nat>,
    rd: RdPc, running: bool, stopRequested: bool)

  datatype Label =
    | OnData(offer: Offer) | NotifyOne
    | StopRenderer | NotifyAll
    | IoStep | IoWake
    | RdStep | RdWake
    | StopRunning | RequestStop

  ghost predicate Start(s: State, max: nat) {
    && s.offered == [] && s.overwritten == {} && s.refused == {} && s.delivered == []
    && s.src == SrcIdle && s.mailbox == None && s.stopper == StopNone && !s.stopped && s.io == IoTest
    && RingInv(s.ring, max) && s.ring.count == 0 && s.ringTags == []
    && s.rd == RdLoop && s.running && !s.stopRequested
  }

  // ---------- Steps ----------

  function NotifiedIo(io: IoPc): IoPc { if io.IoAsleep? then IoAsleep(true) else io }
  function SignalledWriter(io: IoPc): IoPc { if io.IoBlocked? then io.(signalled := true) else io }
  function SignalledReader(rd: RdPc): RdPc { if rd.RdAsleep? then RdAsleep(true) else rd }

  ghost function DoOnData(max: nat, s: State, o: Offer): State {
    if !s.src.SrcIdle? then s
    else if s.checks && |o.data| > max then s.(offered := s.offered + [o])
    else s.(offered := s.offered + [o], src := SrcNotify,
            overwritten := s.overwritten + (if s.mailbox.Some? then {s.mailbox.value.tag} else {}),
            mailbox := Some(Item(|s.offered|, FrameOf(o))))
  }

  ghost function DoIo(max: nat, s: State): State {
    match s.io
    case IoTest =>
      if s.mailbox.None? && !s.stopped then s.(io := IoAsleep(false))
      else if s.stopped then s.(io := IoExited)
      else s.(io := IoWrite(s.mailbox.value), mailbox := None)
    case IoWrite(item) =>
      if item.frame.head.frameLen > max then s.(io := IoTest, refused := s.refused + {item.tag})
      else if s.ring.count >= |s.ring.slots| then s.(io := IoBlocked(item, false))
      else if !Fits(max, s.ring, item.frame) then s
      else s.(ring := Put(s.ring, item.frame.head, item.frame.payload), ringTags := s.ringTags + [item.tag],
              rd := SignalledReader(s.rd), io := IoTest)
    case _ => s
  }

  // Memory safety of the copy into the slot; holds in every reachable state.
  ghost predicate Fits(max: nat, r: Ring, f: Frame) {
    r.wIdx < |r.slots| && f.head.frameLen <= |f.payload| && f.head.frameLen <= |r.slots[r.wIdx].data|
  }

  ghost function DoRead(max: nat, s: State): State {
    match s.rd
    case RdLoop => s.(rd := if s.running then RdTry else RdDone)
    case RdTry =>
      if s.ring.count <= 0 then s.(rd := if s.stopRequested then RdDone else RdAsleep(false))
      else if !(s.ring.rIdx < |s.ring.slots| && s.ringTags != []) then s
      else
        var slot := s.ring.slots[s.ring.rIdx];
        var s' := s.(ring := Take(s.ring), ringTags := s.ringTags[1..], io := SignalledWriter(s.io));
        if slot.head.frameLen <= max && slot.head.frameLen <= |slot.data|
        then s'.(rd := RdDeliver(Item(s.ringTags[0], FrameIn(slot))))
        else s'.(rd := RdDone)
    case RdDeliver(item) => s.(delivered := s.delivered + [item], rd := RdLoop)
    case _ => s
  }

  // A step that is not possible in s leaves s as it is.
  ghost function Do(max: nat, s: State, l: Label): State {
    match l
    case OnData(o) => DoOnData(max, s, o)
    case NotifyOne => if s.src.SrcNotify? then s.(src := SrcIdle, io := NotifiedIo(s.io)) else s
    case StopRenderer => if s.stopper.StopNone? then s.(stopper := StopNotify, stopped := true) else s
    case NotifyAll => if s.stopper.StopNotify? then s.(stopper := StopDone, io := NotifiedIo(s.io)) else s
    case IoStep => DoIo(max, s)
    case IoWake =>
      if s.io.IoAsleep? then s.(io := IoTest)
      else if s.io.IoBlocked? then s.(io := IoWrite(s.io.item)) else s
    case RdStep => DoRead(max, s)
    case RdWake => if s.rd.RdAsleep? then s.(rd := RdTry) else s
    case StopRunning => s.(running := false)
    case RequestStop => if s.running then s else s.(stopRequested := true)
  }

  ghost function Exec(max: nat, s: State, ls: seq<Label>): State {
    if ls == [] then s else Do(max, Exec(max, s, ls[..|ls| - 1]), ls[|ls| - 1])
  }

  // ---------- Order ----------

  ghost function Tags(items: seq<Item>): seq<nat> {
    seq(|items|, i requires 0 <= i < |items| => items[i].tag)
  }

  ghost function RdTags(rd: RdPc): seq<nat> { if rd.RdDeliver? then [rd.item.tag] else [] }
  ghost function IoTags(io: IoPc): seq<nat> { if io.IoWrite? || io.IoBlocked? then [io.item.tag] else [] }
  ghost function BoxTags(box: Option<Item>): seq<nat> { if box.Some? then [box.value.tag] else [] }

  // Everything past the mailbox, oldest first.
  ghost function Kept(s: State): seq<nat> {
    Tags(s.delivered) + RdTags(s.rd) + s.ringTags + IoTags(s.io)
  }

  ghost predicate Ascending(t: seq<nat>) {
    forall i, j :: 0 <= i < j < |t| ==> t[i] < t[j]
  }

  ghost predicate Genuine(offered: seq<Offer>, it: Item) {
    it.tag < |offered| && it.frame == FrameOf(offered[it.tag])
  }

  // Every frame in hand is the one that was offered under its number.
  ghost predicate AllGenuine(s: State, max: nat)
    requires RingInv(s.ring, max)
  {
    && (forall it :: it in s.delivered ==> Genuine(s.offered, it))
    && (s.rd.RdDeliver? ==> Genuine(s.offered, s.rd.item))
    && (s.io.IoWrite? || s.io.IoBlocked? ==> Genuine(s.offered, s.io.item))
    && (s.io.IoBlocked? || (s.checks && s.io.IoWrite?) ==> s.io.item.frame.head.frameLen <= max)
    && (s.mailbox.Some? ==> Genuine(s.offered, s.mailbox.value))
    && (s.checks && s.mailbox.Some? ==> s.mailbox.value.frame.head.frameLen <= max)
    && |s.ringTags| == s.ring.count
    && (forall i :: 0 <= i < s.ring.count ==>
          Genuine(s.offered, Item(s.ringTags[i], Contents(s.ring, max)[i])))
  }

  // What became of offer number k.
  ghost predicate TooLarge(s: State, k: nat, max: nat)
    requires k < |s.offered|
  {
    |s.offered[k].data| > max
  }

  // The source did not put it into the mailbox.
  ghost predicate Rejected(s: State, k: nat, max: nat)
    requires k < |s.offered|
  {
    s.checks && TooLarge(s, k, max)
  }

  ghost predicate Accounted(s: State, max: nat) {
    && Ascending(Kept(s) + BoxTags(s.mailbox))
    && (forall k :: k in Kept(s) + BoxTags(s.mailbox) ==> k < |s.offered|)
    && (forall k: nat :: k < |s.offered| && !Rejected(s, k, max) && k !in s.overwritten && k !in s.refused
                         ==> k in Kept(s) + BoxTags(s.mailbox))
    // latest wins: nothing acceptable was offered after the frame in the mailbox
    && (forall k: nat :: s.mailbox.Some? && s.mailbox.value.tag < k < |s.offered| ==> Rejected(s, k, max))
    // an overwritten frame was replaced by a later acceptable one
    && (forall k :: k in s.overwritten ==>
          k < |s.offered| && k !in Kept(s) + BoxTags(s.mailbox)
          && exists m: nat :: k < m < |s.offered| && !Rejected(s, m, max))
    // only the writer refuses, and only what is too large
    && (forall k :: k in s.refused ==>
          k < |s.offered| && !s.checks && TooLarge(s, k, max) && k !in Kept(s) + BoxTags(s.mailbox))
  }

  // ---------- Wakeups ----------

  ghost predicate NoLostWakeup(s: State) {
    && (s.io.IoBlocked? && !s.io.signalled ==> s.ring.count == |s.ring.slots|)
    && (s.rd.RdAsleep? && !s.rd.signalled ==> s.ring.count == 0)
    && (s.io.IoAsleep? && !s.io.notified && s.mailbox.Some? ==> s.src.SrcNotify?)
    && (s.io.IoAsleep? && !s.io.notified && s.stopped ==> s.stopper.StopNotify?)
  }

  ghost predicate Inv(s: State, max: nat) {
    RingInv(s.ring, max) && AllGenuine(s, max) && Accounted(s, max) && NoLostWakeup(s)
  }

  // ---------- Each step keeps the invariant ----------

  lemma AscendingAppend(t: seq<nat>, k: nat)
    requires Ascending(t) && forall x :: x in t ==> x < k
    ensures Ascending(t + [k])
  {
    assert forall i :: 0 <= i < |t| ==> t[i] in t;
  }

  // Overwriting: the newcomer takes the mailbox's place at the end of the line.
  lemma OverwriteAccounts(max: nat, s: State, o: Offer)
    requires Accounted(s, max) && s.src.SrcIdle? && (s.checks ==> |o.data| <= max)
    ensures Accounted(DoOnData(max, s, o), max)
  {
    hide Tags, RdTags, IoTags;
    var s' := DoOnData(max, s, o);
    var n, kept, chain := |s.offered|, Kept(s), Kept(s) + BoxTags(s.mailbox);
    assert Kept(s') == kept && BoxTags(s'.mailbox) == [n];
    assert forall i :: 0 <= i < |kept| ==> kept[i] == chain[i];
    assert forall k :: k in kept ==> k in chain;
    AscendingAppend(kept, n);
    assert forall k: nat :: k < n ==> TooLarge(s', k, max) == TooLarge(s, k, max);
    assert forall k: nat :: k < n ==> Rejected(s', k, max) == Rejected(s, k, max);
    assert !Rejected(s', n, max);
    if s.mailbox.Some? {
      var prior := s.mailbox.value.tag;
      assert chain[|kept|] == prior;
      assert prior in chain;
    }
    forall k | k in s'.overwritten
      ensures k < n && k !in kept + [n] && exists m: nat :: k < m < n + 1 && !Rejected(s', m, max)
    {
      assert k < n;
    }
  }

  lemma RejectAccounts(max: nat, s: State, o: Offer)
    requires Accounted(s, max) && s.src.SrcIdle? && s.checks && |o.data| > max
    ensures Accounted(DoOnData(max, s, o), max)
  {
    hide Tags, RdTags, IoTags;
    var s' := DoOnData(max, s, o);
    var n := |s.offered|;
    assert Kept(s') == Kept(s);
    assert forall k: nat :: k < n ==> TooLarge(s', k, max) == TooLarge(s, k, max);
    assert forall k: nat :: k < n ==> Rejected(s', k, max) == Rejected(s, k, max);
    assert Rejected(s', n, max);
    forall k | k in s.overwritten ensures exists m: nat :: k < m < n + 1 && !Rejected(s', m, max) {
      var m: nat :| k < m < n && !Rejected(s, m, max);
      assert !Rejected(s', m, max);
    }
  }

  lemma OnDataKeeps(max: nat, s: State, o: Offer)
    requires Inv(s, max)
    ensures Inv(DoOnData(max, s, o), max)
  {
    hide Accounted, RingInv, AllGenuine;
    OnDataGenuine(max, s, o);
    if s.src.SrcIdle? {
      if !s.checks || |o.data| <= max {
        OverwriteAccounts(max, s, o);
      } else {
        RejectAccounts(max, s, o);
      }
    }
  }

  lemma OnDataGenuine(max: nat, s: State, o: Offer)
    requires RingInv(s.ring, max) && AllGenuine(s, max)
    ensures DoOnData(max, s, o).ring == s.ring && AllGenuine(DoOnData(max, s, o), max)
  {
    hide RingInv, Contents, FrameOf, TooLarge;
    FrameLength(o);
    forall it | Genuine(s.offered, it) ensures Genuine(DoOnData(max, s, o).offered, it) {}
    hide Genuine;
    assert Genuine(s.offered + [o], Item(|s.offered|, FrameOf(o))) by { NewIsGenuine(s.offered, o); }
  }

  lemma NewIsGenuine(offered: seq<Offer>, o: Offer)
    ensures Genuine(offered + [o], Item(|offered|, FrameOf(o)))
  {
  }

  lemma FrameLength(o: Offer)
    ensures FrameOf(o).payload == o.data && FrameOf(o).head.frameLen == |o.data|
  {
  }

  // A step that only moves frames along keeps the accounts.
  lemma MoveKeepsAccounts(s: State, s': State, max: nat)
    requires Accounted(s, max)
    requires s'.checks == s.checks && s'.refused == s.refused
    requires s'.offered == s.offered && s'.overwritten == s.overwritten
    requires Kept(s') + BoxTags(s'.mailbox) == Kept(s) + BoxTags(s.mailbox)
    requires s'.mailbox == s.mailbox || s'.mailbox.None?
    ensures Accounted(s', max)
  {
    assert forall k: nat :: k < |s.offered| ==> TooLarge(s', k, max) == TooLarge(s, k, max);
    assert forall k: nat :: k < |s.offered| ==> Rejected(s', k, max) == Rejected(s, k, max);
  }

  // The writer turns a frame down: it leaves the line, the others close up.
  lemma RefuseKeeps(max: nat, s: State)
    requires Inv(s, max) && s.io.IoWrite? && s.io.item.frame.head.frameLen > max
    ensures Inv(DoIo(max, s), max)
  {
    RefuseGenuine(max, s);
    RefuseAccounts(max, s);
    hide Accounted, AllGenuine, RingInv;
  }

  lemma RefuseGenuine(max: nat, s: State)
    requires RingInv(s.ring, max) && AllGenuine(s, max) && s.io.IoWrite? && s.io.item.frame.head.frameLen > max
    ensures DoIo(max, s).ring == s.ring && AllGenuine(DoIo(max, s), max)
  {
    hide RingInv, Contents, FrameOf;
  }

  lemma RefuseAccounts(max: nat, s: State)
    requires Accounted(s, max) && s.io.IoWrite? && s.io.item.frame.head.frameLen > max
    requires Genuine(s.offered, s.io.item) && !s.checks
    ensures Accounted(DoIo(max, s), max)
  {
    hide Tags, RdTags;
    var s' := DoIo(max, s);
    var front, tag, box := Tags(s.delivered) + RdTags(s.rd) + s.ringTags, s.io.item.tag, BoxTags(s.mailbox);
    assert Kept(s) == front + [tag] && Kept(s') == front + [] == front;
    FrameLength(s.offered[tag]);
    LeavesLine(front, tag, box);
    assert forall k: nat :: k < |s.offered| ==> TooLarge(s', k, max) == TooLarge(s, k, max);
    assert forall k: nat :: k < |s.offered| ==> Rejected(s', k, max) == Rejected(s, k, max);
  }

  lemma LeavesLine(front: seq<nat>, tag: nat, box: seq<nat>)
    requires Ascending(front + [tag] + box)
    ensures Ascending(front + box) && tag !in front + box
    ensures forall k :: k in front + [tag] + box <==> k == tag || k in front + box
  {
    var line := front + [tag] + box;
    forall i | 0 <= i < |front| ensures line[i] == front[i] && front[i] < tag {
      assert line[|front|] == tag;
    }
    forall j | 0 <= j < |box| ensures line[|front| + 1 + j] == box[j] && tag < box[j] {
      assert line[|front|] == tag;
    }
    LineMembers(front, tag, box);
  }

  lemma LineMembers(front: seq<nat>, tag: nat, box: seq<nat>)
    ensures forall k :: k in front + [tag] + box <==> k == tag || k in front + box
  {
    forall k ensures k in front + [tag] + box <==> k == tag || k in front + box {
      assert k in front + [tag] + box <==> k in front || k == tag || k in box;
      assert k in front + box <==> k in front || k in box;
    }
  }

  lemma IoWriteKeeps(max: nat, s: State)
    requires Inv(s, max) && s.io.IoWrite? && s.ring.count < |s.ring.slots|
    requires s.io.item.frame.head.frameLen <= max
    ensures Inv(DoIo(max, s), max)
    ensures DoIo(max, s).io == IoTest && DoIo(max, s).ringTags == s.ringTags + [s.io.item.tag]
  {
    hide Accounted, TooLarge;
    var f := s.io.item.frame;
    var s' := DoIo(max, s);
    PutAppends(s.ring, max, f.head, f.payload);
    assert Fits(max, s.ring, f);
    assert f.payload[..f.head.frameLen] == f.payload;
    assert RdTags(s'.rd) == RdTags(s.rd);
    assert Kept(s') == Tags(s.delivered) + RdTags(s.rd) + (s.ringTags + [s.io.item.tag]) + [];
    assert Kept(s') == Kept(s);
    MoveKeepsAccounts(s, s', max);
  }

  lemma IoKeeps(max: nat, s: State)
    requires Inv(s, max)
    ensures Inv(DoIo(max, s), max)
  {
    if s.io.IoWrite? && s.io.item.frame.head.frameLen > max {
      RefuseKeeps(max, s);
    } else if s.io.IoWrite? && s.ring.count < |s.ring.slots| {
      IoWriteKeeps(max, s);
    } else {
      hide Accounted, RingInv, AllGenuine, Kept, NoLostWakeup, DoIo;
      IoGenuine(max, s);
      IoMoves(max, s);
      IoWakeups(max, s);
      MoveKeepsAccounts(s, DoIo(max, s), max);
    }
  }

  // The steps of the IO thread that do not write to the ring.
  lemma IoMoves(max: nat, s: State)
    requires !(s.io.IoWrite? && s.ring.count < |s.ring.slots|)
    requires s.io.IoWrite? ==> s.io.item.frame.head.frameLen <= max
    ensures var s' := DoIo(max, s);
            && s'.checks == s.checks && s'.refused == s.refused
            && s'.ring == s.ring && s'.offered == s.offered && s'.overwritten == s.overwritten
            && Kept(s') + BoxTags(s'.mailbox) == Kept(s) + BoxTags(s.mailbox)
            && (s'.mailbox == s.mailbox || s'.mailbox.None?)
  {
    hide Tags, RingInv, FrameOf;
  }

  lemma IoGenuine(max: nat, s: State)
    requires RingInv(s.ring, max) && AllGenuine(s, max) && !(s.io.IoWrite? && s.ring.count < |s.ring.slots|)
    requires s.io.IoWrite? ==> s.io.item.frame.head.frameLen <= max
    ensures DoIo(max, s).ring == s.ring
    ensures AllGenuine(DoIo(max, s), max)
  {
    hide RingInv, Contents, FrameOf, Tags;
  }

  lemma IoWakeups(max: nat, s: State)
    requires NoLostWakeup(s) && !(s.io.IoWrite? && s.ring.count < |s.ring.slots|)
    requires RingInv(s.ring, max)
    ensures NoLostWakeup(DoIo(max, s))
  {
  }

  lemma TakeGenuine(max: nat, s: State)
    requires RingInv(s.ring, max) && AllGenuine(s, max) && s.rd.RdTry? && s.ring.count > 0
    ensures var s' := DoRead(max, s);
            && s'.rd == RdDeliver(Item(s.ringTags[0], FrameIn(s.ring.slots[At(s.ring, 0)])))
            && s'.ring == Take(s.ring) && RingInv(s'.ring, max) && s'.ringTags == s.ringTags[1..]
            && AllGenuine(s', max)
  {
    hide FrameOf;
    var s' := DoRead(max, s);
    TakeRemoves(s.ring, max);
    var f := FrameIn(s.ring.slots[s.ring.rIdx]);
    hide RingInv, Take;
    assert Contents(s.ring, max)[0] == f;
    assert Genuine(s.offered, Item(s.ringTags[0], f));
    assert forall i :: 0 <= i < s'.ring.count ==> Contents(s'.ring, max)[i] == Contents(s.ring, max)[i + 1];
  }

  lemma TakeKeeps(max: nat, s: State)
    requires Inv(s, max) && s.rd.RdTry? && s.ring.count > 0
    ensures Inv(DoRead(max, s), max)
    ensures DoRead(max, s).rd.RdDeliver?
    ensures SignalledWriter(s.io) == DoRead(max, s).io && DoRead(max, s).ring == Take(s.ring)
  {
    var s' := DoRead(max, s);
    TakeGenuine(max, s);
    TakeKept(s, s');
    hide Accounted, AllGenuine, RingInv, Kept, FrameIn;
    MoveKeepsAccounts(s, s', max);
  }

  lemma TakeKept(s: State, s': State)
    requires s.rd.RdTry? && s.ringTags != [] && s'.delivered == s.delivered && s'.io == SignalledWriter(s.io)
    requires s'.rd.RdDeliver? && s'.rd.item.tag == s.ringTags[0] && s'.ringTags == s.ringTags[1..]
    ensures Kept(s') == Kept(s)
  {
    hide Tags;
    assert s.ringTags == [s.ringTags[0]] + s.ringTags[1..];
    assert Kept(s') == Tags(s.delivered) + [s.ringTags[0]] + s.ringTags[1..] + IoTags(s.io);
  }

  lemma DeliverKeeps(max: nat, s: State)
    requires Inv(s, max) && s.rd.RdDeliver?
    ensures Inv(DoRead(max, s), max)
  {
    hide Accounted, RingInv, Contents, FrameOf;
    var s' := DoRead(max, s);
    assert Tags(s'.delivered) == Tags(s.delivered) + [s.rd.item.tag];
    hide Tags;
    assert Kept(s') == Tags(s.delivered) + [s.rd.item.tag] + [] + s.ringTags + IoTags(s.io);
    assert Kept(s') == Kept(s);
    MoveKeepsAccounts(s, s', max);
  }

  lemma ReadKeeps(max: nat, s: State)
    requires Inv(s, max)
    ensures Inv(DoRead(max, s), max)
  {
    if s.rd.RdTry? && s.ring.count > 0 {
      TakeKeeps(max, s);
    } else if s.rd.RdDeliver? {
      DeliverKeeps(max, s);
    } else {
      hide Accounted, RingInv, Contents, FrameOf, Tags;
      assert Kept(DoRead(max, s)) == Kept(s);
      MoveKeepsAccounts(s, DoRead(max, s), max);
    }
  }

  // Notifications, stops and wakeups move no frame.
  lemma QuietKeeps(max: nat, s: State, l: Label)
    requires Inv(s, max) && !l.OnData? && !l.IoStep? && !l.RdStep?
    ensures Inv(Do(max, s, l), max)
  {
    hide Accounted, RingInv, AllGenuine, NoLostWakeup, Do, Tags, RdTags, IoTags;
    QuietMoves(max, s, l);
    QuietGenuine(max, s, l);
    QuietWakeups(max, s, l);
    MoveKeepsAccounts(s, Do(max, s, l), max);
  }

  lemma QuietWakeups(max: nat, s: State, l: Label)
    requires NoLostWakeup(s) && !l.OnData? && !l.IoStep? && !l.RdStep?
    ensures NoLostWakeup(Do(max, s, l))
  {
    hide FrameOf, Tags;
  }

  lemma QuietMoves(max: nat, s: State, l: Label)
    requires !l.OnData? && !l.IoStep? && !l.RdStep?
    ensures Unmoved(s, Do(max, s, l))
  {
    hide DoOnData, DoIo, DoRead, Do;
    if l.IoWake? {
      IoWakeMoves(max, s);
    } else if l.NotifyOne? || l.NotifyAll? {
      NotifyMoves(max, s, l);
    } else {
      OtherQuietMoves(max, s, l);
    }
  }

  // What a step that moves no frame leaves alone.
  ghost predicate Unmoved(s: State, s': State) {
    && s'.ring == s.ring && s'.ringTags == s.ringTags && s'.delivered == s.delivered
    && RdTags(s'.rd) == RdTags(s.rd) && IoTags(s'.io) == IoTags(s.io)
    && s'.offered == s.offered && s'.overwritten == s.overwritten
    && s'.mailbox == s.mailbox && s'.checks == s.checks && s'.refused == s.refused
  }

  lemma IoWakeMoves(max: nat, s: State)
    ensures Unmoved(s, Do(max, s, IoWake))
  {
  }

  lemma NotifyMoves(max: nat, s: State, l: Label)
    requires l.NotifyOne? || l.NotifyAll?
    ensures Unmoved(s, Do(max, s, l))
  {
  }

  lemma OtherQuietMoves(max: nat, s: State, l: Label)
    requires l.StopRenderer? || l.RdWake? || l.StopRunning? || l.RequestStop?
    ensures Unmoved(s, Do(max, s, l))
  {
  }

  lemma QuietGenuine(max: nat, s: State, l: Label)
    requires RingInv(s.ring, max) && AllGenuine(s, max) && !l.OnData? && !l.IoStep? && !l.RdStep?
    ensures Do(max, s, l).ring == s.ring && AllGenuine(Do(max, s, l), max)
  {
    hide RingInv, Contents, FrameOf, Tags, DoOnData, DoIo, DoRead;
    match l
    case NotifyOne =>
    case StopRenderer =>
    case NotifyAll =>
    case IoWake =>
    case RdWake =>
    case StopRunning =>
    case RequestStop =>
  }

  lemma DoKeeps(max: nat, s: State, l: Label)
    requires Inv(s, max)
    ensures Inv(Do(max, s, l), max)
  {
    hide Inv, DoOnData, DoIo, DoRead;
    if l.OnData? {
      OnDataKeeps(max, s, l.offer);
    } else if l.IoStep? {
      IoKeeps(max, s);
    } else if l.RdStep? {
      ReadKeeps(max, s);
    } else {
      QuietKeeps(max, s, l);
    }
  }

  lemma {:induction false} RunInv(max: nat, s: State, ls: seq<Label>)
    requires Start(s, max)
    ensures Inv(Exec(max, s, ls), max)
  {
    if ls != [] {
      RunInv(max, s, ls[..|ls| - 1]);
      DoKeeps(max, Exec(max, s, ls[..|ls| - 1]), ls[|ls| - 1]);
    }
  }

  // ---------- Main results ----------

  // Why offer k has not been delivered.
  ghost predicate Excused(e: State, k: nat, max: nat)
    requires k < |e.offered|
  {
    || (|e.offered[k].data| > max && (e.checks || k in e.refused))
    || (k in e.overwritten
        && exists m: nat :: k < m < |e.offered| && (e.checks ==> |e.offered[m].data| <= max))
    || k in RdTags(e.rd) + e.ringTags + IoTags(e.io) + BoxTags(e.mailbox)
  }

  lemma DeliveredFromInv(e: State, max: nat)
    requires Inv(e, max)
    ensures forall i, j :: 0 <= i < j < |e.delivered| ==> e.delivered[i].tag < e.delivered[j].tag
    ensures forall it :: it in e.delivered ==> Genuine(e.offered, it)
    ensures forall k: nat :: k < |e.offered| && k !in Tags(e.delivered) ==> Excused(e, k, max)
  {
    hide RingInv, Contents, FrameOf, RdTags, IoTags, Accounted, NoLostWakeup;
    LineInOrder(e, max);
    forall k: nat | k < |e.offered| && k !in Tags(e.delivered) ensures Excused(e, k, max) {
      AllExcused(e, k, max);
    }
  }

  lemma LineInOrder(e: State, max: nat)
    requires Accounted(e, max)
    ensures forall i, j :: 0 <= i < j < |e.delivered| ==> e.delivered[i].tag < e.delivered[j].tag
  {
    hide RdTags, IoTags, BoxTags;
    var chain := Kept(e) + BoxTags(e.mailbox);
    assert forall i :: 0 <= i < |e.delivered| ==> chain[i] == e.delivered[i].tag;
  }

  lemma AllExcused(e: State, k: nat, max: nat)
    requires Accounted(e, max) && k < |e.offered| && k !in Tags(e.delivered)
    ensures Excused(e, k, max)
  {
    hide Tags, RdTags, IoTags, BoxTags, Ascending;
    if Rejected(e, k, max) {
    } else if k in e.overwritten {
      var m: nat :| k < m < |e.offered| && !Rejected(e, m, max);
      assert e.offered[m] == e.offered[m] && (e.checks ==> |e.offered[m].data| <= max);
    } else if k in e.refused {
      assert TooLarge(e, k, max);
    } else {
      var rest := RdTags(e.rd) + e.ringTags + IoTags(e.io) + BoxTags(e.mailbox);
      assert Kept(e) + BoxTags(e.mailbox) == Tags(e.delivered) + rest;
      assert k in Tags(e.delivered) + rest;
    }
  }

  // For every interleaving: what the sinks have been given is, in order and without
  // repetition, a selection of the frames offered, each unchanged; and an offer that
  // is missing was too large (turned down by the source if it checks, by the writer if
  // not), or was overwritten in the mailbox by a later one, or is still on its way.
  lemma DeliveredInOrder(max: nat, s: State, ls: seq<Label>)
    requires Start(s, max)
    ensures var e := Exec(max, s, ls);
            && (forall i, j :: 0 <= i < j < |e.delivered| ==> e.delivered[i].tag < e.delivered[j].tag)
            && (forall it :: it in e.delivered ==> Genuine(e.offered, it))
            && (forall k: nat :: k < |e.offered| && k !in Tags(e.delivered) ==> Excused(e, k, max))
  {
    RunInv(max, s, ls);
    DeliveredFromInv(Exec(max, s, ls), max);
  }

  // What the sinks are called with, over every run: for each frame delivered, exactly
  // what the source was called with if and only if the header can hold the format.
  lemma SinksHearOffers(max: nat, s: State, ls: seq<Label>, it: Item)
    requires Start(s, max) && it in Exec(max, s, ls).delivered
    requires forall o :: o in Exec(max, s, ls).offered ==> o.AudioOffer? && Coherent(o)
    ensures it.tag < |Exec(max, s, ls).offered| && it.frame.head.info.AudioInfo?
    ensures var o := Exec(max, s, ls).offered[it.tag];
            CallFor(it.frame) == Some(SinkCall(o.bits, o.sampleRate, o.channels, o.frames, o.ntpTimeMs, o.data))
            <==> 0 < o.channels < 0x1_0000 && 8 <= o.bits < 0x1_0000
  {
    hide Exec, Start, Coherent, CallFor, Excused;
    DeliveredInOrder(max, s, ls);
    var e := Exec(max, s, ls);
    assert Genuine(e.offered, it) && e.offered[it.tag] in e.offered;
    SinkSeesOffer(e.offered[it.tag]);
  }

  // The reader's discard branch never fires, behind a checking source the writer's size
  // check does not either, and the ring always holds what the IO thread put into it.
  lemma RingNeverDrops(max: nat, s: State, ls: seq<Label>)
    requires Start(s, max)
    ensures var e := Exec(max, s, ls);
            && (e.rd.RdTry? && e.ring.count > 0 ==> DoRead(max, e).rd.RdDeliver?)
            && (e.checks && e.io.IoWrite? ==> e.io.item.frame.head.frameLen <= max)
            && (e.io.IoWrite? && e.io.item.frame.head.frameLen <= max && e.ring.count < |e.ring.slots| ==>
                  DoIo(max, e).ringTags == e.ringTags + [e.io.item.tag])
  {
    RunInv(max, s, ls);
    var e := Exec(max, s, ls);
    if e.rd.RdTry? && e.ring.count > 0 {
      TakeKeeps(max, e);
    }
    if e.io.IoWrite? && e.io.item.frame.head.frameLen <= max && e.ring.count < |e.ring.slots| {
      IoWriteKeeps(max, e);
    }
  }

  // ---------- When the writer refuses ----------

  lemma {:induction false} OfferedFrom(max: nat, s: State, ls: seq<Label>)
    requires s.offered == []
    ensures forall o :: o in Exec(max, s, ls).offered ==> OnData(o) in ls
    ensures Exec(max, s, ls).checks == s.checks
  {
    if ls != [] {
      OfferedFrom(max, s, ls[..|ls| - 1]);
      hide Do;
      OfferedStep(max, Exec(max, s, ls[..|ls| - 1]), ls[|ls| - 1]);
      assert ls[|ls| - 1] in ls;
    }
  }

  lemma OfferedStep(max: nat, s: State, l: Label)
    ensures Do(max, s, l).checks == s.checks
    ensures Do(max, s, l).offered == s.offered || (l.OnData? && Do(max, s, l).offered == s.offered + [l.offer])
  {
    hide FrameOf;
    IoOffersNothing(max, s);
    ReadOffersNothing(max, s);
    hide DoIo, DoRead;
  }

  lemma IoOffersNothing(max: nat, s: State)
    ensures DoIo(max, s).offered == s.offered && DoIo(max, s).checks == s.checks
  {
    hide Put, Fits;
  }

  lemma ReadOffersNothing(max: nat, s: State)
    ensures DoRead(max, s).offered == s.offered && DoRead(max, s).checks == s.checks
  {
    hide Take, FrameIn;
  }

  lemma RefusedWereOffered(max: nat, s: State, ls: seq<Label>)
    requires Start(s, max)
    ensures Exec(max, s, ls).refused != {} ==> exists o :: OnData(o) in ls && |o.data| > max
  {
    hide RingInv, AllGenuine, Kept;
    RunInv(max, s, ls);
    OfferedFrom(max, s, ls);
    var e := Exec(max, s, ls);
    if k :| k in e.refused {
      assert TooLarge(e, k, max) && e.offered[k] in e.offered;
    }
  }

  lemma RefusedRun(max: nat, s: State, o: Offer)
    requires Start(s, max) && !s.checks && |o.data| > max
    ensures Exec(max, s, [OnData(o), IoStep, IoStep]).refused == {0}
  {
    var ls := [OnData(o), IoStep, IoStep];
    assert ls[..2][..1] == [OnData(o)] && [OnData(o)][..0] == [];
    assert ls[..2] == [OnData(o), IoStep];
    FrameLength(o);
    var a := Do(max, s, OnData(o));
    assert Exec(max, s, [OnData(o)]) == a;
    assert Exec(max, s, ls[..2]) == Do(max, a, IoStep);
  }

  // Behind a source that does not check, the writer never refuses a frame, over every
  // run with frames from this set, if and only if none of them is too large.
  lemma WriterRefusesIff(max: nat, s: State, frames: iset<Offer>)
    requires Start(s, max) && !s.checks
    ensures (forall ls :: (forall o :: OnData(o) in ls ==> o in frames) ==> Exec(max, s, ls).refused == {})
            <==> forall o :: o in frames ==> |o.data| <= max
  {
    if forall o :: o in frames ==> |o.data| <= max {
      forall ls: seq<Label> | forall o :: OnData(o) in ls ==> o in frames
        ensures Exec(max, s, ls).refused == {}
      {
        hide Exec;
        RefusedWereOffered(max, s, ls);
      }
    } else {
      var o :| o in frames && |o.data| > max;
      RefusedRun(max, s, o);
      hide Exec;
      var ls := [OnData(o), IoStep, IoStep];
      assert forall x :: OnData(x) in ls ==> x == o;
    }
  }

  // No lost wakeup: a writer asleep while there is space, or a reader asleep while
  // there is a frame, has been signalled; the two are never both asleep unsignalled;
  // an IO thread asleep over a full mailbox or a stop has a notification coming.
  lemma NobodyForgotten(max: nat, s: State, ls: seq<Label>)
    requires Start(s, max)
    ensures var e := Exec(max, s, ls);
            && NoLostWakeup(e)
            && !(e.io.IoBlocked? && !e.io.signalled && e.rd.RdAsleep? && !e.rd.signalled)
  {
    RunInv(max, s, ls);
  }

  // After a successful read a blocked writer is signalled, and whatever the other
  // threads do meanwhile, when it wakes it finds room and writes its frame.
  lemma {:induction false} ReadReleasesWriter(max: nat, s: State, ls: seq<Label>)
    requires Inv(s, max) && s.rd.RdTry? && s.ring.count > 0 && s.io.IoBlocked?
    requires forall l :: l in ls ==> !l.IoStep? && !l.IoWake?
    ensures var e := Exec(max, DoRead(max, s), ls);
            && e.io == IoBlocked(s.io.item, true) && Inv(e, max)
            && var w := Do(max, Do(max, e, IoWake), IoStep);
               w.io == IoTest && w.ringTags == e.ringTags + [s.io.item.tag]
  {
    RoomStays(max, s, ls);
    var e := Exec(max, DoRead(max, s), ls);
    DoKeeps(max, e, IoWake);
    IoWriteKeeps(max, Do(max, e, IoWake));
  }

  lemma {:induction false} RoomStays(max: nat, s: State, ls: seq<Label>)
    requires Inv(s, max) && s.rd.RdTry? && s.ring.count > 0 && s.io.IoBlocked?
    requires forall l :: l in ls ==> !l.IoStep? && !l.IoWake?
    ensures var e := Exec(max, DoRead(max, s), ls);
            && Inv(e, max) && e.io == IoBlocked(s.io.item, true) && e.ring.count < |e.ring.slots|
  {
    if ls == [] {
      TakeKeeps(max, s);
    } else {
      var n := |ls| - 1;
      RoomStays(max, s, ls[..n]);
      var e := Exec(max, DoRead(max, s), ls[..n]);
      DoKeeps(max, e, ls[n]);
      RoomStaysStep(max, e, ls[n], s.io.item);
    }
  }

  lemma RoomStaysStep(max: nat, e: State, l: Label, item: Item)
    requires e.io == IoBlocked(item, true) && e.ring.count < |e.ring.slots|
    requires !l.IoStep? && !l.IoWake?
    ensures var e' := Do(max, e, l); e'.io == IoBlocked(item, true) && e'.ring.count < |e'.ring.slots|
  {
    hide FrameIn, FrameOf;
    if l.RdStep? {
      ReadMakesRoom(max, e, item);
    }
    hide DoRead;
  }

  lemma ReadMakesRoom(max: nat, e: State, item: Item)
    requires e.io == IoBlocked(item, true) && e.ring.count < |e.ring.slots|
    ensures var e' := DoRead(max, e); e'.io == IoBlocked(item, true) && e'.ring.count < |e'.ring.slots|
  {
    hide FrameIn, Take;
    if 0 < |e.ring.slots| && 0 < e.ring.count {
      TakeCounts(e.ring);
    }
  }

  lemma TakeCounts(r: Ring)
    requires 0 < |r.slots| && 0 < r.count
    ensures Take(r).count == r.count - 1 && |Take(r).slots| == |r.slots|
  {
  }
}
