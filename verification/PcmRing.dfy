/** The PCM ring of the audio loopback program: no frame count; one of its eight slots
    stays free to tell full from empty. */
module PcmRing {
  import opened Basics

  const NUM_SLOTS := 8
  const SLOT_BYTES := 1920

  // ---------- The bounded queue ----------

  type Pcm = seq<Byte>

  const CAPACITY := NUM_SLOTS - 1

  function Offered(q: seq<Pcm>, x: Pcm): seq<Pcm> { if |q| < CAPACITY then q + [x] else q }

  function Polled(q: seq<Pcm>): seq<Pcm> { if q == [] then [] else q[1..] }

  datatype Op = Offer(x: Pcm) | Poll

  // taken: the accepted offers; heard: what polls returned, silence left out.
  datatype Queue = Queue(waiting: seq<Pcm>, taken: seq<Pcm>, heard: seq<Pcm>)

  function Run(ops: seq<Op>): Queue {
    if ops == [] then Queue([], [], [])
    else
      var s := Run(ops[..|ops| - 1]);
      match ops[|ops| - 1]
      case Offer(x) => Queue(Offered(s.waiting, x), if |s.waiting| < CAPACITY then s.taken + [x] else s.taken, s.heard)
      case Poll => Queue(Polled(s.waiting), s.taken, if s.waiting != [] then s.heard + [s.waiting[0]] else s.heard)
  }

  lemma RunAppend(ops: seq<Op>, op: Op)
    ensures var s, t := Run(ops), Run(ops + [op]);
            t.waiting == (if op.Offer? then Offered(s.waiting, op.x) else Polled(s.waiting))
            && (op.Poll? && s.waiting != [] ==> t.heard == s.heard + [s.waiting[0]])
  {
    assert (ops + [op])[..|ops|] == ops;
  }

  // Over every run, what was heard followed by what waits is what was taken.
  lemma {:induction false} HeardInOrder(ops: seq<Op>)
    ensures Run(ops).heard + Run(ops).waiting == Run(ops).taken
    ensures |Run(ops).waiting| <= CAPACITY
  {
    if ops != [] {
      HeardInOrder(ops[..|ops| - 1]);
      var s := Run(ops[..|ops| - 1]);
      match ops[|ops| - 1]
      case Offer(x) =>
        assert s.heard + (s.waiting + [x]) == (s.heard + s.waiting) + [x];
      case Poll =>
        if s.waiting != [] {
          assert (s.heard + [s.waiting[0]]) + s.waiting[1..] == s.heard + s.waiting;
        }
    }
  }

  // ---------- Indexes ----------

  // Used slots and free slots by the two-case formulas of the source.
  function Used(w: nat, r: nat): nat
    requires w < NUM_SLOTS && r < NUM_SLOTS
  {
    if w >= r then w - r else NUM_SLOTS - r + w
  }

  function Free(w: nat, r: nat): nat
    requires w < NUM_SLOTS && r < NUM_SLOTS
  {
    if w >= r then (NUM_SLOTS - 1) - (w - r) else r - w - 1
  }

  // The slot i places after k.
  function Nth(k: nat, i: nat): (j: nat)
    requires k < NUM_SLOTS && i < NUM_SLOTS
    ensures j < NUM_SLOTS
  {
    if k + i < NUM_SLOTS then k + i else k + i - NUM_SLOTS
  }

  function Next(k: nat): (j: nat)
    requires k < NUM_SLOTS
    ensures j == Nth(k, 1)
  {
    (k + 1) % NUM_SLOTS
  }

  function SlotIn(buf: seq<Byte>, k: nat): (s: Pcm)
    requires |buf| == NUM_SLOTS * SLOT_BYTES && k < NUM_SLOTS
    ensures |s| == SLOT_BYTES
  {
    buf[k * SLOT_BYTES..(k + 1) * SLOT_BYTES]
  }

  function QueueIn(buf: seq<Byte>, w: nat, r: nat): (q: seq<Pcm>)
    requires |buf| == NUM_SLOTS * SLOT_BYTES && w < NUM_SLOTS && r < NUM_SLOTS
    ensures |q| == Used(w, r)
  {
    seq(Used(w, r), i requires 0 <= i < Used(w, r) => SlotIn(buf, Nth(r, i)))
  }

  // What a write of n bytes leaves in a slot: the rest keeps its old bytes.
  function Over(was: Pcm, data: Pcm): Pcm {
    if |data| < |was| then data + was[|data|..] else data[..|was|]
  }

  lemma WriteAppends(a: seq<Byte>, b: seq<Byte>, w: nat, r: nat, slot: Pcm)
    requires |a| == |b| == NUM_SLOTS * SLOT_BYTES && w < NUM_SLOTS && r < NUM_SLOTS && Free(w, r) > 0
    requires forall k :: 0 <= k < NUM_SLOTS ==> SlotIn(b, k) == if k == w then slot else SlotIn(a, k)
    ensures QueueIn(b, Next(w), r) == QueueIn(a, w, r) + [slot]
  {
  }

  lemma ReadRemoves(buf: seq<Byte>, w: nat, r: nat)
    requires |buf| == NUM_SLOTS * SLOT_BYTES && w < NUM_SLOTS && r < NUM_SLOTS && w != r
    ensures QueueIn(buf, w, r) == [SlotIn(buf, r)] + QueueIn(buf, w, Next(r))
  {
  }

  // Bytes from on replaced: one slot changes, and nothing else.
  lemma OneSlotChanges(a: seq<Byte>, b: seq<Byte>, w: nat, data: Pcm)
    requires |a| == |b| == NUM_SLOTS * SLOT_BYTES && w < NUM_SLOTS && |data| <= SLOT_BYTES
    requires b == a[..w * SLOT_BYTES] + data + a[w * SLOT_BYTES + |data|..]
    ensures forall k :: 0 <= k < NUM_SLOTS ==> SlotIn(b, k) == if k == w then Over(SlotIn(a, w), data) else SlotIn(a, k)
  {
    forall k | 0 <= k < NUM_SLOTS
      ensures SlotIn(b, k) == if k == w then Over(SlotIn(a, w), data) else SlotIn(a, k)
    {
      var slot := if k == w then Over(SlotIn(a, w), data) else SlotIn(a, k);
      forall j | 0 <= j < SLOT_BYTES ensures SlotIn(b, k)[j] == slot[j] {
        assert SlotIn(b, k)[j] == b[k * SLOT_BYTES + j] && SlotIn(a, k)[j] == a[k * SLOT_BYTES + j];
      }
    }
  }

  // Only a slot's worth counts, and a full slot leaves nothing stale.
  lemma OverCut(o: Pcm, data: Pcm)
    requires |o| == SLOT_BYTES
    ensures Over(o, data[..Min(|data|, SLOT_BYTES)]) == Over(o, data)
    ensures |data| == SLOT_BYTES ==> Over(o, data) == data
  {
  }

  function Min(a: nat, b: nat): nat { if a <= b then a else b }

  // ---------- The object ----------

  class PcmRingBuffer {
    const buf: array<Byte>
    var writeIdx: nat
    var readIdx: nat

    // What was offered and asked for so far. An offer is the slot as the write left it.
    ghost var history: seq<Op>

    ghost predicate Shape()
      reads this
    {
      buf.Length == NUM_SLOTS * SLOT_BYTES && writeIdx < NUM_SLOTS && readIdx < NUM_SLOTS
    }

    // The slots waiting are those of the queue after the same history.
    ghost predicate Valid()
      reads this, buf
    {
      Shape() && Waiting() == Run(history).waiting
    }

    ghost function Waiting(): seq<Pcm>
      reads this, buf
      requires Shape()
    {
      QueueIn(buf[..], writeIdx, readIdx)
    }

    constructor ()
      ensures Valid() && fresh(buf) && Waiting() == [] && history == []
    {
      buf := new Byte[NUM_SLOTS * SLOT_BYTES](i => 0);
      writeIdx, readIdx, history := 0, 0, [];
    }

    // The bytes of the slot a write is about to overwrite.
    ghost function Stale(): Pcm
      reads this, buf
      requires Shape()
    {
      SlotIn(buf[..], writeIdx)
    }

    // A full ring takes nothing. A full slot is queued as it is; a shorter one keeps
    // the tail of what the slot held before.
    method Write(data: Pcm) returns (n: nat)
      requires Valid()
      modifies this`writeIdx, this`history, buf
      ensures Valid() && history == old(history) + [Offer(Over(old(Stale()), data))]
      ensures n == if |old(Waiting())| == CAPACITY then 0 else Min(|data|, SLOT_BYTES)
      ensures Waiting() == Offered(old(Waiting()), Over(old(Stale()), data))
      ensures |data| == SLOT_BYTES ==> Waiting() == Offered(old(Waiting()), data)
    {
      hide SlotIn, QueueIn, Run;
      ghost var x := Over(Stale(), data);
      RunAppend(history, Offer(x));
      history := history + [Offer(x)];
      var avail := if writeIdx >= readIdx then (NUM_SLOTS - 1) - (writeIdx - readIdx) else readIdx - writeIdx - 1;
      if avail == 0 {
        return 0;
      }
      n := Min(|data|, SLOT_BYTES);
      CopyIn(writeIdx * SLOT_BYTES, data[..n]);
      OneSlotChanges(old(buf[..]), buf[..], writeIdx, data[..n]);
      OverCut(old(Stale()), data);
      WriteAppends(old(buf[..]), buf[..], writeIdx, readIdx, Over(old(Stale()), data));
      writeIdx := Next(writeIdx);
    }

    method CopyIn(at: nat, data: Pcm)
      requires at + |data| <= buf.Length
      modifies buf
      ensures buf[..] == old(buf[..])[..at] + data + old(buf[..])[at + |data|..]
    {
      forall i | 0 <= i < |data| {
        buf[at + i] := data[i];
      }
    }

    // An empty ring gives silence for all the bytes asked for; otherwise the oldest
    // slot is taken, however little of it was asked for.
    method Read(maxBytes: nat) returns (data: Pcm)
      requires Valid()
      modifies this`readIdx, this`history
      ensures Valid() && history == old(history) + [Poll]
      ensures old(Waiting()) != [] ==> Run(history).heard == Run(old(history)).heard + [old(Waiting())[0]]
      ensures Waiting() == Polled(old(Waiting()))
      ensures data == if old(Waiting()) == [] then seq(maxBytes, i => 0)
                      else old(Waiting())[0][..Min(maxBytes, SLOT_BYTES)]
    {
      hide SlotIn, QueueIn, Run;
      RunAppend(history, Poll);
      history := history + [Poll];
      if writeIdx == readIdx {
        return seq(maxBytes, i => 0);
      }
      var n := Min(maxBytes, SLOT_BYTES);
      data := buf[readIdx * SLOT_BYTES..readIdx * SLOT_BYTES + n];
      SlotPrefix(buf[..], readIdx, n);
      ReadRemoves(buf[..], writeIdx, readIdx);
      readIdx := Next(readIdx);
    }

    method Available() returns (n: nat)
      requires Valid()
      ensures n == |Waiting()|
    {
      n := if writeIdx >= readIdx then writeIdx - readIdx else NUM_SLOTS - readIdx + writeIdx;
    }
  }

  lemma SlotPrefix(buf: seq<Byte>, k: nat, n: nat)
    requires |buf| == NUM_SLOTS * SLOT_BYTES && k < NUM_SLOTS && n <= SLOT_BYTES
    ensures buf[k * SLOT_BYTES..k * SLOT_BYTES + n] == SlotIn(buf, k)[..n]
  {
  }
}
