/** The bounded ring in shared memory, as used under its mutex by one writer and one
    reader: `WriteFrame` and `ReadFrame` between taking the lock and either waiting
    or releasing it. Capacity and slot size are parameters, so the audio ring and the
    video ring (8 slots of 2 MiB) are both instances. */
module ShmRing {
  import opened Basics

  // What the audio ring and the video ring say about a frame besides time and length.
  datatype Info =
    | AudioInfo(sampleRate: nat, channels: nat, bitsPerSample: nat)
    | VideoInfo(width: nat, height: nat, frameType: nat, rotation: nat)

  datatype Head = Head(ntpTimeMs: int, frameLen: nat, info: Info)

  // A slot's data area always has the maximum size; only frameLen bytes are live.
  datatype Slot = Slot(head: Head, data: seq<Byte>)

  datatype Frame = Frame(head: Head, payload: seq<Byte>)

  datatype Ring = Ring(slots: seq<Slot>, wIdx: nat, rIdx: nat, count: nat)

  ghost predicate RingInv(r: Ring, max: nat) {
    var n := |r.slots|;
    && n >= 1 && r.rIdx < n && r.count <= n
    && r.wIdx == (r.rIdx + r.count) % n
    && (forall i :: 0 <= i < n ==> |r.slots[i].data| == max)
    && (forall i :: 0 <= i < r.count ==> r.slots[At(r, i)].head.frameLen <= max)
  }

  // The slot that holds the i-th oldest frame.
  function At(r: Ring, i: nat): (k: nat)
    requires r.rIdx < |r.slots| && i < |r.slots|
    ensures k < |r.slots|
  {
    if r.rIdx + i < |r.slots| then r.rIdx + i else r.rIdx + i - |r.slots|
  }

  lemma ModWrap(x: nat, n: nat)
    requires 0 < n && x < 2 * n
    ensures x % n == if x < n then x else x - n
  {
  }

  // ---------- The queue the ring stands for ----------

  function FrameIn(s: Slot): Frame
    requires s.head.frameLen <= |s.data|
  {
    Frame(s.head, s.data[..s.head.frameLen])
  }

  ghost function Contents(r: Ring, max: nat): (q: seq<Frame>)
    requires RingInv(r, max)
    ensures |q| == r.count
  {
    seq(r.count, i requires 0 <= i < r.count => FrameIn(r.slots[At(r, i)]))
  }

  // ---------- Writing and reading one slot ----------

  // memcpy leaves the bytes after frameLen as they were.
  function Filled(s: Slot, head: Head, data: seq<Byte>): Slot
    requires head.frameLen <= |data| && head.frameLen <= |s.data|
  {
    Slot(head, data[..head.frameLen] + s.data[head.frameLen..])
  }

  function Put(r: Ring, head: Head, data: seq<Byte>): Ring
    requires r.wIdx < |r.slots| && head.frameLen <= |data| && head.frameLen <= |r.slots[r.wIdx].data|
  {
    Ring(r.slots[r.wIdx := Filled(r.slots[r.wIdx], head, data)], (r.wIdx + 1) % |r.slots|, r.rIdx, r.count + 1)
  }

  function Take(r: Ring): Ring
    requires 0 < |r.slots| && 0 < r.count
  {
    r.(rIdx := (r.rIdx + 1) % |r.slots|, count := r.count - 1)
  }

  lemma IndexInRange(r: Ring, max: nat)
    requires RingInv(r, max)
    ensures r.wIdx < |r.slots|
    ensures r.wIdx == if r.rIdx + r.count < |r.slots| then r.rIdx + r.count else r.rIdx + r.count - |r.slots|
  {
    ModWrap(r.rIdx + r.count, |r.slots|);
  }

  lemma InvFromWrap(r: Ring, max: nat)
    requires |r.slots| >= 1 && r.rIdx < |r.slots| && r.count <= |r.slots|
    requires r.wIdx == if r.rIdx + r.count < |r.slots| then r.rIdx + r.count else r.rIdx + r.count - |r.slots|
    requires forall i :: 0 <= i < |r.slots| ==> |r.slots[i].data| == max
    requires forall i :: 0 <= i < r.count ==> r.slots[At(r, i)].head.frameLen <= max
    ensures RingInv(r, max)
  {
    ModWrap(r.rIdx + r.count, |r.slots|);
  }

  // A write appends exactly the head and the first frameLen bytes.
  lemma PutAppends(r: Ring, max: nat, head: Head, data: seq<Byte>)
    requires RingInv(r, max) && r.count < |r.slots| && head.frameLen <= |data| && head.frameLen <= max
    ensures r.wIdx < |r.slots| && RingInv(Put(r, head, data), max)
    ensures Contents(Put(r, head, data), max) == Contents(r, max) + [Frame(head, data[..head.frameLen])]
  {
    IndexInRange(r, max);
    ModWrap(r.wIdx + 1, |r.slots|);
    var r' := Put(r, head, data);
    forall i | 0 <= i < r.count ensures r'.slots[At(r', i)] == r.slots[At(r, i)] {
      assert At(r, i) != r.wIdx;
    }
    assert At(r', r.count) == r.wIdx;
    InvFromWrap(r', max);
    assert FrameIn(Filled(r.slots[r.wIdx], head, data)) == Frame(head, data[..head.frameLen]);
  }

  // A read removes the oldest frame and returns it.
  lemma TakeRemoves(r: Ring, max: nat)
    requires RingInv(r, max) && 0 < r.count
    ensures RingInv(Take(r), max) && r.slots[r.rIdx] == r.slots[At(r, 0)]
    ensures Contents(r, max) == [FrameIn(r.slots[r.rIdx])] + Contents(Take(r), max)
  {
    IndexInRange(r, max);
    ModWrap(r.rIdx + 1, |r.slots|);
    var r' := Take(r);
    forall i | 0 <= i < r'.count ensures At(r', i) == At(r, i + 1) {}
    InvFromWrap(r', max);
    assert At(r, 0) == r.rIdx;
  }

  // ---------- The ring in place ----------

  datatype WriteOutcome = Written | WouldWait | Rejected

  datatype ReadOutcome = Got(head: Head) | MustWait | Stopped | Discarded

  // What one pass of WriteFrame does to the queue.
  ghost predicate WriteEffect(before: Ring, after: Ring, max: nat, head: Head, src: seq<Byte>, outcome: WriteOutcome)
    requires RingInv(before, max) && RingInv(after, max) && head.frameLen <= |src|
  {
    && outcome == (if head.frameLen > max then Rejected
                   else if before.count == |before.slots| then WouldWait else Written)
    && (outcome != Written ==> after == before)
    && (outcome == Written ==>
          Contents(after, max) == Contents(before, max) + [Frame(head, src[..head.frameLen])])
  }

  // What one pass of ReadFrame does to it.
  ghost predicate ReadEffect(before: Ring, after: Ring, max: nat, bufSize: nat, stop: bool, outcome: ReadOutcome)
    requires RingInv(before, max) && RingInv(after, max)
  {
    if before.count == 0 then after == before && outcome == if stop then Stopped else MustWait
    else
      var head := Contents(before, max)[0].head;
      && Contents(after, max) == Contents(before, max)[1..]
      && outcome == if head.frameLen <= bufSize then Got(head) else Discarded
  }

  class SharedRing {
    const capacity: nat
    const max: nat
    const heads: array<Head>
    const data: array2<Byte>
    var wIdx: nat
    var rIdx: nat
    var frameCount: nat

    ghost function View(): Ring
      reads this, heads, data
      requires Shape()
    {
      Ring(seq(capacity, i requires 0 <= i < capacity reads this, heads, data => SlotAt(i)), wIdx, rIdx, frameCount)
    }

    ghost predicate Shape()
    {
      heads.Length == capacity && data.Length0 == capacity && data.Length1 == max
    }

    ghost function SlotAt(i: nat): Slot
      reads heads, data
      requires Shape() && i < capacity
    {
      Slot(heads[i], seq(max, j requires 0 <= j < max reads data => data[i, j]))
    }

    ghost predicate Valid()
      reads this, heads, data
    {
      Shape() && RingInv(View(), max)
    }

    // The state init_shm_sync leaves behind.
    constructor (capacity: nat, max: nat, blank: Head)
      requires capacity >= 1
      ensures Valid() && this.capacity == capacity && this.max == max && fresh(heads) && fresh(data)
      ensures Contents(View(), max) == []
    {
      this.capacity := capacity;
      this.max := max;
      heads := new Head[capacity](_ => blank);
      data := new Byte[capacity, max]((_, _) => 0);
      wIdx, rIdx, frameCount := 0, 0, 0;
      new;
      InvFromWrap(View(), max);
    }

    // One pass of WriteFrame under the lock: reject, wait, or write.
    method WriteFrame(head: Head, src: seq<Byte>) returns (outcome: WriteOutcome)
      requires Valid() && head.frameLen <= |src|
      modifies this`wIdx, this`frameCount, heads, data
      ensures Valid()
      ensures WriteEffect(old(View()), View(), max, head, src, outcome)
    {
      if head.frameLen > max {
        return Rejected;
      }
      if frameCount >= capacity {
        return WouldWait;
      }
      ghost var before := View();
      IndexInRange(before, max);
      PutAppends(before, max, head, src);
      heads[wIdx] := head;
      CopyIn(head.frameLen, src);
      wIdx := (wIdx + 1) % capacity;
      frameCount := frameCount + 1;
      forall i | 0 <= i < capacity ensures SlotAt(i) == Put(before, head, src).slots[i] {
        assert SlotAt(i).data == if i == before.wIdx then src[..head.frameLen] + before.slots[i].data[head.frameLen..]
                                 else before.slots[i].data;
      }
      assert View() == Put(before, head, src);
      return Written;
    }

    // memcpy(item.data, src, len)
    method CopyIn(len: nat, src: seq<Byte>)
      requires Shape() && wIdx < capacity && len <= |src| && len <= max
      modifies data
      ensures forall i, j :: 0 <= i < capacity && 0 <= j < max ==>
                data[i, j] == if i == wIdx && j < len then src[j] else old(data[i, j])
    {
      for k := 0 to len
        invariant forall i, j :: 0 <= i < capacity && 0 <= j < max ==>
                    data[i, j] == if i == wIdx && j < k then src[j] else old(data[i, j])
      {
        data[wIdx, k] := src[k];
      }
    }

    // One pass of ReadFrame under the lock: wait, stop, deliver or discard.
    method ReadFrame(out: array<Byte>, bufSize: nat, stopRequested: bool) returns (outcome: ReadOutcome)
      requires Valid() && bufSize <= out.Length
      modifies this`rIdx, this`frameCount, out
      ensures Valid()
      ensures ReadEffect(old(View()), View(), max, bufSize, stopRequested, outcome)
      ensures outcome.Got? ==> out[..outcome.head.frameLen] == old(Contents(View(), max))[0].payload
      ensures outcome.Got? || out[..] == old(out[..])
      ensures outcome.Got? ==> out[outcome.head.frameLen..] == old(out[..])[outcome.head.frameLen..]
    {
      if frameCount <= 0 {
        if stopRequested {
          return Stopped;
        }
        return MustWait;
      }
      ghost var before := View();
      TakeRemoves(before, max);
      var head := heads[rIdx];
      if head.frameLen <= bufSize && head.frameLen <= max {
        for k := 0 to head.frameLen
          invariant View() == before
          invariant forall j :: 0 <= j < k ==> out[j] == data[rIdx, j]
          invariant forall j :: k <= j < out.Length ==> out[j] == old(out[j])
        {
          out[k] := data[rIdx, k];
        }
        outcome := Got(head);
      } else {
        outcome := Discarded;
      }
      rIdx := (rIdx + 1) % capacity;
      frameCount := frameCount - 1;
      assert View() == Take(before);
    }
  }
}
