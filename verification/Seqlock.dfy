/** The multi-consumer seqlock ring: one writer that announces a slot (odd counter),
    has a blitter fill it outside the lock, and then publishes or takes the
    announcement back; and readers that never lock. Interleavings are sequentially
    consistent, cell by cell. */
module Seqlock {

  const SLOTS := 8
  const WRAP := 0x1_0000_0000

  // A slot is a row of cells: header words first, then the pixel words.
  type Cells = seq<int>

  datatype WriterPc =
    | Idle
    | Filling(w: nat, dirty: bool)    // announced; blit running; dirty once a cell was written
    | Heading(w: nat)                 // blit succeeded; header being written under the lock

  // History: published[i] lists every content slot i has shown, the initial one
  // first; total counts the frames published to all slots together.
  datatype Ring = Ring(wIdx: nat, seqs: seq<nat>, cells: seq<Cells>, writer: WriterPc,
                       published: seq<seq<Cells>>, total: nat)

  datatype Step =
    | Begin
    | Blit(c: nat, v: int)
    | BlitDone
    | Head(c: nat, v: int)
    | Commit
    | Abort

  function Inc(x: nat): nat { (x + 1) % WRAP }
  function Dec(x: nat): nat { (x + WRAP - 1) % WRAP }

  ghost predicate Shape(r: Ring) {
    && r.wIdx < SLOTS && |r.seqs| == |r.cells| == |r.published| == SLOTS
    && (r.writer.Filling? || r.writer.Heading? ==> r.writer.w < SLOTS)
  }

  // video_frame_shm_init zeroes the block.
  ghost predicate Initial(r: Ring) {
    && Shape(r) && r.wIdx == 0 && r.writer == Idle && r.total == 0
    && forall i :: 0 <= i < SLOTS ==> r.seqs[i] == 0 && r.published[i] == [r.cells[i]]
  }

  function WriteCell(r: Ring, w: nat, c: nat, v: int): Ring
    requires w < |r.cells|
  {
    if c < |r.cells[w]| then r.(cells := r.cells[w := r.cells[w][c := v]]) else r
  }

  function Begun(r: Ring): Ring
    requires r.wIdx < |r.seqs|
  {
    r.(seqs := r.seqs[r.wIdx := Inc(r.seqs[r.wIdx])], writer := Filling(r.wIdx, false))
  }

  function Committed(r: Ring, w: nat): Ring
    requires w < |r.seqs| && w < |r.cells| && w < |r.published|
  {
    Ring((w + 1) % SLOTS, r.seqs[w := Inc(r.seqs[w])], r.cells, Idle,
         r.published[w := r.published[w] + [r.cells[w]]], r.total + 1)
  }

  function Aborted(r: Ring, w: nat): Ring
    requires w < |r.seqs|
  {
    r.(seqs := r.seqs[w := Dec(r.seqs[w])], writer := Idle)
  }

  // A step that is not possible leaves the ring as it is. Abort is possible only
  // while no cell has been written: a blit that fails leaves the slot unchanged.
  function Do(r: Ring, s: Step): Ring
    requires Shape(r)
  {
    match (s, r.writer)
    case (Begin, Idle) => Begun(r)
    case (Blit(c, v), Filling(w, _)) => WriteCell(r, w, c, v).(writer := Filling(w, true))
    case (BlitDone, Filling(w, _)) => r.(writer := Heading(w))
    case (Head(c, v), Heading(w)) => WriteCell(r, w, c, v)
    case (Commit, Heading(w)) => Committed(r, w)
    case (Abort, Filling(w, false)) => Aborted(r, w)
    case _ => r
  }

  // ---------- The writer's invariant ----------

  ghost function Pubs(r: Ring, i: nat): nat
    requires i < |r.published|
  {
    if r.published[i] == [] then 0 else |r.published[i]| - 1
  }

  ghost predicate WritingTo(r: Ring, i: nat) {
    (r.writer.Filling? || r.writer.Heading?) && r.writer.w == i
  }

  ghost predicate Touched(r: Ring, i: nat) {
    (r.writer.Filling? && r.writer.dirty && r.writer.w == i) || (r.writer.Heading? && r.writer.w == i)
  }

  // Each counter is twice the number of frames published to its slot, plus one
  // while the writer has the slot, modulo 2^32.
  ghost predicate CounterInv(r: Ring, i: nat)
    requires Shape(r) && i < SLOTS
  {
    r.published[i] != [] && r.seqs[i] == (2 * Pubs(r, i) + if WritingTo(r, i) then 1 else 0) % WRAP
  }

  // A slot nobody has begun to overwrite shows the last frame published to it.
  ghost predicate ContentInv(r: Ring, i: nat)
    requires Shape(r) && i < SLOTS
  {
    r.published[i] != [] && (!Touched(r, i) ==> r.cells[i] == r.published[i][Pubs(r, i)])
  }

  // The frames published so far were dealt to the slots in turn.
  ghost predicate RoundRobin(r: Ring)
    requires Shape(r)
  {
    && r.wIdx == r.total % SLOTS
    && forall i :: 0 <= i < SLOTS ==> Pubs(r, i) == (r.total + SLOTS - 1 - i) / SLOTS
  }

  ghost predicate Inv(r: Ring) {
    && Shape(r)
    && (forall i :: 0 <= i < SLOTS ==> CounterInv(r, i) && ContentInv(r, i))
    && (r.writer != Idle ==> r.writer.w == r.wIdx)
    && RoundRobin(r)
  }

  lemma InitialInv(r: Ring)
    requires Initial(r)
    ensures Inv(r)
  {
  }

  lemma IncMod(n: nat)
    ensures Inc(n % WRAP) == (n + 1) % WRAP
    ensures Dec((n + 1) % WRAP) == n % WRAP
  {
  }

  // What holds of slot i is kept by a step that leaves slot i alone.
  lemma OtherSlot(r: Ring, r': Ring, i: nat)
    requires Shape(r) && Shape(r') && i < SLOTS && CounterInv(r, i) && ContentInv(r, i)
    requires r'.seqs[i] == r.seqs[i] && r'.cells[i] == r.cells[i] && r'.published[i] == r.published[i]
    requires WritingTo(r', i) == WritingTo(r, i) && (Touched(r, i) ==> Touched(r', i))
    ensures CounterInv(r', i) && ContentInv(r', i) && Pubs(r', i) == Pubs(r, i)
  {
  }

  lemma BeginKeeps(r: Ring)
    requires Inv(r) && r.writer == Idle
    ensures Inv(Begun(r))
  {
    var r', w := Begun(r), r.wIdx;
    assert CounterInv(r, w) && ContentInv(r, w);
    IncMod(2 * Pubs(r, w));
    forall i | 0 <= i < SLOTS
      ensures CounterInv(r', i) && ContentInv(r', i) && Pubs(r', i) == Pubs(r, i)
    {
      if i != w { OtherSlot(r, r', i); }
    }
  }

  lemma AbortKeeps(r: Ring)
    requires Inv(r) && r.writer.Filling? && !r.writer.dirty
    ensures Inv(Aborted(r, r.writer.w))
  {
    var r', w := Aborted(r, r.writer.w), r.writer.w;
    assert CounterInv(r, w) && ContentInv(r, w);
    IncMod(2 * Pubs(r, w));
    forall i | 0 <= i < SLOTS
      ensures CounterInv(r', i) && ContentInv(r', i) && Pubs(r', i) == Pubs(r, i)
    {
      if i != w { OtherSlot(r, r', i); }
    }
  }

  // The next frame is dealt to slot p mod 8 and to no other.
  lemma Deal(p: nat, i: nat)
    requires i < SLOTS
    ensures (p + 1 + SLOTS - 1 - i) / SLOTS == (p + SLOTS - 1 - i) / SLOTS + if i == p % SLOTS then 1 else 0
    ensures (p % SLOTS + 1) % SLOTS == (p + 1) % SLOTS
  {
  }

  lemma CommitKeeps(r: Ring)
    requires Inv(r) && r.writer.Heading?
    ensures Inv(Committed(r, r.writer.w))
  {
    var r', w := Committed(r, r.writer.w), r.writer.w;
    assert CounterInv(r, w) && ContentInv(r, w);
    assert Pubs(r', w) == Pubs(r, w) + 1;
    IncMod(2 * Pubs(r, w) + 1);
    assert CounterInv(r', w) && ContentInv(r', w);
    forall i | 0 <= i < SLOTS && i != w
      ensures CounterInv(r', i) && ContentInv(r', i) && Pubs(r', i) == Pubs(r, i)
    {
      OtherSlot(r, r', i);
    }
    hide CounterInv, ContentInv, Inc, Pubs;
    forall i | 0 <= i < SLOTS ensures Pubs(r', i) == (r'.total + SLOTS - 1 - i) / SLOTS {
      Deal(r.total, i);
    }
    Deal(r.total, 0);
  }

  lemma CellKeeps(r: Ring, r': Ring)
    requires Inv(r) && r.writer != Idle && r'.writer != Idle && r'.writer.w == r.writer.w && Touched(r', r.writer.w)
    requires r' == Ring(r.wIdx, r.seqs, r'.cells, r'.writer, r.published, r.total) && |r'.cells| == SLOTS
    requires forall i :: 0 <= i < SLOTS && i != r.writer.w ==> r'.cells[i] == r.cells[i]
    ensures Inv(r')
  {
    forall i | 0 <= i < SLOTS
      ensures CounterInv(r', i) && ContentInv(r', i) && Pubs(r', i) == Pubs(r, i)
    {
      assert CounterInv(r, i) && ContentInv(r, i);
      if i != r.writer.w { OtherSlot(r, r', i); }
    }
  }

  lemma StepKeeps(r: Ring, s: Step)
    requires Inv(r)
    ensures Inv(Do(r, s))
  {
    hide CounterInv, ContentInv, RoundRobin, Begun, Committed, Aborted;
    match (s, r.writer)
    case (Begin, Idle) => BeginKeeps(r);
    case (Abort, Filling(w, false)) => AbortKeeps(r);
    case (Commit, Heading(w)) => CommitKeeps(r);
    case (Blit(c, v), Filling(w, _)) => CellKeeps(r, Do(r, s));
    case (BlitDone, Filling(w, _)) => CellKeeps(r, Do(r, s));
    case (Head(c, v), Heading(w)) => CellKeeps(r, Do(r, s));
    case _ =>
  }

  function Run(r: Ring, ss: seq<Step>): (r': Ring)
    requires Shape(r)
    ensures Shape(r')
  {
    if ss == [] then r else Do(Run(r, ss[..|ss| - 1]), ss[|ss| - 1])
  }

  // At every writer step of every run.
  lemma {:induction false} RunInv(r: Ring, ss: seq<Step>)
    requires Initial(r)
    ensures Inv(Run(r, ss))
  {
    if ss == [] {
      InitialInv(r);
    } else {
      RunInv(r, ss[..|ss| - 1]);
      StepKeeps(Run(r, ss[..|ss| - 1]), ss[|ss| - 1]);
    }
  }

  // A counter is odd only for the slot at w_idx, and only between Begin and
  // Commit or Abort; between frames, both w_idx and every counter are functions of
  // the number of frames published.
  lemma CountersOfRun(r: Ring, ss: seq<Step>, i: nat)
    requires Initial(r) && i < SLOTS
    ensures var e := Run(r, ss);
            && (e.seqs[i] % 2 == 1 <==> e.writer != Idle && i == e.writer.w)
            && (e.writer != Idle ==> e.writer.w == e.wIdx)
            && e.wIdx == e.total % SLOTS
            && (e.writer == Idle ==> e.seqs[i] == 2 * ((e.total + 7 - i) / 8) % WRAP)
  {
    hide Run, ContentInv;
    RunInv(r, ss);
    var e := Run(r, ss);
    assert CounterInv(e, i);
    CounterParity(Pubs(e, i), if WritingTo(e, i) then 1 else 0);
    hide CounterInv, Pubs;
  }

  lemma CounterParity(p: nat, k: nat)
    requires k < 2
    ensures (2 * p + k) % WRAP % 2 == k
  {
  }

  // Announcing a slot and taking the announcement back changes nothing.
  lemma AbortUndoes(r: Ring)
    requires Inv(r) && r.writer == Idle
    ensures Do(Do(r, Begin), Abort) == r
  {
    assert CounterInv(r, r.wIdx);
    IncMod(2 * Pubs(r, r.wIdx));
    assert r.seqs[r.wIdx := r.seqs[r.wIdx]] == r.seqs;
  }

  // Taking an announcement back keeps the invariant exactly when the failed blit has
  // left the slot as last published.
  lemma AbortKeepsIff(r: Ring)
    requires Inv(r) && r.writer.Filling?
    ensures r.published[r.writer.w] != []
    ensures Inv(Aborted(r, r.writer.w)) <==> r.cells[r.writer.w] == r.published[r.writer.w][Pubs(r, r.writer.w)]
  {
    var r', w := Aborted(r, r.writer.w), r.writer.w;
    assert CounterInv(r, w);
    if r.cells[w] == r.published[w][Pubs(r, w)] {
      var clean := r.(writer := Filling(w, false));
      forall i | 0 <= i < SLOTS
        ensures CounterInv(clean, i) && ContentInv(clean, i) && Pubs(clean, i) == Pubs(r, i)
      {
        assert CounterInv(r, i) && ContentInv(r, i);
        if i != w { OtherSlot(r, clean, i); }
      }
      AbortKeeps(clean);
    } else {
      assert !ContentInv(r', w);
    }
  }

  // ---------- A reader that never locks ----------

  // Between its two looks at the counter the reader copies cells one by one while
  // the writer goes on.
  datatype Action = Write(step: Step) | Copy(c: nat)

  datatype World = World(ring: Ring, copied: map<nat, int>)

  function Act(x: World, i: nat, a: Action): (y: World)
    requires Shape(x.ring) && i < SLOTS
    ensures Shape(y.ring)
  {
    match a
    case Write(s) => World(Do(x.ring, s), x.copied)
    case Copy(c) => if c < |x.ring.cells[i]| then x.(copied := x.copied[c := x.ring.cells[i][c]]) else x
  }

  function Interleave(r: Ring, i: nat, acts: seq<Action>): (y: World)
    requires Shape(r) && i < SLOTS
    ensures Shape(y.ring)
  {
    if acts == [] then World(r, map[])
    else Act(Interleave(r, i, acts[..|acts| - 1]), i, acts[|acts| - 1])
  }

  // As long as nothing was published to the slot and nobody has begun to overwrite
  // it, all that was copied is the content shown when the copy began.
  ghost predicate CopyInv(r: Ring, x: World, i: nat)
    requires i < SLOTS && Inv(r)
  {
    && Inv(x.ring)
    && Pubs(r, i) <= Pubs(x.ring, i)
    && |x.ring.cells[i]| == |r.cells[i]|
    && (Pubs(x.ring, i) == Pubs(r, i) ==> x.ring.published[i] == r.published[i])
    && (Pubs(x.ring, i) == Pubs(r, i) && !Touched(x.ring, i) ==>
          forall c :: c in x.copied ==> c < |r.cells[i]| && x.copied[c] == r.cells[i][c])
  }

  lemma CellsKeepLength(r: Ring, s: Step, i: nat)
    requires Shape(r) && i < SLOTS
    ensures |Do(r, s).cells[i]| == |r.cells[i]|
  {
  }

  lemma WriteEffect(r: Ring, s: Step, i: nat)
    requires Inv(r) && i < SLOTS
    ensures var r' := Do(r, s);
            && Pubs(r, i) <= Pubs(r', i)
            && (Pubs(r', i) == Pubs(r, i) ==> r'.published[i] == r.published[i])
            && (Pubs(r', i) == Pubs(r, i) && !Touched(r', i) ==> !Touched(r, i))
  {
    assert CounterInv(r, i);
  }

  lemma ActKeeps(r: Ring, x: World, i: nat, a: Action)
    requires i < SLOTS && Inv(r) && !Touched(r, i) && CopyInv(r, x, i)
    ensures CopyInv(r, Act(x, i, a), i)
  {
    match a
    case Write(s) =>
      StepKeeps(x.ring, s);
      WriteEffect(x.ring, s, i);
      CellsKeepLength(x.ring, s, i);
      hide Inv, Do;
    case Copy(c) =>
      assert ContentInv(r, i) && ContentInv(x.ring, i);
  }

  lemma {:induction false} InterleaveKeeps(r: Ring, i: nat, acts: seq<Action>)
    requires i < SLOTS && Inv(r) && !Touched(r, i)
    ensures CopyInv(r, Interleave(r, i, acts), i)
  {
    if acts != [] {
      InterleaveKeeps(r, i, acts[..|acts| - 1]);
      ActKeeps(r, Interleave(r, i, acts[..|acts| - 1]), i, acts[|acts| - 1]);
    }
  }

  lemma DoubleMod(p: nat, d: nat)
    ensures 2 * (p + d) % WRAP == 2 * p % WRAP <==> d % 0x8000_0000 == 0
  {
  }

  // The second look agrees with an even first one exactly when the writer is not at
  // the slot and a multiple of 2^31 frames has been published to it in between.
  lemma SameCounterIff(r: Ring, e: Ring, i: nat)
    requires i < SLOTS && Inv(r) && Inv(e) && r.seqs[i] % 2 == 0 && Pubs(r, i) <= Pubs(e, i)
    ensures !WritingTo(r, i)
    ensures e.seqs[i] == r.seqs[i] <==> !WritingTo(e, i) && (Pubs(e, i) - Pubs(r, i)) % 0x8000_0000 == 0
  {
    assert CounterInv(r, i) && CounterInv(e, i);
    DoubleMod(Pubs(r, i), Pubs(e, i) - Pubs(r, i));
  }

  // With fewer than 2^31 frames in between, nothing was published at all.
  lemma SameCounterNear(r: Ring, e: Ring, i: nat)
    requires i < SLOTS && Inv(r) && Inv(e) && r.seqs[i] % 2 == 0 && e.seqs[i] == r.seqs[i]
    requires Pubs(r, i) <= Pubs(e, i) < Pubs(r, i) + 0x8000_0000
    ensures !Touched(r, i) && !Touched(e, i) && Pubs(e, i) == Pubs(r, i)
  {
    SameCounterIff(r, e, i);
    hide Inv;
  }

  // For every interleaving: a reader that finds the same even counter before and
  // after has copied cells of one content only, the last one published to the slot
  // before it began (the zeroed slot if there was none); once every cell has been
  // copied, that is the whole frame, header and pixels.
  lemma ReaderSeesOneFrame(r0: Ring, ss: seq<Step>, i: nat, acts: seq<Action>)
    requires Initial(r0) && i < SLOTS
    requires var r, y := Run(r0, ss), Interleave(Run(r0, ss), i, acts);
             && r.seqs[i] % 2 == 0 && y.ring.seqs[i] == r.seqs[i]
             && Pubs(y.ring, i) - Pubs(r, i) < 0x8000_0000
    ensures var r, y := Run(r0, ss), Interleave(Run(r0, ss), i, acts);
            && r.published[i] != [] && r.cells[i] == r.published[i][Pubs(r, i)]
            && (forall c :: c in y.copied ==> c < |r.cells[i]| && y.copied[c] == r.published[i][Pubs(r, i)][c])
            && Pubs(y.ring, i) == Pubs(r, i)
  {
    RunInv(r0, ss);
    var r := Run(r0, ss);
    assert CounterInv(r, i) && ContentInv(r, i);
    hide Run, Interleave, CounterInv, RoundRobin;
    SameCounterNear(r, r, i);
    InterleaveKeeps(r, i, acts);
    SameCounterNear(r, Interleave(r, i, acts).ring, i);
  }

  // ---------- Taking back what was not left alone ----------

  // A reader that starts in r, sees the same even counter before and after, and yet
  // has copied a cell that is not in the frame the slot last published.
  ghost predicate Fooled(r: Ring, i: nat, acts: seq<Action>)
    requires Shape(r) && i < SLOTS && r.published[i] != []
  {
    var y, shown := Interleave(r, i, acts), r.published[i][Pubs(r, i)];
    && r.seqs[i] % 2 == 0 && y.ring.seqs[i] == r.seqs[i]
    && Pubs(y.ring, i) - Pubs(r, i) < 0x8000_0000
    && exists c :: c in y.copied && (c >= |shown| || y.copied[c] != shown[c])
  }

  // Contents never change their length.
  ghost predicate SameLengths(r: Ring, i: nat)
    requires Shape(r) && i < SLOTS
  {
    forall k :: 0 <= k < |r.published[i]| ==> |r.published[i][k]| == |r.cells[i]|
  }

  lemma LengthStep(r: Ring, s: Step, i: nat)
    requires Shape(r) && i < SLOTS && SameLengths(r, i)
    ensures SameLengths(Do(r, s), i)
  {
  }

  lemma {:induction false} LengthsOfRun(r0: Ring, ss: seq<Step>, i: nat)
    requires Initial(r0) && i < SLOTS
    ensures SameLengths(Run(r0, ss), i)
  {
    if ss != [] {
      LengthsOfRun(r0, ss[..|ss| - 1], i);
      hide Do;
      LengthStep(Run(r0, ss[..|ss| - 1]), ss[|ss| - 1], i);
    }
  }

  lemma NotFooled(r: Ring, i: nat, acts: seq<Action>)
    requires i < SLOTS && Inv(r) && !WritingTo(r, i)
    ensures r.published[i] != [] && !Fooled(r, i, acts)
  {
    assert CounterInv(r, i) && ContentInv(r, i);
    hide Interleave, CounterInv, RoundRobin;
    InterleaveKeeps(r, i, acts);
    if Fooled(r, i, acts) {
      SameCounterNear(r, Interleave(r, i, acts).ring, i);
    }
  }

  lemma CopyOne(r: Ring, i: nat, c: nat)
    requires Shape(r) && i < SLOTS && c < |r.cells[i]|
    ensures Interleave(r, i, [Copy(c)]) == World(r, map[c := r.cells[i][c]])
  {
    var acts := [Copy(c)];
    assert acts[..0] == [];
    assert Interleave(r, i, []) == World(r, map[]);
  }

  // Why Abort asks for an untouched slot: of the readers that look once the
  // announcement is taken back, some is fooled if and only if the failed blit has
  // changed the slot.
  lemma AbortSafeIff(r0: Ring, ss: seq<Step>)
    requires Initial(r0) && Run(r0, ss).writer.Filling?
    ensures var r, w := Run(r0, ss), Run(r0, ss).writer.w;
            && r.published[w] != []
            && ((exists acts :: Fooled(Aborted(r, w), w, acts)) <==> r.cells[w] != r.published[w][Pubs(r, w)])
  {
    RunInv(r0, ss);
    var r, w := Run(r0, ss), Run(r0, ss).writer.w;
    AbortKeepsIff(r);
    var shown, r' := r.published[w][Pubs(r, w)], Aborted(r, w);
    if r.cells[w] == shown {
      forall acts ensures !Fooled(r', w, acts) {
        NotFooled(r', w, acts);
      }
    } else {
      LengthsOfRun(r0, ss, w);
      EvenAfterAbort(r);
      DifferentCell(r.cells[w], shown);
      var c: nat :| c < |shown| && r.cells[w][c] != shown[c];
      CopyOne(r', w, c);
      hide Inv, Run;
      assert Fooled(r', w, [Copy(c)]);
    }
  }

  lemma DifferentCell(a: Cells, b: Cells)
    requires |a| == |b| && a != b
    ensures exists c: nat :: c < |b| && a[c] != b[c]
  {
  }

  lemma EvenAfterAbort(r: Ring)
    requires Inv(r) && r.writer.Filling?
    ensures Aborted(r, r.writer.w).seqs[r.writer.w] % 2 == 0
  {
    var w := r.writer.w;
    var p := Pubs(r, w);
    assert CounterInv(r, w);
    assert r.seqs[w] == (2 * p + 1) % WRAP && Aborted(r, w).seqs[w] == Dec(r.seqs[w]);
    hide Inv, CounterInv, Aborted, Pubs, Dec;
    IncMod(2 * p);
    CounterParity(p, 0);
  }

  // ---------- Readers that began before the announcement ----------

  // The writer's steps among the actions.
  function Writes(acts: seq<Action>): seq<Step> {
    if acts == [] then []
    else
      var front, last := Writes(acts[..|acts| - 1]), acts[|acts| - 1];
      if last.Write? then front + [last.step] else front
  }

  lemma WritesAppend(acts: seq<Action>, a: Action)
    ensures Writes(acts + [a]) == if a.Write? then Writes(acts) + [a.step] else Writes(acts)
  {
    assert (acts + [a])[..|acts|] == acts;
  }

  lemma RunAppend(r: Ring, ss: seq<Step>, s: Step)
    requires Shape(r)
    ensures Run(r, ss + [s]) == Do(Run(r, ss), s)
  {
    assert (ss + [s])[..|ss|] == ss;
  }

  lemma InterleaveAppend(r: Ring, i: nat, acts: seq<Action>, a: Action)
    requires Shape(r) && i < SLOTS
    ensures Interleave(r, i, acts + [a]) == Act(Interleave(r, i, acts), i, a)
  {
    assert (acts + [a])[..|acts|] == acts;
  }

  // A writer that announces a slot and blits, up to the point where it gives up.
  ghost predicate Attempt(ws: seq<Step>) {
    ws != [] && ws[0] == Begin && forall j :: 0 < j < |ws| ==> ws[j].Blit?
  }

  // What slot i shows after the first j steps of the writer.
  ghost function After(r: Ring, ws: seq<Step>, i: nat, j: nat): Cells
    requires Shape(r) && i < SLOTS && j <= |ws|
  {
    Run(r, ws[..j]).cells[i]
  }

  // Whoever copies while the writer works copies what the slot shows after some of the
  // writer's steps.
  lemma {:induction false} CopiesAreShown(r: Ring, ws: seq<Step>, i: nat, acts: seq<Action>)
    requires Shape(r) && i < SLOTS && |Writes(acts)| <= |ws| && Writes(acts) == ws[..|Writes(acts)|]
    ensures var y := Interleave(r, i, acts);
            && y.ring == Run(r, Writes(acts))
            && forall c :: c in y.copied ==>
                 exists j: nat :: j <= |ws| && c < |After(r, ws, i, j)| && y.copied[c] == After(r, ws, i, j)[c]
  {
    if acts != [] {
      var front, a := acts[..|acts| - 1], acts[|acts| - 1];
      assert acts == front + [a];
      WritesAppend(front, a);
      InterleaveAppend(r, i, front, a);
      hide Do, Run, Interleave, Writes;
      assert |Writes(front)| <= |Writes(acts)| && Writes(front) == ws[..|Writes(front)|];
      CopiesAreShown(r, ws, i, front);
      if a.Write? {
        RunAppend(r, Writes(front), a.step);
      } else {
        var j := |Writes(front)|;
        assert After(r, ws, i, j) == Interleave(r, i, front).ring.cells[i];
      }
    }
  }

  // Actions that do the writer's steps alone.
  function Alone(ws: seq<Step>): seq<Action> {
    seq(|ws|, k requires 0 <= k < |ws| => Write(ws[k]))
  }

  lemma {:induction false} AloneWrites(acts: seq<Action>, ws: seq<Step>)
    ensures Writes(acts + Alone(ws)) == Writes(acts) + ws
  {
    if ws == [] {
      assert acts + Alone(ws) == acts;
    } else {
      var front := ws[..|ws| - 1];
      assert acts + Alone(ws) == (acts + Alone(front)) + [Write(ws[|ws| - 1])];
      AloneWrites(acts, front);
      WritesAppend(acts + Alone(front), Write(ws[|ws| - 1]));
      assert ws == front + [ws[|ws| - 1]];
    }
  }

  lemma {:induction false} AloneRuns(r: Ring, i: nat, acts: seq<Action>, ws: seq<Step>)
    requires Shape(r) && i < SLOTS
    ensures var x, y := Interleave(r, i, acts), Interleave(r, i, acts + Alone(ws));
            y.copied == x.copied && y.ring == Run(x.ring, ws)
  {
    if ws == [] {
      assert acts + Alone(ws) == acts;
    } else {
      var front, s := ws[..|ws| - 1], ws[|ws| - 1];
      assert acts + Alone(ws) == (acts + Alone(front)) + [Write(s)];
      AloneRuns(r, i, acts, front);
      InterleaveAppend(r, i, acts + Alone(front), Write(s));
    }
  }

  // A reader that looks before the announcement and again after it was taken back, with
  // equal even counters, and has copied a cell that the slot never published: it copied
  // while the writer did the steps ws. Taking back changes no cell, so what is copied
  // between that and the second look is what the last step left.
  ghost predicate Misled(r: Ring, i: nat, ws: seq<Step>, acts: seq<Action>)
    requires Shape(r) && i < SLOTS && r.published[i] != []
  {
    var y, shown := Interleave(r, i, acts), r.published[i][Pubs(r, i)];
    && Writes(acts) == ws
    && r.seqs[i] % 2 == 0 && Aborted(y.ring, i).seqs[i] == r.seqs[i]
    && exists c :: c in y.copied && (c >= |shown| || y.copied[c] != shown[c])
  }

  // While the writer only blits, the counters stay as announced.
  lemma {:induction false} AttemptKeepsCounters(r: Ring, ws: seq<Step>)
    requires Inv(r) && r.writer == Idle && Attempt(ws)
    ensures Run(r, ws).seqs == Begun(r).seqs && Run(r, ws).writer.Filling? && Run(r, ws).writer.w == r.wIdx
    ensures Run(r, ws).published == r.published
  {
    if |ws| == 1 {
      assert ws[..0] == [];
      assert Run(r, ws) == Do(r, Begin);
    } else {
      AttemptKeepsCounters(r, ws[..|ws| - 1]);
    }
  }

  lemma CounterRestored(r: Ring, ws: seq<Step>)
    requires Inv(r) && r.writer == Idle && Attempt(ws)
    ensures r.seqs[r.wIdx] % 2 == 0 && Aborted(Run(r, ws), r.wIdx).seqs == r.seqs
  {
    var w := r.wIdx;
    AttemptKeepsCounters(r, ws);
    assert CounterInv(r, w);
    IncMod(2 * Pubs(r, w));
    CounterParity(Pubs(r, w), 0);
    assert r.seqs[w := r.seqs[w]] == r.seqs;
  }

  lemma ShownWhenIdle(r: Ring, i: nat)
    requires Inv(r) && r.writer == Idle && i < SLOTS
    ensures r.published[i] != [] && r.cells[i] == r.published[i][Pubs(r, i)]
  {
    assert ContentInv(r, i);
  }

  lemma {:induction false} RunKeepsLengths(r: Ring, ss: seq<Step>, i: nat)
    requires Shape(r) && i < SLOTS
    ensures |Run(r, ss).cells[i]| == |r.cells[i]|
  {
    if ss != [] {
      RunKeepsLengths(r, ss[..|ss| - 1], i);
      hide Do;
      CellsKeepLength(Run(r, ss[..|ss| - 1]), ss[|ss| - 1], i);
    }
  }

  lemma AloneFirst(r: Ring, i: nat, ws: seq<Step>)
    requires Shape(r) && i < SLOTS
    ensures Writes(Alone(ws)) == ws && Interleave(r, i, Alone(ws)) == World(Run(r, ws), map[])
  {
    var none: seq<Action> := [];
    AloneWrites(none, ws);
    AloneRuns(r, i, none, ws);
    assert Writes(none) == [] && Interleave(r, i, none) == World(r, map[]);
    hide Do, Run, Interleave, Writes, Alone;
    assert none + Alone(ws) == Alone(ws) && [] + ws == ws;
  }

  // The reader that copies cell c after the first j steps.
  lemma ReaderAt(r: Ring, i: nat, ws: seq<Step>, j: nat, c: nat)
    requires Shape(r) && i < SLOTS && j <= |ws| && c < |After(r, ws, i, j)|
    ensures var acts := Alone(ws[..j]) + [Copy(c)] + Alone(ws[j..]);
            && Writes(acts) == ws && Interleave(r, i, acts).copied == map[c := After(r, ws, i, j)[c]]
            && Interleave(r, i, acts).ring == Run(r, ws)
  {
    hide Do, Run, Interleave, Writes, Alone;
    var before := Alone(ws[..j]);
    AloneFirst(r, i, ws[..j]);
    WritesAppend(before, Copy(c));
    InterleaveAppend(r, i, before, Copy(c));
    var acts := before + [Copy(c)] + Alone(ws[j..]);
    AloneWrites(before + [Copy(c)], ws[j..]);
    AloneRuns(r, i, before + [Copy(c)], ws[j..]);
    assert ws[..j] + ws[j..] == ws;
    assert ws[..|ws|] == ws;
    CopiesAreShown(r, ws, i, acts);
  }

  lemma SomeoneMisled(r: Ring, ws: seq<Step>, j: nat)
    requires Inv(r) && r.writer == Idle && Attempt(ws) && j <= |ws| && r.published[r.wIdx] != []
    requires After(r, ws, r.wIdx, j) != r.published[r.wIdx][Pubs(r, r.wIdx)]
    ensures exists acts :: Misled(r, r.wIdx, ws, acts)
  {
    var w := r.wIdx;
    var shown := r.published[w][Pubs(r, w)];
    ShownWhenIdle(r, w);
    CounterRestored(r, ws);
    RunKeepsLengths(r, ws[..j], w);
    hide Inv, Run, Do, Interleave, Writes, Alone, Attempt;
    DifferentCell(After(r, ws, w, j), shown);
    var c: nat :| c < |shown| && After(r, ws, w, j)[c] != shown[c];
    ReaderAt(r, w, ws, j, c);
    assert Misled(r, w, ws, Alone(ws[..j]) + [Copy(c)] + Alone(ws[j..]));
  }

  // Readers that look before an announcement and after it was taken back: some one is
  // misled if and only if, after some of the writer's steps, the slot's cells were not
  // those last published, whatever they are in the end.
  lemma AbortSpanIff(r0: Ring, ss: seq<Step>, ws: seq<Step>)
    requires Initial(r0) && Run(r0, ss).writer == Idle && Attempt(ws)
    ensures var r, w := Run(r0, ss), Run(r0, ss).wIdx;
            && r.published[w] != []
            && ((exists acts :: Misled(r, w, ws, acts))
                <==> exists j: nat :: j <= |ws| && After(r, ws, w, j) != r.published[w][Pubs(r, w)])
  {
    RunInv(r0, ss);
    var r, w := Run(r0, ss), Run(r0, ss).wIdx;
    ShownWhenIdle(r, w);
    hide Inv, Run, Do, Interleave, Writes, Alone, Attempt;
    if j: nat :| j <= |ws| && After(r, ws, w, j) != r.published[w][Pubs(r, w)] {
      SomeoneMisled(r, ws, j);
    }
    if acts :| Misled(r, w, ws, acts) {
      assert ws[..|ws|] == ws;
      CopiesAreShown(r, ws, w, acts);
    }
  }

  // ---------- The writer object ----------

  // The header fields the writers set; the rest of the header stays zero.
  datatype FrameHead = FrameHead(ntpTimeMs: int, frameLen: nat, width: nat, height: nat)

  const HEAD_WORDS := 4

  function HeadWords(h: FrameHead): (w: Cells)
    ensures |w| == HEAD_WORDS
  {
    [h.ntpTimeMs, h.frameLen, h.width, h.height]
  }

  // The pixel writes of one blit.
  type Blits = seq<(nat, int)>

  predicate InPixels(blits: Blits) {
    forall k :: 0 <= k < |blits| ==> HEAD_WORDS <= blits[k].0
  }

  function Painted(c: Cells, blits: Blits): (c': Cells)
    requires InPixels(blits)
    ensures |c'| == |c|
    ensures |c| >= HEAD_WORDS ==> c'[..HEAD_WORDS] == c[..HEAD_WORDS]
  {
    if blits == [] then c
    else
      var before := Painted(c, blits[..|blits| - 1]);
      var (k, v) := blits[|blits| - 1];
      if k < |c| then before[k := v] else before
  }

  ghost function PaintedRing(r: Ring, blits: Blits): Ring
    requires Shape(r) && r.writer.Filling? && InPixels(blits)
  {
    if blits == [] then r
    else
      r.(cells := r.cells[r.writer.w := Painted(r.cells[r.writer.w], blits)], writer := Filling(r.writer.w, true))
  }

  lemma PaintStep(r: Ring, blits: Blits, k: nat)
    requires Shape(r) && r.writer.Filling? && InPixels(blits) && k < |blits|
    ensures Do(PaintedRing(r, blits[..k]), Blit(blits[k].0, blits[k].1)) == PaintedRing(r, blits[..k + 1])
  {
    assert blits[..k + 1][..k] == blits[..k];
    var w := r.writer.w;
    assert r.cells[w := r.cells[w]] == r.cells;
  }

  ghost function WithHead(r: Ring, head: FrameHead): Ring
    requires Shape(r) && r.writer.Heading? && |r.cells[r.writer.w]| >= HEAD_WORDS
  {
    r.(cells := r.cells[r.writer.w := HeadWords(head) + r.cells[r.writer.w][HEAD_WORDS..]])
  }

  lemma HeadWordsWritten(c: Cells, head: FrameHead)
    requires |c| >= HEAD_WORDS
    ensures HeadWords(head) + c[HEAD_WORDS..] ==
            c[0 := 0][1 := 0][2 := 0][3 := 0]
             [0 := head.ntpTimeMs][1 := head.frameLen][2 := head.width][3 := head.height]
  {
  }

  // The header is first cleared and then filled in, word by word.
  lemma HeadSteps(r: Ring, head: FrameHead)
    requires Shape(r) && r.writer.Heading? && |r.cells[r.writer.w]| >= HEAD_WORDS
    ensures var a := Do(Do(Do(Do(r, Head(0, 0)), Head(1, 0)), Head(2, 0)), Head(3, 0));
            WithHead(r, head) == Do(Do(Do(Do(a, Head(0, head.ntpTimeMs)), Head(1, head.frameLen)),
                                       Head(2, head.width)), Head(3, head.height))
  {
    HeadWordsWritten(r.cells[r.writer.w], head);
    hide HeadWords;
  }

  // One frame with this header and these pixel writes is published.
  ghost predicate PublishedOne(r: Ring, r': Ring, head: FrameHead, blits: Blits)
    requires Shape(r) && InPixels(blits) && |r.cells[r.wIdx]| >= HEAD_WORDS
  {
    var w := r.wIdx;
    var content := HeadWords(head) + Painted(r.cells[w], blits)[HEAD_WORDS..];
    r' == Ring((w + 1) % SLOTS, r.seqs[w := Inc(Inc(r.seqs[w]))], r.cells[w := content], Idle,
               r.published[w := r.published[w] + [content]], r.total + 1)
  }

  // ---------- What a reader finds in the header ----------

  // Words 2 and 3 are the dimensions if and only if both fit 16 bits; otherwise each is
  // what is left of it modulo 2^16.
  ghost predicate ShowsSize(c: Cells, width: nat, height: nat) {
    && |c| >= HEAD_WORDS
    && (c[2] == width && c[3] == height <==> width < 0x1_0000 && height < 0x1_0000)
    && 0 <= c[2] < 0x1_0000 && 0 <= c[3] < 0x1_0000
    && (width - c[2]) % 0x1_0000 == 0 && (height - c[3]) % 0x1_0000 == 0
  }

  function Chroma(width: nat, height: nat): nat { ((width + 1) / 2) * ((height + 1) / 2) }

  // One sample of each chroma plane for every two by two of luma, begun ones included.
  function I420Size(width: nat, height: nat): nat { width * height + 2 * Chroma(width, height) }

  // Word 1 is the size of the planes if and only if both dimensions are even (an odd one
  // makes it too small), and at least that of the luma plane, while 32 bits hold it.
  ghost predicate ShowsDecoded(c: Cells, width: nat, height: nat, ntpTimeMs: int) {
    && ShowsSize(c, width, height) && c[0] == ntpTimeMs
    && (I420Size(width, height) < WRAP ==>
          width * height <= c[1] <= I420Size(width, height)
          && (c[1] == I420Size(width, height) <==> width % 2 == 0 && height % 2 == 0))
  }

  // A preview has no time, and its word 1 counts two chroma planes of half the luma
  // plane each: twice the luma size, where even dimensions make it three halves.
  ghost predicate ShowsPreview(c: Cells, width: nat, height: nat) {
    && ShowsSize(c, width, height) && c[0] == 0
    && (2 * (width * height) < WRAP ==>
          c[1] == 2 * (width * height) - width * height % 2
          && (width % 2 == 0 && height % 2 == 0 && c[1] > 0 ==> 3 * c[1] == 4 * I420Size(width, height)))
  }

  lemma ChromaQuarter(width: nat, height: nat)
    ensures Chroma(width, height) >= width * height / 4
    ensures width > 0 && height > 0 ==>
              (Chroma(width, height) == width * height / 4 <==> width % 2 == 0 && height % 2 == 0)
    ensures width % 2 == 0 && height % 2 == 0 ==> 4 * Chroma(width, height) == width * height
  {
    var a, b := (width + 1) / 2, (height + 1) / 2;
    FourTimes(a, b);
    Larger(width, 2 * a, height, 2 * b);
  }

  lemma FourTimes(a: nat, b: nat)
    ensures (2 * a) * (2 * b) == 4 * (a * b)
  {
  }

  lemma Larger(w: nat, w': nat, h: nat, h': nat)
    requires w <= w' && h <= h'
    ensures w * h <= w' * h'
    ensures w > 0 && h > 0 && (w < w' || h < h') ==> w * h < w' * h'
  {
    var dw, dh := w' - w, h' - h;
    assert w' * h' == w * h + w * dh + dw * h + dw * dh;
    assert w > 0 && dh > 0 ==> w * dh > 0;
    assert h > 0 && dw > 0 ==> dw * h > 0;
  }

  lemma HeadIsShown(r: Ring, r': Ring, head: FrameHead, blits: Blits)
    requires Shape(r) && InPixels(blits) && |r.cells[r.wIdx]| >= HEAD_WORDS && PublishedOne(r, r', head, blits)
    ensures |r'.cells| == SLOTS && |r'.cells[r.wIdx]| == |r.cells[r.wIdx]|
    ensures var c := r'.cells[r.wIdx];
            c[0] == head.ntpTimeMs && c[1] == head.frameLen && c[2] == head.width && c[3] == head.height
  {
  }

  lemma SizeOfHead(width: nat, height: nat, c: Cells)
    requires |c| >= HEAD_WORDS && c[2] == width % 0x1_0000 && c[3] == height % 0x1_0000
    ensures ShowsSize(c, width, height)
  {
  }

  lemma DecodedIsShown(r: Ring, r': Ring, width: nat, height: nat, ntpTimeMs: int, blits: Blits)
    requires Shape(r) && InPixels(blits) && |r.cells[r.wIdx]| >= HEAD_WORDS && width > 0 && height > 0
    requires PublishedOne(r, r', DecodedHead(width, height, ntpTimeMs), blits)
    ensures |r'.cells| == SLOTS && ShowsDecoded(r'.cells[r.wIdx], width, height, ntpTimeMs)
  {
    HeadIsShown(r, r', DecodedHead(width, height, ntpTimeMs), blits);
    hide PublishedOne, ShowsSize, I420Size;
    SizeOfHead(width, height, r'.cells[r.wIdx]);
    DecodedLength(width, height);
  }

  lemma DecodedLength(width: nat, height: nat)
    requires width > 0 && height > 0
    ensures var n := DecodedHead(width, height, 0).frameLen;
            I420Size(width, height) < WRAP ==>
              width * height <= n <= I420Size(width, height)
              && (n == I420Size(width, height) <==> width % 2 == 0 && height % 2 == 0)
  {
    hide Chroma;
    ChromaQuarter(width, height);
    if I420Size(width, height) < WRAP {
      QuartersFit(width * height, Chroma(width, height));
    }
  }

  lemma QuartersFit(luma: nat, chroma: nat)
    requires chroma >= luma / 4 && luma + 2 * chroma < WRAP
    ensures luma <= (luma + 2 * (luma / 4)) % WRAP <= luma + 2 * chroma
    ensures (luma + 2 * (luma / 4)) % WRAP == luma + 2 * chroma <==> chroma == luma / 4
  {
    assert luma + 2 * (luma / 4) < WRAP;
  }

  lemma PreviewLength(width: nat, height: nat)
    ensures var n := PreviewHead(width, height).frameLen;
            2 * (width * height) < WRAP ==>
              n == 2 * (width * height) - width * height % 2
              && (width % 2 == 0 && height % 2 == 0 && n > 0 ==> 3 * n == 4 * I420Size(width, height))
  {
    hide Chroma;
    ChromaQuarter(width, height);
    var ys := width * height;
    assert ys + 2 * (ys / 2) == 2 * ys - ys % 2;
  }

  lemma PreviewIsShown(r: Ring, r': Ring, width: nat, height: nat, blits: Blits)
    requires Shape(r) && InPixels(blits) && |r.cells[r.wIdx]| >= HEAD_WORDS && width > 0 && height > 0
    requires PublishedOne(r, r', PreviewHead(width, height), blits)
    ensures |r'.cells| == SLOTS && ShowsPreview(r'.cells[r.wIdx], width, height)
  {
    HeadIsShown(r, r', PreviewHead(width, height), blits);
    hide PublishedOne, ShowsSize, I420Size;
    SizeOfHead(width, height, r'.cells[r.wIdx]);
    PreviewLength(width, height);
  }

  // A pixel word is what the blit wrote there last, or what it was.
  lemma {:induction false} PaintedAt(c: Cells, blits: Blits, k: nat)
    requires InPixels(blits) && k < |c|
    ensures forall j: nat :: j < |blits| && blits[j].0 == k && (forall i :: j < i < |blits| ==> blits[i].0 != k)
                             ==> Painted(c, blits)[k] == blits[j].1
    ensures (forall j: nat :: j < |blits| ==> blits[j].0 != k) ==> Painted(c, blits)[k] == c[k]
  {
    if blits != [] {
      var front := blits[..|blits| - 1];
      hide InPixels;
      PaintedAt(c, front, k);
      var last := blits[|blits| - 1];
      assert Painted(c, blits)[k] == if last.0 == k then last.1 else Painted(c, front)[k];
      hide Painted;
      assert forall j :: 0 <= j < |front| ==> front[j] == blits[j];
    }
  }

  // The ring as Publish leaves it, step by step.
  ghost function PublishSteps(r: Ring, head: FrameHead, blits: Blits): (r': Ring)
    requires Inv(r) && r.writer == Idle && InPixels(blits) && |r.cells[r.wIdx]| >= HEAD_WORDS
    ensures Shape(r')
  {
    Do(WithHead(Do(PaintedRing(Do(r, Begin), blits), BlitDone), head), Commit)
  }

  lemma PublishResult(r: Ring, head: FrameHead, blits: Blits)
    requires Inv(r) && r.writer == Idle && InPixels(blits) && |r.cells[r.wIdx]| >= HEAD_WORDS
    ensures PublishedOne(r, PublishSteps(r, head, blits), head, blits)
    ensures Inv(PublishSteps(r, head, blits))
  {
    var w := r.wIdx;
    var begun := Do(r, Begin);
    assert r.cells[w := r.cells[w]] == r.cells;
    var filled := Do(PaintedRing(begun, blits), BlitDone);
    assert filled.cells == r.cells[w := Painted(r.cells[w], blits)];
    var headed := WithHead(filled, head);
    BeginKeeps(r);
    CellKeeps(begun, headed);
    CommitKeeps(headed);
  }

  lemma BackAndForth(r: Ring)
    requires Inv(r)
    ensures Dec(Inc(r.seqs[r.wIdx])) == r.seqs[r.wIdx]
  {
    assert CounterInv(r, r.wIdx);
    IncMod(2 * Pubs(r, r.wIdx) + if WritingTo(r, r.wIdx) then 1 else 0);
  }

  // The states on the way are ones the next step is possible in.
  lemma PublishPath(r: Ring, head: FrameHead, blits: Blits)
    requires Inv(r) && r.writer == Idle && InPixels(blits) && |r.cells[r.wIdx]| >= HEAD_WORDS
    ensures var begun := Do(r, Begin);
            && Shape(begun) && begun.writer.Filling? && begun.seqs == r.seqs[r.wIdx := Inc(r.seqs[r.wIdx])]
            && var painted := PaintedRing(begun, blits);
               && Shape(painted)
               && var filled := Do(painted, BlitDone);
                  && Shape(filled) && filled.writer.Heading? && |filled.cells[filled.writer.w]| >= HEAD_WORDS
                  && Shape(WithHead(filled, head))
  {
    assert r.cells[r.wIdx := r.cells[r.wIdx]] == r.cells;
  }

  // After a publication the slots show the heads they did, but for the published one.
  lemma ShownHead(r: Ring, r': Ring, head: FrameHead, blits: Blits, heads: seq<FrameHead>, i: nat)
    requires Shape(r) && InPixels(blits) && |r.cells[r.wIdx]| >= HEAD_WORDS && |heads| == SLOTS && i < SLOTS
    requires PublishedOne(r, r', head, blits)
    requires |r.cells[i]| >= HEAD_WORDS && r.cells[i][..HEAD_WORDS] == HeadWords(heads[i])
    ensures i < |r'.cells| && |r'.cells[i]| >= HEAD_WORDS
    ensures r'.cells[i][..HEAD_WORDS] == HeadWords(heads[r.wIdx := head][i])
  {
  }

  class RgaSink {
    var wIdx: nat
    const seqs: array<nat>
    const heads: array<FrameHead>

    // The ring as readers may observe it, cell by cell.
    ghost var ring: Ring

    ghost predicate Valid()
      reads this, seqs, heads
    {
      && seqs.Length == SLOTS && heads.Length == SLOTS
      && Inv(ring) && ring.writer == Idle
      && ring.wIdx == wIdx && ring.seqs == seqs[..]
      && forall i :: 0 <= i < SLOTS ==> HeadShown(i)
    }

    ghost predicate HeadShown(i: nat)
      reads this, heads
      requires i < SLOTS && heads.Length == SLOTS
    {
      i < |ring.cells| && |ring.cells[i]| >= HEAD_WORDS && ring.cells[i][..HEAD_WORDS] == HeadWords(heads[i])
    }

    // The zeroed control block; every slot has room for a header and `pixels` words.
    constructor (pixels: nat)
      ensures Valid() && Initial(ring) && fresh(seqs) && fresh(heads)
    {
      wIdx := 0;
      seqs := new nat[SLOTS](_ => 0);
      heads := new FrameHead[SLOTS](_ => FrameHead(0, 0, 0, 0));
      ghost var zero: Cells := seq(HEAD_WORDS + pixels, _ => 0);
      ring := Ring(0, seq(SLOTS, _ => 0), seq(SLOTS, _ => zero), Idle, seq(SLOTS, _ => [zero]), 0);
      new;
      InitialInv(ring);
      assert ring.seqs == seqs[..];
    }

    // Announce the slot, blit, then publish it, or take the announcement back when
    // there is no source or the blit fails (having written nothing).
    method Publish(head: FrameHead, sourceOk: bool, blits: Blits, blitOk: bool)
      requires Valid() && InPixels(blits) && (blitOk || blits == [])
      modifies this`wIdx, this`ring, seqs, heads
      ensures Valid()
      ensures |old(ring.cells[wIdx])| >= HEAD_WORDS
      ensures sourceOk && blitOk ==> PublishedOne(old(ring), ring, head, blits)
      ensures !(sourceOk && blitOk) ==> ring == old(ring)
    {
      ghost var r0 := ring;
      var w := wIdx;
      assert HeadShown(w);
      AbortUndoes(r0);
      BackAndForth(r0);
      PublishResult(r0, head, blits);
      PublishPath(r0, head, blits);
      hide Inv, Do, PaintedRing, WithHead, HeadShown, Inc, Dec;
      seqs[w] := Inc(seqs[w]);
      ring := Do(ring, Begin);
      if !sourceOk || !blitOk {
        seqs[w] := Dec(seqs[w]);
        ring := Do(ring, Abort);
        assert seqs[..] == ring.seqs;
        return;
      }
      Fill(blits);
      ring := Do(ring, BlitDone);
      HeadSteps(ring, head);
      heads[w] := head;
      ring := WithHead(ring, head);
      wIdx := (w + 1) % SLOTS;
      seqs[w] := Inc(seqs[w]);
      ring := Do(ring, Commit);
      assert ring == PublishSteps(r0, head, blits);
      hide PublishSteps;
      assert seqs[..] == ring.seqs;
      assert heads[..] == old(heads[..])[w := head];
      forall i | 0 <= i < SLOTS ensures HeadShown(i) {
        assert old(HeadShown(i));
        ShownHead(r0, ring, head, blits, old(heads[..]), i);
      }
    }

    // The blit, cell by cell.
    ghost method Fill(blits: Blits)
      requires Shape(ring) && ring.writer.Filling? && InPixels(blits)
      modifies this`ring
      ensures ring == PaintedRing(old(ring), blits)
    {
      ghost var r1 := ring;
      for k := 0 to |blits|
        invariant ring == PaintedRing(r1, blits[..k])
      {
        PaintStep(r1, blits, k);
        ring := Do(ring, Blit(blits[k].0, blits[k].1));
      }
      assert blits[..|blits|] == blits;
    }

    // RgaDecodedSink::Decoded. The header stores the dimensions in 16 bits.
    method Decoded(width: int, height: int, ntpTimeMs: int, sourceOk: bool, blits: Blits, blitOk: bool)
      requires Valid() && InPixels(blits) && (blitOk || blits == [])
      modifies this`wIdx, this`ring, seqs, heads
      ensures Valid()
      ensures |old(ring.cells[wIdx])| >= HEAD_WORDS
      ensures if width > 0 && height > 0 && sourceOk && blitOk
              then PublishedOne(old(ring), ring, DecodedHead(width, height, ntpTimeMs), blits)
                   && |ring.cells| == SLOTS && ShowsDecoded(ring.cells[old(wIdx)], width, height, ntpTimeMs)
              else ring == old(ring)
    {
      assert HeadShown(wIdx);
      if width <= 0 || height <= 0 {
        return;
      }
      Publish(DecodedHead(width, height, ntpTimeMs), sourceOk, blits, blitOk);
      hide PublishedOne, ShowsDecoded, HeadShown;
      if sourceOk && blitOk {
        DecodedIsShown(old(ring), ring, width, height, ntpTimeMs, blits);
      }
    }

    // The preview half of RgaVideoTrackSource::OnRawFrame.
    method Preview(width: int, height: int, blits: Blits, blitOk: bool)
      requires Valid() && InPixels(blits) && (blitOk || blits == [])
      modifies this`wIdx, this`ring, seqs, heads
      ensures Valid()
      ensures |old(ring.cells[wIdx])| >= HEAD_WORDS
      ensures if width > 0 && height > 0 && blitOk
              then PublishedOne(old(ring), ring, PreviewHead(width, height), blits)
                   && |ring.cells| == SLOTS && ShowsPreview(ring.cells[old(wIdx)], width, height)
              else ring == old(ring)
    {
      assert HeadShown(wIdx);
      if width <= 0 || height <= 0 {
        return;
      }
      Publish(PreviewHead(width, height), true, blits, blitOk);
      hide PublishedOne, ShowsPreview, HeadShown;
      if blitOk {
        PreviewIsShown(old(ring), ring, width, height, blits);
      }
    }
  }

  function DecodedHead(width: nat, height: nat, ntpTimeMs: int): FrameHead {
    var ys := width * height;
    FrameHead(ntpTimeMs, (ys + 2 * (ys / 4)) % WRAP, width % 0x1_0000, height % 0x1_0000)
  }

  function PreviewHead(width: nat, height: nat): FrameHead {
    var ys := width * height;
    FrameHead(0, (ys + 2 * (ys / 2)) % WRAP, width % 0x1_0000, height % 0x1_0000)
  }
}
