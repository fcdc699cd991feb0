/** Packing the three planes of an I420 picture, whose rows are stride apart, into one
    buffer without gaps. */
module PlanePacking {
  import opened Basics
  import opened ShmRing

  // ---------- One plane ----------

  // The rows of a plane have room in its memory.
  ghost predicate RowsIn(size: nat, stride: nat, rowLen: nat, rows: nat) {
    forall r: nat :: r < rows ==> r * stride + rowLen <= size
  }

  // The plane's first rows, each cut to its row length, one after the other.
  ghost function Packed(src: seq<Byte>, stride: nat, rowLen: nat, rows: nat): seq<Byte>
    requires RowsIn(|src|, stride, rowLen, rows)
  {
    if rows == 0 then []
    else
      assert (rows - 1) * stride + rowLen <= |src|;
      Packed(src, stride, rowLen, rows - 1) + src[(rows - 1) * stride..(rows - 1) * stride + rowLen]
  }

  // Where a row starts.
  function RowStart(row: nat, stride: nat): nat { row * stride }

  // The sample in row r, column c of rows that start at and are stride apart; -1 when
  // there is none.
  function Sample(data: seq<Byte>, at: nat, stride: nat, r: nat, c: nat): int {
    var i := at + RowStart(r, stride) + c;
    if i < |data| then data[i] else -1
  }

  lemma NextRow(row: nat, n: nat)
    ensures (row + 1) * n == row * n + n
  {
  }

  lemma RowsBefore(r: nat, rows: nat, n: nat)
    requires r < rows
    ensures r * n + n <= rows * n
  {
    assert (r + 1) * n <= rows * n;
  }

  lemma {:induction false} PackedLength(src: seq<Byte>, stride: nat, rowLen: nat, rows: nat)
    requires RowsIn(|src|, stride, rowLen, rows)
    ensures |Packed(src, stride, rowLen, rows)| == rows * rowLen
  {
    if rows > 0 {
      assert (rows - 1) * stride + rowLen <= |src|;
      PackedLength(src, stride, rowLen, rows - 1);
      NextRow(rows - 1, rowLen);
    }
  }

  // Row r, column c of the plane is found at the row-major position of a picture
  // rowLen wide.
  lemma {:induction false} PackedAt(src: seq<Byte>, stride: nat, rowLen: nat, rows: nat, r: nat, c: nat)
    requires RowsIn(|src|, stride, rowLen, rows) && r < rows && c < rowLen
    ensures Sample(Packed(src, stride, rowLen, rows), 0, rowLen, r, c) == Sample(src, 0, stride, r, c) >= 0
  {
    RowsBefore(r, rows, rowLen);
    assert r * stride + rowLen <= |src|;
    PackedLength(src, stride, rowLen, rows);
    PackedLength(src, stride, rowLen, rows - 1);
    if r < rows - 1 {
      RowsBefore(r, rows - 1, rowLen);
      PackedAt(src, stride, rowLen, rows - 1, r, c);
    }
  }

  // all with what follows at overwritten by done.
  ghost function Overwritten(all: seq<Byte>, at: nat, done: seq<Byte>): seq<Byte>
    requires at + |done| <= |all|
  {
    all[..at] + done + all[at + |done|..]
  }

  lemma NothingOverwritten(all: seq<Byte>, at: nat)
    requires at <= |all|
    ensures Overwritten(all, at, []) == all
  {
  }

  lemma AddRow(all: seq<Byte>, at: nat, done: seq<Byte>, row: seq<Byte>)
    requires at + |done| + |row| <= |all|
    ensures |Overwritten(all, at, done)| == |all|
    ensures Overwritten(Overwritten(all, at, done), at + |done|, row) == Overwritten(all, at, done + row)
  {
  }

  lemma NoRows(src: seq<Byte>, stride: nat, rowLen: nat)
    ensures RowsIn(|src|, stride, rowLen, 0) && Packed(src, stride, rowLen, 0) == []
    ensures RowStart(0, stride) == 0
  {
  }

  lemma RowRoom(src: seq<Byte>, stride: nat, rowLen: nat, rows: nat, row: nat)
    requires RowsIn(|src|, stride, rowLen, rows) && row < rows
    ensures RowStart(row + 1, stride) == RowStart(row, stride) + stride
    ensures RowsIn(|src|, stride, rowLen, row) && RowsIn(|src|, stride, rowLen, row + 1)
    ensures RowStart(row, stride) + rowLen <= |src|
    ensures |Packed(src, stride, rowLen, row)| + rowLen <= |Packed(src, stride, rowLen, rows)|
    ensures Packed(src, stride, rowLen, row + 1)
            == Packed(src, stride, rowLen, row) + src[RowStart(row, stride)..RowStart(row, stride) + rowLen]
  {
    NextRow(row, stride);
    RowsBefore(row, rows, rowLen);
    PackedLength(src, stride, rowLen, row);
    PackedLength(src, stride, rowLen, rows);
  }

  // One copy loop: row by row into dst from at on.
  method CopyRows(dst: array<Byte>, at: nat, src: seq<Byte>, stride: nat, rowLen: nat, rows: nat)
    requires RowsIn(|src|, stride, rowLen, rows)
    requires at + |Packed(src, stride, rowLen, rows)| <= dst.Length
    modifies dst
    ensures dst[..] == Overwritten(old(dst[..]), at, Packed(src, stride, rowLen, rows))
  {
    hide RowsIn, Packed, RowStart, Overwritten;
    ghost var all := dst[..];
    ghost var done: seq<Byte> := [];
    NoRows(src, stride, rowLen);
    NothingOverwritten(all, at);
    var row, to, from := 0, at, 0;
    while row < rows
      invariant row <= rows && to == at + |done| && from == RowStart(row, stride)
      invariant RowsIn(|src|, stride, rowLen, row) && done == Packed(src, stride, rowLen, row)
      invariant to <= |all| && dst[..] == Overwritten(all, at, done)
    {
      RowRoom(src, stride, rowLen, rows, row);
      AddRow(all, at, done, src[from..from + rowLen]);
      CopyRow(dst, to, src[from..from + rowLen]);
      done := done + src[from..from + rowLen];
      row, to, from := row + 1, to + rowLen, from + stride;
    }
  }

  // memcpy of one row.
  method CopyRow(dst: array<Byte>, at: nat, row: seq<Byte>)
    requires at + |row| <= dst.Length
    modifies dst
    ensures dst[..] == Overwritten(old(dst[..]), at, row)
  {
    forall i | 0 <= i < |row| {
      dst[at + i] := row[i];
    }
  }

  // ---------- The picture ----------

  datatype Plane = Plane(data: seq<Byte>, stride: nat)

  // The frame as the decoder hands it over; rotation is in degrees.
  datatype Picture =
    Picture(width: nat, height: nat, y: Plane, u: Plane, v: Plane, ntpTimeMs: int, rotation: nat)

  function Half(n: nat): nat { (n + 1) / 2 }

  // The memory an I420 buffer promises for its planes.
  ghost predicate WellFormed(f: Picture) {
    && RowsIn(|f.y.data|, f.y.stride, f.width, f.height)
    && RowsIn(|f.u.data|, f.u.stride, Half(f.width), Half(f.height))
    && RowsIn(|f.v.data|, f.v.stride, Half(f.width), Half(f.height))
  }

  // total_size: the planes with their gaps.
  function TotalSize(f: Picture): nat {
    f.y.stride * f.height + f.u.stride * Half(f.height) + f.v.stride * Half(f.height)
  }

  function LumaSize(f: Picture): nat { f.height * f.width }

  function ChromaSize(f: Picture): nat { Half(f.height) * Half(f.width) }

  // The samples alone.
  function PackedSize(f: Picture): nat { LumaSize(f) + ChromaSize(f) + ChromaSize(f) }

  lemma PlaneLengths(f: Picture)
    requires WellFormed(f)
    ensures |Packed(f.y.data, f.y.stride, f.width, f.height)| == LumaSize(f)
    ensures |Packed(f.u.data, f.u.stride, Half(f.width), Half(f.height))| == ChromaSize(f)
    ensures |Packed(f.v.data, f.v.stride, Half(f.width), Half(f.height))| == ChromaSize(f)
  {
    PackedLength(f.y.data, f.y.stride, f.width, f.height);
    PackedLength(f.u.data, f.u.stride, Half(f.width), Half(f.height));
    PackedLength(f.v.data, f.v.stride, Half(f.width), Half(f.height));
  }

  ghost function PackedPlanes(f: Picture): (p: seq<Byte>)
    requires WellFormed(f)
    ensures |p| == PackedSize(f)
  {
    PlaneLengths(f);
    Packed(f.y.data, f.y.stride, f.width, f.height)
    + Packed(f.u.data, f.u.stride, Half(f.width), Half(f.height))
    + Packed(f.v.data, f.v.stride, Half(f.width), Half(f.height))
  }

  lemma MulGrows(a: nat, b: nat, n: nat)
    requires a <= b
    ensures n * a <= b * n
  {
  }

  // Strides at least as long as the rows leave room for all samples.
  lemma StridesMakeRoom(f: Picture)
    requires f.width <= f.y.stride && Half(f.width) <= f.u.stride && Half(f.width) <= f.v.stride
    ensures PackedSize(f) <= TotalSize(f)
  {
    MulGrows(f.width, f.y.stride, f.height);
    MulGrows(Half(f.width), f.u.stride, Half(f.height));
    MulGrows(Half(f.width), f.v.stride, Half(f.height));
  }

  lemma SampleInside(a: seq<Byte>, b: seq<Byte>, c: seq<Byte>, stride: nat, row: nat, col: nat)
    requires Sample(b, 0, stride, row, col) >= 0
    ensures Sample(a + b + c, |a|, stride, row, col) == Sample(b, 0, stride, row, col)
  {
  }

  // Each sample of the picture is at its row-major offset in the packed buffer: luma
  // first, then the two chroma planes; nothing that follows changes that.
  lemma SamplesAt(f: Picture, rest: seq<Byte>, r: nat, c: nat)
    requires WellFormed(f)
    ensures r < f.height && c < f.width ==>
              Sample(PackedPlanes(f) + rest, 0, f.width, r, c) == Sample(f.y.data, 0, f.y.stride, r, c) >= 0
    ensures r < Half(f.height) && c < Half(f.width) ==>
              Sample(PackedPlanes(f) + rest, LumaSize(f), Half(f.width), r, c)
              == Sample(f.u.data, 0, f.u.stride, r, c) >= 0
    ensures r < Half(f.height) && c < Half(f.width) ==>
              Sample(PackedPlanes(f) + rest, LumaSize(f) + ChromaSize(f), Half(f.width), r, c)
              == Sample(f.v.data, 0, f.v.stride, r, c) >= 0
  {
    var (hw, hh) := (Half(f.width), Half(f.height));
    hide Packed, Half, RowsIn, Sample;
    var y := Packed(f.y.data, f.y.stride, f.width, f.height);
    var u := Packed(f.u.data, f.u.stride, hw, hh);
    var v := Packed(f.v.data, f.v.stride, hw, hh);
    PlaneLengths(f);
    var all := PackedPlanes(f) + rest;
    assert all == [] + y + (u + v + rest) && all == y + u + (v + rest) && all == (y + u) + v + rest;
    if r < f.height && c < f.width {
      PackedAt(f.y.data, f.y.stride, f.width, f.height, r, c);
      SampleInside([], y, u + v + rest, f.width, r, c);
    }
    if r < hh && c < hw {
      PackedAt(f.u.data, f.u.stride, hw, hh, r, c);
      PackedAt(f.v.data, f.v.stride, hw, hh, r, c);
      SampleInside(y, u, v + rest, hw, r, c);
      SampleInside(y + u, v, rest, hw, r, c);
    }
  }

  // ---------- The renderer ----------

  function Zeros(n: nat): (z: seq<Byte>)
    ensures |z| == n && forall i :: 0 <= i < n ==> z[i] == 0
  {
    seq(n, i => 0)
  }

  // The head keeps 16 bits of each dimension, 8 of the rotation and 32 of the length.
  function HeadOf(f: Picture): Head {
    Head(f.ntpTimeMs, TotalSize(f) % 0x1_0000_0000,
         VideoInfo(f.width % 0x1_0000, f.height % 0x1_0000, 0, f.rotation % 0x100))
  }

  // The four rotations a frame can have.
  predicate IsRotation(rotation: nat) { rotation in {0, 90, 180, 270} }

  // What a reader of the head can know of the picture: its size, while it fits 16 bits
  // each way, and its rotation, unless that is 270 degrees, which the head stores as 14.
  lemma HeadDescribesIff(f: Picture)
    requires IsRotation(f.rotation)
    ensures HeadOf(f).info == VideoInfo(f.width, f.height, 0, f.rotation)
            <==> f.width < 0x1_0000 && f.height < 0x1_0000 && f.rotation != 270
    ensures f.rotation == 270 ==> HeadOf(f).info.rotation == 14
  {
  }

  // The frame is this picture at this time, as far as a head can say it, with every
  // sample at its packed offset.
  ghost predicate Shows(frame: Frame, f: Picture) {
    && frame.head.ntpTimeMs == f.ntpTimeMs
    && (f.width < 0x1_0000 && f.height < 0x1_0000 && f.rotation in {0, 90, 180} ==>
          frame.head.info == VideoInfo(f.width, f.height, 0, f.rotation))
    && frame.head.frameLen == |frame.payload|
    // every luma sample has its chroma samples
    && (forall r: nat :: r < f.height ==> r / 2 < Half(f.height))
    && (forall c: nat :: c < f.width ==> c / 2 < Half(f.width))
    && forall r: nat, c: nat ::
         && (r < f.height && c < f.width ==>
               Sample(frame.payload, 0, f.width, r, c) == Sample(f.y.data, 0, f.y.stride, r, c) >= 0)
         && (r < Half(f.height) && c < Half(f.width) ==>
               Sample(frame.payload, LumaSize(f), Half(f.width), r, c)
               == Sample(f.u.data, 0, f.u.stride, r, c) >= 0)
         && (r < Half(f.height) && c < Half(f.width) ==>
               Sample(frame.payload, LumaSize(f) + ChromaSize(f), Half(f.width), r, c)
               == Sample(f.v.data, 0, f.v.stride, r, c) >= 0)
  }

  lemma HalfCovers(n: nat)
    ensures forall k: nat :: k < n ==> k / 2 < Half(n)
  {
  }

  // Planes whose memory is exactly their rows, gaps included, make a frame as long as
  // they are together.
  lemma TotalIsMemory(f: Picture)
    requires |f.y.data| == RowStart(f.height, f.y.stride)
    requires |f.u.data| == RowStart(Half(f.height), f.u.stride) && |f.v.data| == RowStart(Half(f.height), f.v.stride)
    ensures TotalSize(f) == |f.y.data| + |f.u.data| + |f.v.data|
  {
    hide Half;
  }

  // What the renderer leaves is a frame of the picture, while its size fits 32 bits.
  lemma PackingShows(f: Picture)
    requires WellFormed(f) && PackedSize(f) <= TotalSize(f) < 0x1_0000_0000
    ensures Shows(Packing(f), f)
  {
    HalfCovers(f.width);
    HalfCovers(f.height);
    hide Sample, PackedPlanes, TotalSize, PackedSize, LumaSize, ChromaSize, Half, WellFormed;
    forall r: nat, c: nat {
      SamplesAt(f, Zeros(TotalSize(f) - PackedSize(f)), r, c);
    }
  }

  // The frame the renderer leaves for its writer.
  ghost function Packing(f: Picture): Frame
    requires WellFormed(f) && PackedSize(f) <= TotalSize(f)
  {
    Frame(HeadOf(f), PackedPlanes(f) + Zeros(TotalSize(f) - PackedSize(f)))
  }

  class ShmVideoRenderer {
    var pending: Option<Frame>

    // None is a buffer that could not be converted. Every write stays in bounds as soon
    // as the samples fit the strided size.
    method OnFrame(frame: Option<Picture>)
      requires frame.Some? ==> WellFormed(frame.value) && PackedSize(frame.value) <= TotalSize(frame.value)
      modifies this
      ensures pending == if frame.Some? then Some(Packing(frame.value)) else old(pending)
    {
      if frame.Some? {
        var data := Pack(frame.value);
        pending := Some(Frame(HeadOf(frame.value), data));
      }
    }

    static method Pack(f: Picture) returns (data: seq<Byte>)
      requires WellFormed(f) && PackedSize(f) <= TotalSize(f)
      ensures data == PackedPlanes(f) + Zeros(TotalSize(f) - PackedSize(f))
    {
      hide Packed, TotalSize, RowsIn;
      PlaneLengths(f);
      var (hw, hh) := (Half(f.width), Half(f.height));
      hide Half;
      var ySize, uSize := LumaSize(f), ChromaSize(f);
      var buf := new Byte[TotalSize(f)](i => 0);
      assert buf[..] == Zeros(TotalSize(f));
      ghost var y := Packed(f.y.data, f.y.stride, f.width, f.height);
      ghost var u := Packed(f.u.data, f.u.stride, hw, hh);
      CopyRows(buf, 0, f.y.data, f.y.stride, f.width, f.height);
      assert buf[..] == y + Zeros(TotalSize(f) - ySize);
      CopyRows(buf, ySize, f.u.data, f.u.stride, hw, hh);
      assert buf[..] == y + u + Zeros(TotalSize(f) - ySize - uSize);
      CopyRows(buf, ySize + uSize, f.v.data, f.v.stride, hw, hh);
      data := buf[..];
    }
  }
}
