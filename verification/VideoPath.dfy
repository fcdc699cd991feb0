/** Decoded pictures on the frame pipeline: the renderer packs each picture and does not
    check its size; the writer of the ring does. */
module VideoPath {
  import opened ShmRing
  import opened FramePipeline
  import opened PlanePacking

  const FRAME_MAX_SIZE := 2 * 1024 * 1024

  // A picture that can be packed and whose size an int can hold.
  ghost predicate Packable(f: Picture) {
    WellFormed(f) && PackedSize(f) <= TotalSize(f) < 0x8000_0000
  }

  ghost function OfferOf(f: Picture): Offer
    requires Packable(f)
  {
    var frame := Packing(f);
    VideoOffer(frame.head.ntpTimeMs, frame.head.info, frame.payload)
  }

  // What travels for a picture is the frame the renderer packed, all of it.
  lemma OfferIsPacking(f: Picture)
    requires Packable(f)
    ensures FrameOf(OfferOf(f)) == Packing(f) && |OfferOf(f).data| == TotalSize(f)
  {
  }

  lemma PictureIsShown(f: Picture)
    requires Packable(f)
    ensures Shows(FrameOf(OfferOf(f)), f)
  {
    OfferIsPacking(f);
    hide OfferOf, FrameOf, Shows, WellFormed, PackedSize, TotalSize;
    PackingShows(f);
  }

  // From the renderer's call to the other process: over every run, whatever is delivered
  // is a frame of one of the pictures offered, with its time, and the pictures come in
  // the order they were offered.
  lemma PicturesArrive(max: nat, s: State, ls: seq<Label>, pictures: seq<Picture>)
    requires Start(s, max) && forall f :: f in pictures ==> Packable(f)
    requires var offered := Exec(max, s, ls).offered;
             |offered| == |pictures| && forall i :: 0 <= i < |pictures| ==> offered[i] == OfferOf(pictures[i])
    ensures var e := Exec(max, s, ls);
            && (forall it :: it in e.delivered ==> it.tag < |pictures| && Shows(it.frame, pictures[it.tag]))
            && forall i, j :: 0 <= i < j < |e.delivered| ==> e.delivered[i].tag < e.delivered[j].tag
  {
    hide OfferOf, Packable, Shows, Exec, Start, FrameOf;
    DeliveredInOrder(max, s, ls);
    var e := Exec(max, s, ls);
    forall it | it in e.delivered ensures it.tag < |pictures| && Shows(it.frame, pictures[it.tag]) {
      assert Genuine(e.offered, it);
      PictureIsShown(pictures[it.tag]);
    }
  }

  // The writer never refuses a picture, over every run with pictures from this set, if
  // and only if each, strides included, fits a slot.
  lemma PicturesRefusedIff(s: State, pictures: iset<Picture>)
    requires Start(s, FRAME_MAX_SIZE) && !s.checks && forall f :: f in pictures ==> Packable(f)
    ensures (forall ls :: (forall o :: OnData(o) in ls ==> exists f :: f in pictures && o == OfferOf(f))
                          ==> Exec(FRAME_MAX_SIZE, s, ls).refused == {})
            <==> forall f :: f in pictures ==> TotalSize(f) <= FRAME_MAX_SIZE
  {
    var frames := iset f | f in pictures :: OfferOf(f);
    forall f | f in pictures ensures |OfferOf(f).data| == TotalSize(f) && OfferOf(f) in frames {
      OfferIsPacking(f);
    }
    hide OfferOf, TotalSize, Packable, Exec, Start;
    WriterRefusesIff(FRAME_MAX_SIZE, s, frames);
  }

  // A full-HD picture without padding does not fit.
  lemma FullHdIsRefused(f: Picture, s: State)
    requires Packable(f) && f.width == f.y.stride == 1920 && f.height == 1080 && f.u.stride == f.v.stride == 960
    requires Start(s, FRAME_MAX_SIZE) && !s.checks
    ensures Exec(FRAME_MAX_SIZE, s, [OnData(OfferOf(f)), IoStep, IoStep]).refused == {0}
  {
    assert TotalSize(f) == 3110400;
    OfferIsPacking(f);
    hide OfferOf, TotalSize, Packable, Exec, Start;
    RefusedRun(FRAME_MAX_SIZE, s, OfferOf(f));
  }
}
