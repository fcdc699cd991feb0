/** The HTTP client of the engine: collecting a response by Content-Length (section
    10.4 of RFC 1945), however it is cut into reads. */
module HttpFraming {
  import opened Basics
  import opened TextScan

  const SIZE_T := 0x1_0000_0000_0000_0000

  function Crlf(): (s: string)
    ensures |s| == 2 && s[0] == '\r' && s[1] == '\n'
  {
    "\r\n"
  }

  function EndOfHeaders(): (s: string)
    ensures |s| == 4 && s[..2] == s[2..] == Crlf() && s[0] == '\r' && forall i :: 0 <= i < 4 ==> IsSpace(s[i])
  {
    "\r\n\r\n"
  }

  function LengthField(): (s: string)
    ensures |s| == 18 && s[..2] == Crlf() && forall i :: 0 < i < 18 ==> s[i] != '\r'
  {
    "\r\nContent-Length: "
  }

  function IdField(): (s: string)
    ensures |s| == 10 && s[..2] == Crlf() && forall i :: 0 < i < 10 ==> s[i] != '\r'
  {
    "\r\nPragma: "
  }

  // ---------- When a buffer holds a whole response ----------

  // GetHeaderValue for numbers: the field must start before the header's end at eoh.
  function HeaderNumber(data: string, eoh: int, field: string): Option<int> {
    var found := IndexOf(data, field);
    if found >= 0 && found < eoh then Some(Atoi(data[found + |field|..])) else None
  }

  // size_t arithmetic wraps, so a negative length counts down from the top.
  function SizeOf(eoh: nat, length: int): nat { (eoh + 4 + length % SIZE_T) % SIZE_T }

  predicate Complete(data: string) {
    var eoh := IndexOf(data, EndOfHeaders());
    && eoh >= 0
    && HeaderNumber(data, eoh, LengthField()).Some?
    && |data| >= SizeOf(eoh, HeaderNumber(data, eoh, LengthField()).value)
  }

  // The response's header block, up to and including the empty line.
  function HeaderBlock(r: string): string
    requires IndexOf(r, EndOfHeaders()) >= 0
  {
    r[..IndexOf(r, EndOfHeaders()) + 4]
  }

  predicate HasLength(r: string) {
    IndexOf(r, EndOfHeaders()) >= 0
    && HeaderNumber(r, IndexOf(r, EndOfHeaders()), LengthField()).Some?
  }

  // The end of the response as its header block alone declares it; a response is
  // never taken to end before its headers do.
  function DeclaredEnd(r: string): nat
    requires HasLength(r)
  {
    var eoh := IndexOf(r, EndOfHeaders());
    var n := HeaderNumber(HeaderBlock(r), eoh, LengthField());
    var size := if n.Some? then SizeOf(eoh, n.value) else 0;
    if size < eoh + 4 then eoh + 4 else size
  }

  // The field's own text ends before the empty line begins.
  lemma FieldFits(r: string, field: string, e: nat, f: nat)
    requires OccursAt(r, EndOfHeaders(), e) && OccursAt(r, field, f) && f < e
    requires forall i :: 0 < i < |field| ==> field[i] != '\r'
    ensures f + |field| <= e
  {
    hide EndOfHeaders;
    assert r[e] == r[e..e + 4][0];
    forall j | f < j < f + |field| ensures r[j] != '\r' {
      assert r[f..f + |field|][j - f] == field[j - f];
    }
  }

  // The text of the length field up to the end of the headers.
  function LengthText(r: string): string
    requires HasLength(r)
  {
    FieldFits(r, LengthField(), IndexOf(r, EndOfHeaders()), IndexOf(r, LengthField()));
    r[IndexOf(r, LengthField()) + |LengthField()|..IndexOf(r, EndOfHeaders())]
  }

  lemma NumberInPrefix(r: string, field: string, e: nat, k: nat)
    requires IndexOf(r, field) >= 0 && IndexOf(r, field) + |field| <= e <= k <= |r| && IndexOf(r, field) < e
    ensures HeaderNumber(r[..k], e, field) == Some(Atoi(r[IndexOf(r, field) + |field|..e] + r[e..k]))
  {
    hide IndexOf, Atoi, OccursAt;
    IndexInPrefix(r, field, k);
    SliceInTwo(r, IndexOf(r, field) + |field|, e, k);
  }

  lemma SliceInTwo(r: string, from: nat, e: nat, k: nat)
    requires from <= e <= k <= |r|
    ensures r[..k][from..] == r[from..e] + r[e..k]
  {
  }

  // The blank line at the end of the headers, seen from there.
  lemma FromBlankLine(r: string, e: nat, k: nat)
    requires IndexOf(r, EndOfHeaders()) == e && e + 4 <= k <= |r|
    ensures Stops(r[e..k])
    ensures k == e + 4 ==> Blank(r[e..k])
  {
  }

  lemma BlankBoth(a: string, b: string)
    requires Blank(a) && Blank(b)
    ensures Blank(a + b)
  {
  }

  lemma LengthPrefix(r: string, e: nat, k: nat)
    requires HasLength(r) && IndexOf(r, EndOfHeaders()) == e && e + 4 <= k <= |r|
    ensures IndexOf(r[..k], EndOfHeaders()) == e
    ensures HeaderNumber(r[..k], e, LengthField()) == Some(Atoi(LengthText(r) + r[e..k]))
  {
    hide EndOfHeaders, LengthField, IndexOf, Atoi;
    FieldFits(r, LengthField(), e, IndexOf(r, LengthField()));
    IndexInPrefix(r, EndOfHeaders(), k);
    NumberInPrefix(r, LengthField(), e, k);
  }

  // A length field that is not blank reads the same in every longer prefix; a blank
  // one reads as 0 as long as only the header block is there.
  lemma LengthSeen(r: string, e: nat, k: nat)
    requires HasLength(r) && IndexOf(r, EndOfHeaders()) == e && e + 4 <= k <= |r|
    ensures IndexOf(r[..k], EndOfHeaders()) == e
    ensures HeaderNumber(r[..k], e, LengthField()).Some?
    ensures !Blank(LengthText(r)) ==> HeaderNumber(r[..k], e, LengthField()) == Some(Atoi(LengthText(r)))
    ensures Blank(LengthText(r)) && k == e + 4 ==> HeaderNumber(r[..k], e, LengthField()) == Some(0)
  {
    hide EndOfHeaders, LengthField, IndexOf, Atoi, HeaderNumber, LengthText, Blank, HasLength;
    LengthPrefix(r, e, k);
    FromBlankLine(r, e, k);
    var text := LengthText(r);
    if !Blank(text) {
      AtoiStops(text, r[e..k]);
    } else if k == e + 4 {
      BlankBoth(text, r[e..k]);
      AtoiBlank(text + r[e..k]);
    }
  }

  // A prefix is not taken for a whole response before the declared end, and is there.
  lemma CompleteFrom(r: string, k: nat)
    requires HasLength(r) && k <= |r| < SIZE_T
    ensures k < DeclaredEnd(r) ==> !Complete(r[..k])
    ensures k == DeclaredEnd(r) ==> Complete(r[..k])
  {
    hide EndOfHeaders, LengthField, IndexOf, Atoi, LengthText, HeaderNumber;
    var e := IndexOf(r, EndOfHeaders());
    LengthSeen(r, e, e + 4);
    if k < e + 4 {
      IndexInPrefix(r, EndOfHeaders(), k);
    } else {
      LengthSeen(r, e, k);
    }
  }

  // For every response with a header end and a length field: no proper prefix is
  // taken for a whole response and the response itself is, if and only if it ends
  // where its header block declares.
  lemma WholeIff(r: string)
    requires HasLength(r) && |r| < SIZE_T
    ensures (Complete(r) && forall k: nat :: k < |r| ==> !Complete(r[..k])) <==> |r| == DeclaredEnd(r)
  {
    var d := DeclaredEnd(r);
    assert r[..|r|] == r;
    CompleteFrom(r, |r|);
    if d < |r| {
      CompleteFrom(r, d);
    }
    if |r| == d {
      forall k: nat | k < |r| ensures !Complete(r[..k]) {
        CompleteFrom(r, k);
      }
    }
  }

  // ---------- Which lengths frame their response ----------

  const INT_LIMIT := 0x8000_0000

  function BodyLength(r: string): nat
    requires HasLength(r)
  {
    hide IndexOf;
    EndInside(r);
    |r| - (IndexOf(r, EndOfHeaders()) + 4)
  }

  lemma EndInside(r: string)
    requires HasLength(r)
    ensures 0 <= IndexOf(r, EndOfHeaders()) <= |r| - 4
  {
    hide IndexOf, EndOfHeaders, HeaderNumber;
  }

  // The body length that a declared length n stands for behind a header block of this
  // size: itself, or none at all, or, further below zero, one counted from 2^64 down.
  function Meant(header: nat, n: int): int {
    if n >= 0 then n else if n + header >= 0 then 0 else SIZE_T + n
  }

  lemma DeclaredNumber(r: string)
    requires HasLength(r)
    ensures var e := IndexOf(r, EndOfHeaders());
            HeaderNumber(HeaderBlock(r), e, LengthField()) == Some(Atoi(LengthText(r)))
  {
    hide IndexOf, EndOfHeaders, LengthField, Atoi, HeaderNumber, LengthText, HasLength, Blank;
    EndInside(r);
    var e := IndexOf(r, EndOfHeaders());
    LengthSeen(r, e, e + 4);
    if Blank(LengthText(r)) {
      AtoiBlank(LengthText(r));
    }
  }

  lemma SizeMeant(e: nat, n: int)
    requires -INT_LIMIT <= n < INT_LIMIT && e + 4 < SIZE_T - INT_LIMIT
    ensures (if SizeOf(e, n) < e + 4 then e + 4 else SizeOf(e, n)) == e + 4 + Meant(e + 4, n)
  {
    assert n < 0 ==> n % SIZE_T == n + SIZE_T;
  }

  // A response, with a length that a C int can hold, ends where it declares if and only
  // if its body has the length meant.
  lemma FramedIff(r: string)
    requires HasLength(r) && |r| < SIZE_T - INT_LIMIT && -INT_LIMIT <= Atoi(LengthText(r)) < INT_LIMIT
    ensures |r| == DeclaredEnd(r)
            <==> BodyLength(r) == Meant(IndexOf(r, EndOfHeaders()) + 4, Atoi(LengthText(r)))
  {
    hide IndexOf, EndOfHeaders, LengthField, Atoi, HeaderNumber, LengthText, HeaderBlock, SizeOf, Meant;
    EndInside(r);
    DeclaredNumber(r);
    SizeMeant(IndexOf(r, EndOfHeaders()), Atoi(LengthText(r)));
  }

  // ---------- Reading in pieces ----------

  // Read events with these chunks, starting from an empty buffer, which is cleared
  // after each completed response: the responses completed, and the bytes kept.
  function Deliver(chunks: seq<string>): (seq<string>, string) {
    if chunks == [] then ([], "")
    else
      var (done, buf) := Deliver(chunks[..|chunks| - 1]);
      var data := buf + chunks[|chunks| - 1];
      if Complete(data) then (done + [data], "") else (done, data)
  }

  // A read event may also bring nothing.
  ghost predicate Cutting(r: string, chunks: seq<string>) { Concat(chunks) == r }

  lemma FrontIsPrefix(a: string, b: string, r: string, k: nat)
    requires k <= |r| && a + b == r[..k]
    ensures |a| <= k && a == r[..|a|]
  {
    assert forall i :: 0 <= i < |a| ==> a[i] == (a + b)[i];
  }

  lemma {:induction false} NothingYet(r: string, chunks: seq<string>, k: nat)
    requires k <= |r| && Concat(chunks) == r[..k]
    requires forall j: nat :: j <= k ==> !Complete(r[..j])
    ensures Deliver(chunks) == ([], r[..k])
  {
    if chunks != [] {
      var front := Concat(chunks[..|chunks| - 1]);
      FrontIsPrefix(front, chunks[|chunks| - 1], r, k);
      NothingYet(r, chunks[..|chunks| - 1], |front|);
    }
  }

  // Cut into reads in every way, the response comes out once, whole, if and only if
  // it ends where its header block declares.
  lemma CuttingDoesNotMatter(r: string)
    requires HasLength(r) && |r| < SIZE_T
    ensures (forall chunks :: Cutting(r, chunks) ==> Deliver(chunks) == ([r], "")) <==> |r| == DeclaredEnd(r)
  {
    WholeIff(r);
    if |r| == DeclaredEnd(r) {
      forall chunks | Cutting(r, chunks) ensures Deliver(chunks) == ([r], "") {
        AllPieces(r, chunks);
      }
    } else if Complete(r) {
      var k: nat :| k < |r| && Complete(r[..k]);
      TwoPieces(r, k);
    } else {
      OnePiece(r);
    }
  }

  lemma EmptyIsIncomplete()
    ensures !Complete("")
  {
  }

  lemma {:induction false} AllPieces(r: string, chunks: seq<string>)
    requires r != "" && Cutting(r, chunks) && Complete(r) && forall k: nat :: k < |r| ==> !Complete(r[..k])
    ensures Deliver(chunks) == ([r], "")
  {
    EmptyIsIncomplete();
    hide Complete;
    var n := |chunks| - 1;
    var front := Concat(chunks[..n]);
    assert r[..|r|] == r;
    if chunks[n] == "" {
      assert front + "" == front && "" + chunks[n] == "";
      AllPieces(r, chunks[..n]);
    } else {
      FrontIsPrefix(front, chunks[n], r, |r|);
      NothingYet(r, chunks[..n], |front|);
      var none: seq<string> := [];
      assert none + [r] == [r];
    }
  }

  lemma Single(c: string)
    requires c != ""
    ensures Concat([c]) == c
    ensures Deliver([c]) == if Complete(c) then ([c], "") else ([], c)
  {
    hide Complete;
    var chunks := [c];
    assert chunks[..|chunks| - 1] == [] && "" + c == c;
    var none: seq<string> := [];
    assert none + [c] == [c];
  }

  lemma OnePiece(r: string)
    requires r != "" && !Complete(r)
    ensures exists chunks :: Cutting(r, chunks) && Deliver(chunks) != ([r], "")
  {
    hide Complete;
    Single(r);
    assert Cutting(r, [r]);
  }

  lemma TwoPieces(r: string, k: nat)
    requires k < |r| && Complete(r[..k])
    ensures exists chunks :: Cutting(r, chunks) && Deliver(chunks) != ([r], "")
  {
    EmptyIsIncomplete();
    hide Complete;
    var a, b := r[..k], r[k..];
    Single(a);
    var chunks := [a, b];
    assert chunks[..|chunks| - 1] == [a] && a + b == r && "" + b == b;
    assert Cutting(r, chunks);
    assert Deliver(chunks).0[0] == a;
  }

  // ---------- Independence of the cutting ----------

  // A response that ends before it declares is only collected, never taken for whole.
  lemma ShortIsCollected(r: string, chunks: seq<string>)
    requires HasLength(r) && |r| < SIZE_T && |r| < DeclaredEnd(r) && Cutting(r, chunks)
    ensures Deliver(chunks) == ([], r)
  {
    hide Complete, HasLength, DeclaredEnd;
    forall j: nat | j <= |r| ensures !Complete(r[..j]) {
      CompleteFrom(r, j);
    }
    assert r[..|r|] == r;
    NothingYet(r, chunks, |r|);
  }

  lemma TwoCuttings(r: string)
    requires HasLength(r) && |r| < SIZE_T && |r| > DeclaredEnd(r)
    ensures exists a, b :: Cutting(r, a) && Cutting(r, b) && Deliver(a) != Deliver(b)
  {
    hide Complete, HasLength, DeclaredEnd, Deliver, Concat;
    var d := DeclaredEnd(r);
    CompleteFrom(r, d);
    EmptyIsIncomplete();
    OneRead(r);
    TwoReads(r[..d], r[d..]);
    assert r[..d] + r[d..] == r;
    assert Cutting(r, [r]) && Cutting(r, [r[..d], r[d..]]);
  }

  lemma OneRead(r: string)
    requires r != ""
    ensures Concat([r]) == r && forall x :: x in Deliver([r]).0 ==> x == r
  {
    hide Complete;
    Single(r);
  }

  lemma TwoReads(a: string, b: string)
    requires Complete(a) && a != ""
    ensures Concat([a, b]) == a + b && a in Deliver([a, b]).0
  {
    hide Complete;
    Single(a);
    assert [a, b][..1] == [a] && "" + b == b;
    assert Deliver([a, b]).0[0] == a;
  }

  // What comes out does not depend on how the response is cut into reads if and only if
  // the response does not go beyond the end it declares: one that ends there comes out
  // whole, a shorter one not at all.
  lemma IndependentIff(r: string)
    requires HasLength(r) && |r| < SIZE_T
    ensures (forall a, b :: Cutting(r, a) && Cutting(r, b) ==> Deliver(a) == Deliver(b)) <==> |r| <= DeclaredEnd(r)
  {
    hide Complete, HasLength, DeclaredEnd, Deliver, Cutting;
    if |r| > DeclaredEnd(r) {
      TwoCuttings(r);
    } else if |r| == DeclaredEnd(r) {
      CuttingDoesNotMatter(r);
    } else {
      forall a | Cutting(r, a) ensures Deliver(a) == ([], r) {
        ShortIsCollected(r, a);
      }
    }
  }

  // ---------- A buffer that was not empty ----------

  // Read events that start with these bytes already collected.
  function DeliverFrom(kept: string, chunks: seq<string>): (seq<string>, string) {
    if chunks == [] then ([], kept)
    else
      var (done, buf) := DeliverFrom(kept, chunks[..|chunks| - 1]);
      var data := buf + chunks[|chunks| - 1];
      if Complete(data) then (done + [data], "") else (done, data)
  }

  lemma {:induction false} FromNothing(chunks: seq<string>)
    ensures DeliverFrom("", chunks) == Deliver(chunks)
  {
    hide Complete;
    if chunks != [] {
      FromNothing(chunks[..|chunks| - 1]);
    }
  }

  // Bytes left over count as an earlier read.
  lemma {:induction false} LeftoverIsARead(kept: string, chunks: seq<string>)
    requires !Complete(kept)
    ensures DeliverFrom(kept, chunks) == Deliver([kept] + chunks)
  {
    hide Complete;
    if chunks == [] {
      assert [kept] + chunks == [kept];
      KeptOnly(kept);
    } else {
      var n := |chunks| - 1;
      assert ([kept] + chunks)[..n + 1] == [kept] + chunks[..n];
      LeftoverIsARead(kept, chunks[..n]);
    }
  }

  lemma KeptOnly(kept: string)
    requires !Complete(kept)
    ensures Deliver([kept]) == ([], kept)
  {
    hide Complete;
    assert [kept][..0] == [] && "" + kept == kept;
  }

  // No byte is lost or invented: what came out and what is kept is what went in.
  lemma {:induction false} BytesConserved(kept: string, chunks: seq<string>)
    ensures Concat(DeliverFrom(kept, chunks).0) + DeliverFrom(kept, chunks).1 == kept + Concat(chunks)
  {
    hide Complete;
    if chunks == [] {
      assert "" + kept == kept + "";
    } else {
      var n := |chunks| - 1;
      BytesConserved(kept, chunks[..n]);
      var (done, buf) := DeliverFrom(kept, chunks[..n]);
      var data := buf + chunks[n];
      assert Concat(done) + data == (Concat(done) + buf) + chunks[n];
      assert kept + Concat(chunks) == (kept + Concat(chunks[..n])) + chunks[n];
      assert (done + [data])[..|done|] == done;
      assert Concat(done + [data]) + "" == Concat(done) + data;
    }
  }

  // A response that ends where it declares comes out by itself, however it is cut, if
  // and only if nothing was left over from an earlier one.
  lemma LeftoverIff(kept: string, r: string)
    requires HasLength(r) && |r| < SIZE_T && |r| == DeclaredEnd(r)
    ensures (forall chunks :: Cutting(r, chunks) ==> DeliverFrom(kept, chunks) == ([r], "")) <==> kept == ""
  {
    hide Complete, HasLength, DeclaredEnd, Deliver, DeliverFrom;
    if kept == "" {
      CuttingDoesNotMatter(r);
      forall chunks | Cutting(r, chunks) ensures DeliverFrom(kept, chunks) == ([r], "") {
        FromNothing(chunks);
      }
    } else {
      ConcatOne(r);
      assert Cutting(r, [r]);
      BytesConserved(kept, [r]);
      assert |kept + r| > |r + ""|;
    }
  }

  lemma ConcatOne(r: string)
    ensures Concat([r]) == r
  {
    assert [r][..0] == [] && "" + r == r;
  }
}
