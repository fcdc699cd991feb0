/** Newline framing on the control socket: the splitter keeps the bytes after the last
    newline and hands every complete, non-empty line to on_message. */
module LineFraming {
  import opened Basics

  // ---------- The lines of a stream ----------

  // The position of the first newline, or the length when there is none.
  function Find(s: string): (p: nat)
    ensures p <= |s| && '\n' !in s[..p] && (p < |s| ==> s[p] == '\n')
    ensures p == |s| <==> '\n' !in s
  {
    if s == "" then 0 else if s[0] == '\n' then 0 else
      var p := Find(s[1..]);
      assert s[..p + 1] == [s[0]] + s[1..][..p];
      p + 1
  }

  // Every complete line, empty ones included.
  function RawLines(s: string): seq<string>
    decreases |s|
  {
    var p := Find(s);
    if p == |s| then [] else [s[..p]] + RawLines(s[p + 1..])
  }

  // What follows the last newline.
  function Tail(s: string): string
    decreases |s|
  {
    var p := Find(s);
    if p == |s| then s else Tail(s[p + 1..])
  }

  function NonEmpty(lines: seq<string>): seq<string> {
    if lines == [] then []
    else (if lines[0] == "" then [] else [lines[0]]) + NonEmpty(lines[1..])
  }

  function Lines(s: string): seq<string> { NonEmpty(RawLines(s)) }

  // What Send puts on the wire for these messages.
  function Framed(msgs: seq<string>): string {
    if msgs == [] then "" else msgs[0] + "\n" + Framed(msgs[1..])
  }

  predicate OneLine(m: string) { '\n' !in m }

  lemma FindInFront(l: string, rest: string)
    requires OneLine(l)
    ensures Find(l + "\n" + rest) == |l|
    ensures (l + "\n" + rest)[..|l|] == l && (l + "\n" + rest)[|l| + 1..] == rest
  {
    var s := l + "\n" + rest;
    assert forall i :: 0 <= i < |l| ==> s[i] == l[i] && l[i] in l;
    assert s[|l|] == '\n';
    assert forall i :: 0 <= i < Find(s) ==> s[i] in s[..Find(s)];
  }

  // ---------- RawLines and Tail are the one way to take a stream apart ----------

  lemma FirstLine(s: string) returns (l: string, rest: string)
    requires !OneLine(s)
    ensures s == l + "\n" + rest && OneLine(l)
  {
    var p := Find(s);
    l, rest := s[..p], s[p + 1..];
  }

  lemma RawFirst(l: string, rest: string)
    requires OneLine(l)
    ensures RawLines(l + "\n" + rest) == [l] + RawLines(rest)
    ensures Tail(l + "\n" + rest) == Tail(rest)
  {
    FindInFront(l, rest);
  }

  lemma FramedFirst(l: string, rest: seq<string>)
    ensures Framed([l] + rest) == l + "\n" + Framed(rest)
  {
  }

  lemma Append<T>(a: seq<T>, b: seq<T>, c: seq<T>)
    ensures (a + b) + c == a + (b + c)
  {
  }

  lemma {:induction false} SplitExists(s: string)
    ensures s == Framed(RawLines(s)) + Tail(s)
    ensures OneLine(Tail(s)) && forall l :: l in RawLines(s) ==> OneLine(l)
    decreases |s|
  {
    if OneLine(s) {
      assert Framed(RawLines(s)) + Tail(s) == s;
    } else {
      hide RawLines, Tail, Find, Framed;
      var l, rest := FirstLine(s);
      SplitExists(rest);
      RawFirst(l, rest);
      FramedFirst(l, RawLines(rest));
      Append(l + "\n", Framed(RawLines(rest)), Tail(rest));
    }
  }

  lemma {:induction false} SplitUnique(raw: seq<string>, tail: string)
    requires OneLine(tail) && forall l :: l in raw ==> OneLine(l)
    ensures RawLines(Framed(raw) + tail) == raw && Tail(Framed(raw) + tail) == tail
  {
    if raw == [] {
      assert Framed(raw) + tail == tail;
    } else {
      var rest := Framed(raw[1..]) + tail;
      assert Framed(raw) + tail == raw[0] + "\n" + rest;
      FindInFront(raw[0], rest);
      SplitUnique(raw[1..], tail);
    }
  }

  lemma {:induction false} FramedAppend(a: seq<string>, b: seq<string>)
    ensures Framed(a + b) == Framed(a) + Framed(b)
  {
    if a == [] {
      assert a + b == b;
    } else {
      assert (a + b)[1..] == a[1..] + b;
      FramedAppend(a[1..], b);
    }
  }

  lemma {:induction false} NonEmptyAppend(a: seq<string>, b: seq<string>)
    ensures NonEmpty(a + b) == NonEmpty(a) + NonEmpty(b)
  {
    if a == [] {
      assert a + b == b;
    } else {
      assert (a + b)[1..] == a[1..] + b;
      NonEmptyAppend(a[1..], b);
    }
  }

  // Splitting in two pieces, carrying the tail over, splits the whole.
  lemma CutAnywhere(a: string, b: string)
    ensures Lines(a + b) == Lines(a) + Lines(Tail(a) + b)
    ensures Tail(a + b) == Tail(Tail(a) + b)
  {
    hide RawLines, Tail, Framed, NonEmpty;
    var c := Tail(a) + b;
    var front, back := RawLines(a), RawLines(c);
    SplitExists(a);
    SplitExists(c);
    Append(Framed(front), Tail(a), b);
    Append(Framed(front), Framed(back), Tail(c));
    FramedAppend(front, back);
    assert a + b == Framed(front + back) + Tail(c);
    SplitUnique(front + back, Tail(c));
    NonEmptyAppend(front, back);
  }

  // ---------- What the receiver gets ----------

  // The splitter run over chunks: all lines handed out, and the bytes kept.
  function Fed(chunks: seq<string>): (seq<string>, string) {
    if chunks == [] then ([], "")
    else
      var (lines, buf) := Fed(chunks[..|chunks| - 1]);
      var c := buf + chunks[|chunks| - 1];
      (lines + Lines(c), Tail(c))
  }

  // However a stream is cut into reads, the lines are those of the stream.
  lemma {:induction false} ChunkingDoesNotMatter(chunks: seq<string>)
    ensures Fed(chunks) == (Lines(Concat(chunks)), Tail(Concat(chunks)))
  {
    if chunks != [] {
      var n := |chunks| - 1;
      ChunkingDoesNotMatter(chunks[..n]);
      CutAnywhere(Concat(chunks[..n]), chunks[n]);
    }
  }

  lemma {:induction false} NonEmptyOf(lines: seq<string>)
    ensures forall l :: l in NonEmpty(lines) ==> l != "" && l in lines
    ensures (forall l :: l in lines ==> l != "") ==> NonEmpty(lines) == lines
  {
    if lines != [] {
      NonEmptyOf(lines[1..]);
      assert lines == [lines[0]] + lines[1..];
      assert lines[0] in lines && forall l :: l in lines[1..] ==> l in lines;
    }
  }

  // Messages sent with Send come out as sent, however they are cut on the way, if
  // and only if none is empty and none contains a newline.
  lemma SendRoundTrips(msgs: seq<string>, chunks: seq<string>)
    requires Concat(chunks) == Framed(msgs)
    ensures Fed(chunks) == (msgs, "") <==> forall m :: m in msgs ==> m != "" && OneLine(m)
  {
    ChunkingDoesNotMatter(chunks);
    var s := Framed(msgs);
    if forall m :: m in msgs ==> m != "" && OneLine(m) {
      assert s + "" == s;
      SplitUnique(msgs, "");
      NonEmptyOf(msgs);
    }
    if Lines(s) == msgs {
      SplitExists(s);
      NonEmptyOf(RawLines(s));
    }
  }

  // The buffer outlives a connection: the next client's stream b is split as if it
  // followed the last client's stream a. That gives b's own lines if and only if a
  // ended with a newline (or was empty), or b has no complete line.
  lemma ReconnectKeepsLinesIff(a: string, b: string)
    ensures Lines(a + b) == Lines(a) + Lines(b) <==> Tail(a) == "" || OneLine(b)
  {
    hide RawLines, Tail, NonEmpty, Find;
    CutAnywhere(a, b);
    var t := Tail(a);
    if t == "" {
      assert t + b == b;
    } else if OneLine(b) {
      SplitExists(a);
      NoLines(b);
      NoLines(t + b);
    } else {
      var l, rest := FirstLine(b);
      SplitExists(a);
      LinesFirst(l, rest);
      assert t + b == (t + l) + "\n" + rest;
      LinesFirst(t + l, rest);
      if l == "" {
        assert |Lines(t + b)| == |Lines(b)| + 1;
      } else {
        assert Lines(t + b)[0] == t + l && Lines(b)[0] == l && |t + l| > |l|;
      }
      var front, x, y := Lines(a), Lines(t + b), Lines(b);
      assert (front + x)[|front|..] == x && (front + y)[|front|..] == y;
    }
  }

  lemma NoLines(s: string)
    requires OneLine(s)
    ensures Lines(s) == [] && Tail(s) == s
  {
  }

  lemma LinesFirst(l: string, rest: string)
    requires OneLine(l)
    ensures Lines(l + "\n" + rest) == (if l == "" then [] else [l]) + Lines(rest)
    ensures Tail(l + "\n" + rest) == Tail(rest)
  {
    RawFirst(l, rest);
    hide RawLines;
    assert ([l] + RawLines(rest))[1..] == RawLines(rest);
  }

  // ---------- The splitter ----------

  class LineSplitter {
    var lineBuf: string

    // Every byte read and every line handed to on_message so far.
    ghost var stream: string
    ghost var delivered: seq<string>

    ghost predicate Valid()
      reads this
    {
      delivered == Lines(stream) && lineBuf == Tail(stream)
    }

    constructor ()
      ensures Valid() && stream == "" && delivered == []
    {
      lineBuf, stream, delivered := "", "", [];
    }

    // One read of the IO loop; the lines are returned in the order handed out.
    method OnReadable(chunk: string) returns (lines: seq<string>)
      requires Valid()
      modifies this
      ensures Valid() && stream == old(stream) + chunk
      ensures delivered == old(delivered) + lines
    {
      CutAnywhere(stream, chunk);
      lineBuf := lineBuf + chunk;
      lines, lineBuf := Drain(lineBuf);
      stream := stream + chunk;
      delivered := delivered + lines;
    }
  }

  // The inner loop: hand out every complete line of buf and keep the rest.
  method Drain(buf: string) returns (lines: seq<string>, rest: string)
    ensures lines == Lines(buf) && rest == Tail(buf)
  {
    hide RawLines, Tail, NonEmpty, Find, Lines;
    lines, rest := [], buf;
    var pos := Find(rest);
    while pos < |rest|
      invariant pos == Find(rest)
      invariant lines + Lines(rest) == Lines(buf) && Tail(rest) == Tail(buf)
      decreases |rest|
    {
      ghost var was, given := rest, lines;
      var line := rest[..pos];
      rest := rest[pos + 1..];
      assert was == line + "\n" + rest;
      LinesFirst(line, rest);
      if line != "" {
        lines := lines + [line];
      }
      Append(given, if line == "" then [] else [line], Lines(rest));
      pos := Find(rest);
    }
    NoLines(rest);
  }
}
