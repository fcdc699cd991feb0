/** The rotating file logger: a base file and its numbered history files. */
module LogRotation {

  datatype FileName = Base | Hist(i: int)

  // A file is the records written to it, in order.
  type File = seq<string>

  function Size(f: File): nat {
    if f == [] then 0 else Size(f[..|f| - 1]) + |f[|f| - 1]|
  }

  lemma SizeAppend(f: File, line: string)
    ensures Size(f + [line]) == Size(f) + |line|
  {
  }

  // Its bytes.
  function Text(f: File): string {
    if f == [] then "" else Text(f[..|f| - 1]) + f[|f| - 1]
  }

  lemma {:induction false} TextAppend(a: File, b: File)
    ensures Text(a + b) == Text(a) + Text(b)
  {
    if b == [] {
      assert a + b == a;
    } else {
      assert (a + b)[..|a + b| - 1] == a + b[..|b| - 1];
      TextAppend(a, b[..|b| - 1]);
    }
  }

  lemma {:induction false} SizeIsLength(f: File)
    ensures Size(f) == |Text(f)|
  {
    if f != [] {
      SizeIsLength(f[..|f| - 1]);
    }
  }

  // ---------- The chain of files ----------

  // hist[0] is path.1, the youngest history file.
  datatype Logs = Logs(base: File, hist: seq<File>)

  // written counts what this process put into the base file.
  datatype State = State(logs: Logs, written: nat)

  // A limit below 1 keeps one history file all the same.
  function Cap(maxFiles: int): nat { if maxFiles < 1 then 1 else maxFiles }

  function Kept<T>(files: seq<T>, n: nat): seq<T> { if |files| <= n then files else files[..n] }

  predicate Overflows(written: nat, line: string, maxSize: nat) { written > 0 && written + |line| > maxSize }

  function Logged(s: State, line: string, maxSize: nat, maxFiles: int): State {
    if Overflows(s.written, line, maxSize)
    then State(Logs([line], Kept([s.logs.base] + s.logs.hist, Cap(maxFiles))), |line|)
    else State(Logs(s.logs.base + [line], s.logs.hist), s.written + |line|)
  }

  // The files found at start, then these records.
  function Run(found: Logs, lines: seq<string>, maxSize: nat, maxFiles: int): State {
    if lines == [] then State(found, 0)
    else Logged(Run(found, lines[..|lines| - 1], maxSize, maxFiles), lines[|lines| - 1], maxSize, maxFiles)
  }

  lemma RunStep(found: Logs, lines: seq<string>, line: string, maxSize: nat, maxFiles: int)
    ensures Run(found, lines + [line], maxSize, maxFiles)
            == Logged(Run(found, lines, maxSize, maxFiles), line, maxSize, maxFiles)
  {
  }

  // All records in the files, oldest first.
  function OldestFirst(hist: seq<File>): File {
    if hist == [] then [] else OldestFirst(hist[1..]) + hist[0]
  }

  function Chain(logs: Logs): File { OldestFirst(logs.hist) + logs.base }

  ghost predicate IsSuffix<T(!new)>(s: seq<T>, all: seq<T>) { |s| <= |all| && s == all[|all| - |s|..] }

  lemma SuffixAppend<T(!new)>(s: seq<T>, all: seq<T>, x: T)
    requires IsSuffix(s, all)
    ensures IsSuffix(s + [x], all + [x])
  {
  }

  lemma SuffixTrans<T(!new)>(a: seq<T>, b: seq<T>, c: seq<T>)
    requires IsSuffix(a, b) && IsSuffix(b, c)
    ensures IsSuffix(a, c)
  {
  }

  lemma {:induction false} KeptIsSuffix(hist: seq<File>, n: nat)
    ensures IsSuffix(OldestFirst(Kept(hist, n)), OldestFirst(hist))
  {
    if |hist| > n > 0 {
      KeptIsSuffix(hist[1..], n - 1);
      var a, b := OldestFirst(hist[1..][..n - 1]), OldestFirst(hist[1..]);
      assert hist[..n][1..] == hist[1..][..n - 1];
      SuffixGrow(a, b, hist[0]);
    }
  }

  lemma SuffixGrow<T(!new)>(a: seq<T>, b: seq<T>, more: seq<T>)
    requires IsSuffix(a, b)
    ensures IsSuffix(a + more, b + more)
  {
  }

  lemma RotationKeepsSuffix(logs: Logs, n: nat)
    ensures IsSuffix(OldestFirst(Kept([logs.base] + logs.hist, n)), Chain(logs))
  {
    KeptIsSuffix([logs.base] + logs.hist, n);
    assert ([logs.base] + logs.hist)[1..] == logs.hist;
  }

  // After any records, the files hold, oldest first, an unbroken stretch of what was
  // there and what was logged, ending with the last record.
  lemma {:induction false} ChainIsSuffix(found: Logs, lines: seq<string>, maxSize: nat, maxFiles: int)
    ensures IsSuffix(Chain(Run(found, lines, maxSize, maxFiles).logs), Chain(found) + lines)
  {
    if lines == [] {
      assert Chain(found) + lines == Chain(found);
    } else {
      var front, x := lines[..|lines| - 1], lines[|lines| - 1];
      ChainIsSuffix(found, front, maxSize, maxFiles);
      var s := Run(found, front, maxSize, maxFiles);
      assert Chain(found) + lines == (Chain(found) + front) + [x];
      hide IsSuffix;
      RotationKeepsSuffix(s.logs, Cap(maxFiles));
      var kept := OldestFirst(Kept([s.logs.base] + s.logs.hist, Cap(maxFiles)));
      SuffixTrans(kept, Chain(s.logs), Chain(found) + front);
      SuffixAppend(kept, Chain(found) + front, x);
      SuffixAppend(Chain(s.logs), Chain(found) + front, x);
      hide Chain, Kept;
      assert Chain(s.logs) + [x] == OldestFirst(s.logs.hist) + (s.logs.base + [x]) by { ChainOf(s.logs); }
      ChainOf(Logged(s, x, maxSize, maxFiles).logs);
    }
  }

  // The same in bytes: the files' bytes end everything written, from the start of a
  // record on.
  lemma BytesAreSuffix(found: Logs, lines: seq<string>, maxSize: nat, maxFiles: int) returns (k: nat)
    ensures k <= |Chain(found) + lines|
    ensures Text(Chain(found)) + Text(lines)
            == Text((Chain(found) + lines)[..k]) + Text(Chain(Run(found, lines, maxSize, maxFiles).logs))
  {
    hide Run, Chain, Text;
    ChainIsSuffix(found, lines, maxSize, maxFiles);
    var all, kept := Chain(found) + lines, Chain(Run(found, lines, maxSize, maxFiles).logs);
    k := |all| - |kept|;
    TextAppend(Chain(found), lines);
    TextAppend(all[..k], kept);
    assert all == all[..k] + kept;
  }

  lemma ChainOf(logs: Logs)
    ensures Chain(logs) == OldestFirst(logs.hist) + logs.base
  {
  }

  // ---------- Bounds ----------

  // Within the limit, unless it is one record that is longer by itself.
  predicate Small(f: File, maxSize: nat) { Size(f) <= maxSize || |f| == 1 }

  predicate Bounded(logs: Logs, maxSize: nat, maxFiles: int) {
    && |logs.hist| <= Cap(maxFiles)
    && Small(logs.base, maxSize)
    && forall i :: 0 <= i < |logs.hist| ==> Small(logs.hist[i], maxSize)
  }

  // The first record of the next file would not have fitted.
  predicate Full(f: File, next: File, maxSize: nat) { next != [] && Size(f) + |next[0]| > maxSize }

  // No history file was closed before it was full.
  predicate Tight(logs: Logs, maxSize: nat) {
    && (logs.hist != [] ==> Full(logs.hist[0], logs.base, maxSize))
    && forall i {:trigger logs.hist[i]} :: 0 < i < |logs.hist| ==> Full(logs.hist[i], logs.hist[i - 1], maxSize)
  }

  const EMPTY := Logs([], [])

  ghost predicate NonEmptyRecords(f: File) { forall i :: 0 <= i < |f| ==> f[i] != "" }

  lemma LoggedBounded(s: State, line: string, maxSize: nat, maxFiles: int)
    requires Bounded(s.logs, maxSize, maxFiles) && Tight(s.logs, maxSize)
    requires s.written == Size(s.logs.base) && line != "" && (s.logs.base != [] ==> s.written > 0)
    ensures var t := Logged(s, line, maxSize, maxFiles);
            && Bounded(t.logs, maxSize, maxFiles) && Tight(t.logs, maxSize)
            && t.written == Size(t.logs.base) > 0
  {
    hide Size;
    SizeAppend(s.logs.base, line);
    SizeAppend([], line);
    assert [] + [line] == [line];
    SizeOfNothing();
  }

  lemma SizeOfNothing()
    ensures Size([]) == 0
  {
  }

  // Starting without files: at most max(1, maxFiles) history files, each file within
  // the limit unless it is a single longer record, and none rotated before it was full.
  lemma {:induction false} FilesBounded(lines: seq<string>, maxSize: nat, maxFiles: int)
    requires NonEmptyRecords(lines)
    ensures var s := Run(EMPTY, lines, maxSize, maxFiles);
            && Bounded(s.logs, maxSize, maxFiles) && Tight(s.logs, maxSize)
            && s.written == Size(s.logs.base) && (s.logs.base != [] ==> s.written > 0)
  {
    if lines != [] {
      var front := lines[..|lines| - 1];
      FilesBounded(front, maxSize, maxFiles);
      hide Bounded, Tight, Logged, Size;
      LoggedBounded(Run(EMPTY, front, maxSize, maxFiles), lines[|lines| - 1], maxSize, maxFiles);
    }
  }

  // Nothing is lost while the history has room.
  lemma {:induction false} NothingLostWithRoom(lines: seq<string>, maxSize: nat, maxFiles: int)
    requires |Run(EMPTY, lines, maxSize, maxFiles).logs.hist| < Cap(maxFiles)
    ensures Chain(Run(EMPTY, lines, maxSize, maxFiles).logs) == lines
  {
    hide Logged, Chain, OldestFirst;
    if lines == [] {
      NothingFound();
    } else {
      var front, x := lines[..|lines| - 1], lines[|lines| - 1];
      var s := Run(EMPTY, front, maxSize, maxFiles);
      RoomStep(s, x, maxSize, maxFiles);
      NothingLostWithRoom(front, maxSize, maxFiles);
      assert lines == front + [x];
    }
  }

  lemma NothingFound()
    ensures Chain(EMPTY) == []
  {
  }

  lemma RoomStep(s: State, x: string, maxSize: nat, maxFiles: int)
    requires |Logged(s, x, maxSize, maxFiles).logs.hist| < Cap(maxFiles)
    ensures |s.logs.hist| < Cap(maxFiles) && Chain(Logged(s, x, maxSize, maxFiles).logs) == Chain(s.logs) + [x]
  {
    assert ([s.logs.base] + s.logs.hist)[1..] == s.logs.hist;
    assert Chain(s.logs) + [x] == OldestFirst(s.logs.hist) + (s.logs.base + [x]);
  }

  function Repeat(n: nat): (s: string)
    ensures |s| == n
  {
    seq(n, i => 'x')
  }

  // At most the configured number of history files are kept over every run if and
  // only if that number is at least 1: below, one is kept all the same.
  lemma LimitKeptIff(maxSize: nat, maxFiles: int)
    ensures (forall lines: seq<string> :: NonEmptyRecords(lines) ==>
               |Run(EMPTY, lines, maxSize, maxFiles).logs.hist| <= maxFiles)
            <==> maxFiles >= 1
  {
    if maxFiles >= 1 {
      forall lines: seq<string> | NonEmptyRecords(lines)
        ensures |Run(EMPTY, lines, maxSize, maxFiles).logs.hist| <= maxFiles
      {
        FilesBounded(lines, maxSize, maxFiles);
      }
    } else {
      TwoLongRecords(maxSize, maxFiles);
    }
  }

  lemma TwoLongRecords(maxSize: nat, maxFiles: int)
    ensures exists lines: seq<string> :: NonEmptyRecords(lines) &&
              |Run(EMPTY, lines, maxSize, maxFiles).logs.hist| == 1
  {
    var x := Repeat(maxSize + 1);
    hide Run, Logged;
    RunStart(EMPTY, x, maxSize, maxFiles);
    RunStep(EMPTY, [x], x, maxSize, maxFiles);
    LongRecordRotates(x, maxSize, maxFiles);
    assert NonEmptyRecords([x] + [x]);
  }

  lemma RunStart(found: Logs, x: string, maxSize: nat, maxFiles: int)
    ensures Run(found, [x], maxSize, maxFiles) == Logged(State(found, 0), x, maxSize, maxFiles)
  {
    hide Logged;
    assert [x][..0] == [];
  }

  lemma LongRecordRotates(x: string, maxSize: nat, maxFiles: int)
    requires |x| > maxSize
    ensures |Logged(Logged(State(EMPTY, 0), x, maxSize, maxFiles), x, maxSize, maxFiles).logs.hist| == 1
  {
  }

  // The base file found at start is appended to but not counted. The limits hold over
  // every run if and only if there was nothing in it and the history files found there
  // are within the limits themselves.
  lemma FoundFileBreaksBound(found: Logs, maxSize: nat, maxFiles: int)
    requires NonEmptyRecords(found.base)
    ensures (forall lines: seq<string> :: NonEmptyRecords(lines) ==>
               Bounded(Run(found, lines, maxSize, maxFiles).logs, maxSize, maxFiles))
            <==> found.base == [] && HistoryBounded(found, maxSize, maxFiles)
  {
    hide Bounded, HistoryBounded;
    if found.base != [] {
      OneLongRecord(found, maxSize, maxFiles);
    } else if HistoryBounded(found, maxSize, maxFiles) {
      forall lines: seq<string> | NonEmptyRecords(lines)
        ensures Bounded(Run(found, lines, maxSize, maxFiles).logs, maxSize, maxFiles)
      {
        FoundBounded(found, lines, maxSize, maxFiles);
      }
    } else {
      NothingLogged(found, maxSize, maxFiles);
    }
  }

  predicate HistoryBounded(found: Logs, maxSize: nat, maxFiles: int) {
    |found.hist| <= Cap(maxFiles) && forall i :: 0 <= i < |found.hist| ==> Small(found.hist[i], maxSize)
  }

  // The state after any records, as far as the limits go.
  ghost predicate Counted(s: State, maxSize: nat, maxFiles: int) {
    && Bounded(s.logs, maxSize, maxFiles)
    && s.written == Size(s.logs.base) && (s.logs.base != [] ==> s.written > 0)
  }

  lemma LoggedCounted(s: State, line: string, maxSize: nat, maxFiles: int)
    requires Counted(s, maxSize, maxFiles) && line != ""
    ensures Counted(Logged(s, line, maxSize, maxFiles), maxSize, maxFiles)
  {
    hide Size;
    SizeAppend(s.logs.base, line);
    SizeAppend([], line);
    assert [] + [line] == [line];
    SizeOfNothing();
  }

  lemma {:induction false} FoundBounded(found: Logs, lines: seq<string>, maxSize: nat, maxFiles: int)
    requires found.base == [] && HistoryBounded(found, maxSize, maxFiles) && NonEmptyRecords(lines)
    ensures Counted(Run(found, lines, maxSize, maxFiles), maxSize, maxFiles)
    ensures Bounded(Run(found, lines, maxSize, maxFiles).logs, maxSize, maxFiles)
  {
    if lines == [] {
      SizeOfNothing();
    } else {
      var front := lines[..|lines| - 1];
      FoundBounded(found, front, maxSize, maxFiles);
      hide Bounded, Logged, Size, HistoryBounded;
      LoggedCounted(Run(found, front, maxSize, maxFiles), lines[|lines| - 1], maxSize, maxFiles);
    }
  }

  lemma NothingLogged(found: Logs, maxSize: nat, maxFiles: int)
    requires !HistoryBounded(found, maxSize, maxFiles)
    ensures exists lines: seq<string> :: NonEmptyRecords(lines) &&
              !Bounded(Run(found, lines, maxSize, maxFiles).logs, maxSize, maxFiles)
  {
    assert Run(found, [], maxSize, maxFiles) == State(found, 0);
    assert NonEmptyRecords([]);
  }

  lemma OneLongRecord(found: Logs, maxSize: nat, maxFiles: int)
    requires found.base != [] && NonEmptyRecords(found.base)
    ensures exists lines: seq<string> :: NonEmptyRecords(lines) &&
              !Bounded(Run(found, lines, maxSize, maxFiles).logs, maxSize, maxFiles)
  {
    hide Run, Size;
    var x := Repeat(maxSize + 1);
    RunStart(found, x, maxSize, maxFiles);
    SizeAppend(found.base, x);
    assert NonEmptyRecords([x]);
  }

  // ---------- The object ----------

  type Files = map<FileName, File>

  // rename() replaces its target and fails without a source.
  function Renamed(files: Files, src: FileName, dst: FileName): Files
    requires src != dst
  {
    if src in files then (files - {src})[dst := files[src]] else files
  }

  predicate SameAt(a: Files, n: FileName, b: Files, m: FileName) {
    (n in a <==> m in b) && (n in a && m in b ==> a[n] == b[m])
  }

  // Files above index i have moved up by one, index i + 1 is free.
  ghost predicate ShiftedDownTo(before: Files, after: Files, i: int, maxFiles: int) {
    && Hist(i + 1) !in after
    && SameAt(after, Base, before, Base)
    && forall k {:trigger Hist(k)} ::
         if i + 1 < k <= maxFiles then SameAt(after, Hist(k), before, Hist(k - 1))
         else k != i + 1 ==> SameAt(after, Hist(k), before, Hist(k))
  }

  // The base is empty, every kept file has moved up by one, the last one is gone.
  ghost predicate IsRotated(before: Files, after: Files, maxFiles: int) {
    && Base in after && after[Base] == []
    && SameAt(after, Hist(1), before, Base)
    && (maxFiles < 1 ==> Hist(maxFiles) !in after)
    && forall k {:trigger Hist(k)} ::
         if 1 < k <= maxFiles then SameAt(after, Hist(k), before, Hist(k - 1))
         else k != 1 && k != maxFiles ==> SameAt(after, Hist(k), before, Hist(k))
  }

  // The files on disk are this chain and nothing else.
  ghost predicate Holds(files: Files, logs: Logs) {
    && Base in files && files[Base] == logs.base
    && (forall k :: Hist(k) in files <==> 1 <= k <= |logs.hist|)
    && forall k :: 1 <= k <= |logs.hist| ==> files[Hist(k)] == logs.hist[k - 1]
  }

  lemma RotatedHolds(before: Files, after: Files, logs: Logs, maxFiles: int)
    requires Holds(before, logs) && IsRotated(before, after, maxFiles) && |logs.hist| <= Cap(maxFiles)
    ensures Holds(after, Logs([], Kept([logs.base] + logs.hist, Cap(maxFiles))))
  {
  }

  class FileLogger {
    const enabled: bool
    const maxSize: nat
    const maxFiles: int
    var files: Files
    var bytesWritten: nat
    ghost const found: Logs
    ghost var lines: seq<string>

    ghost predicate Valid()
      reads this
    {
      var s := Run(found, lines, maxSize, maxFiles);
      && |s.logs.hist| <= Cap(maxFiles)
      && (enabled ==> Holds(files, s.logs) && bytesWritten == s.written)
    }

    // Append mode creates the base file when there is none.
    constructor (enabled: bool, maxSize: nat, maxFiles: int, files: Files, ghost found: Logs)
      requires |found.hist| <= Cap(maxFiles)
      requires Holds(if Base in files then files else files[Base := []], found)
      ensures Valid() && this.found == found && lines == [] && this.maxSize == maxSize
              && this.maxFiles == maxFiles && this.enabled == enabled
    {
      this.enabled, this.maxSize, this.maxFiles := enabled, maxSize, maxFiles;
      this.files := if Base in files then files else files[Base := []];
      this.found, this.lines, this.bytesWritten := found, [], 0;
    }

    method Rotate()
      requires Base in files
      modifies this`files, this`bytesWritten
      ensures IsRotated(old(files), files, maxFiles) && bytesWritten == 0
    {
      var moved := Shift(files, maxFiles);
      files := Renamed(moved, Base, Hist(1))[Base := []];
      bytesWritten := 0;
    }

    // The removal and the descending loop of renames.
    static method Shift(before: Files, maxFiles: int) returns (files: Files)
      ensures ShiftedDownTo(before, files, if maxFiles < 1 then maxFiles - 1 else 0, maxFiles)
    {
      files := before - {Hist(maxFiles)};
      var i := maxFiles - 1;
      while i >= 1
        invariant maxFiles < 1 ==> i == maxFiles - 1
        invariant maxFiles >= 1 ==> i >= 0
        invariant ShiftedDownTo(before, files, i, maxFiles)
      {
        files := Renamed(files, Hist(i), Hist(i + 1));
        i := i - 1;
      }
    }

    method Log(line: string)
      requires Valid()
      modifies this
      ensures Valid() && lines == if enabled then old(lines) + [line] else old(lines)
    {
      if !enabled {
        return;
      }
      hide IsRotated, SameAt;
      ghost var s := Run(found, lines, maxSize, maxFiles);
      RunStep(found, lines, line, maxSize, maxFiles);
      hide Run;
      if bytesWritten > 0 && bytesWritten + |line| > maxSize {
        ghost var before := files;
        Rotate();
        RotatedHolds(before, files, s.logs, maxFiles);
      }
      files := files[Base := files[Base] + [line]];
      bytesWritten := bytesWritten + |line|;
      lines := lines + [line];
    }
  }
}
