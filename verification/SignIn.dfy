/** What the client makes of a completed response while signing in: its own id from
    the Pragma field and the peers listed in the body. */
module SignIn {
  import opened Basics
  import opened TextScan
  import opened HttpFraming
  import opened HttpResponses
  import Queue = OutgoingQueue

  datatype Entry = Entry(name: string, id: int, connected: bool)

  // ---------- One line of the peer list ----------

  // None when the name would be empty.
  function ParseEntry(e: string): Option<Entry> {
    var c := IndexOf(e, ",");
    if c <= 0 then None
    else
      var rest := e[c + 1..];
      var d := IndexOf(rest, ",");
      Some(Entry(e[..c], Atoi(rest), d >= 0 && Atoi(rest[d + 1..]) != 0))
  }

  // The line the server writes, without its newline: name,id,connected,busy.
  function EntryLine(e: Entry, busy: bool): string
    requires e.id >= 0
  {
    e.name + "," + IdPart(e, busy)
  }

  function IdPart(e: Entry, busy: bool): string
    requires e.id >= 0
  {
    Decimal(e.id) + "," + Flag(e.connected) + "," + Flag(busy)
  }

  function Flag(b: bool): string { if b then "1" else "0" }

  // The first separator of x + sep + y, when x has none.
  lemma FirstSeparator(x: string, sep: char, y: string)
    requires sep !in x
    ensures IndexOf(x + [sep] + y, [sep]) == |x|
    ensures (x + [sep] + y)[..|x|] == x && (x + [sep] + y)[|x| + 1..] == y
  {
    var s := x + [sep] + y;
    assert s[|x|..|x| + 1] == [sep];
    forall k | 0 <= k < |x| ensures !OccursAt(s, [sep], k) {
      assert s[k] == x[k] && x[k] in x;
      assert s[k..k + 1] == [s[k]];
    }
    IndexIs(s, [sep], |x|);
  }

  lemma DigitsOnly(n: nat, c: char)
    requires !IsDigit(c)
    ensures c !in Decimal(n)
  {
  }

  // A line is read back as written if and only if the name is neither empty nor
  // contains a comma.
  lemma EntryRoundTripsIff(e: Entry, busy: bool)
    requires e.id >= 0
    ensures ParseEntry(EntryLine(e, busy)) == Some(e) <==> e.name != "" && ',' !in e.name
  {
    var line := EntryLine(e, busy);
    if e.name != "" && ',' !in e.name {
      FirstSeparator(e.name, ',', IdPart(e, busy));
      IdPartReads(e, busy);
    } else if e.name != "" {
      CommaCutsName(e.name, IdPart(e, busy));
    }
  }

  lemma IdPartReads(e: Entry, busy: bool)
    requires e.id >= 0
    ensures var rest := IdPart(e, busy);
            && Atoi(rest) == e.id
            && IndexOf(rest, ",") == |Decimal(e.id)|
            && Atoi(rest[|Decimal(e.id)| + 1..]) == if e.connected then 1 else 0
  {
    hide IndexOf, Atoi;
    var y := Flag(e.connected) + "," + Flag(busy);
    assert IdPart(e, busy) == Decimal(e.id) + "," + y;
    assert Decimal(e.id) + "," + y == Decimal(e.id) + ("," + y);
    DigitsOnly(e.id, ',');
    FirstSeparator(Decimal(e.id), ',', y);
    AtoiOfDecimal(e.id, "," + y);
    FlagReads(e.connected, "," + Flag(busy));
    assert y == Flag(e.connected) + ("," + Flag(busy));
  }

  lemma FlagReads(b: bool, y: string)
    requires Stops(y)
    ensures Atoi(Flag(b) + y) == if b then 1 else 0
  {
    assert Decimal(0) == "0" && Decimal(1) == "1";
    AtoiOfDecimal(if b then 1 else 0, y);
  }

  // With any number for a flag, and whatever follows it, the entry is connected if and
  // only if the number is not 0; without a flag it is not.
  lemma EntryRead(name: string, id: nat, flag: nat, rest: string)
    requires name != "" && ',' !in name && Stops(rest)
    ensures ParseEntry(name + "," + (Decimal(id) + "," + (Decimal(flag) + rest))) == Some(Entry(name, id, flag != 0))
    ensures ParseEntry(name + "," + Decimal(id)) == Some(Entry(name, id, false))
  {
    hide IndexOf, Atoi, Decimal;
    var y := Decimal(flag) + rest;
    FirstSeparator(name, ',', Decimal(id) + "," + y);
    FirstSeparator(name, ',', Decimal(id));
    DigitsOnly(id, ',');
    FirstSeparator(Decimal(id), ',', y);
    assert Decimal(id) + "," + y == Decimal(id) + ("," + y);
    AtoiOfDecimal(id, "," + y);
    AtoiOfDecimal(flag, rest);
    AtoiOfDecimal(id, "");
    assert Decimal(id) + "" == Decimal(id);
    NoSeparator(Decimal(id), ',');
  }

  // An entry is taken for a peer if and only if it has a comma, and not in front.
  lemma EntryTakenIff(e: string)
    ensures ParseEntry(e).Some? <==> ',' in e && e[0] != ','
    ensures ParseEntry(e).Some? ==> ParseEntry(e).value.name != "" && ',' !in ParseEntry(e).value.name
                                    && ParseEntry(e).value.name + "," <= e
  {
    hide Atoi, IndexOf;
    if k :| 0 <= k < |e| && e[k] == ',' {
      OccurrenceBounds(e, ',', k);
      FirstOf(e, ',');
    } else {
      NoSeparator(e, ',');
    }
  }

  lemma FirstOf(e: string, sep: char)
    requires IndexOf(e, [sep]) >= 0
    ensures var c := IndexOf(e, [sep]);
            c < |e| && e[c] == sep && e[..c] + [sep] <= e && sep !in e[..c] && (c > 0 ==> e[0] != sep)
  {
    hide IndexOf, OccursAt;
    var c := IndexOf(e, [sep]);
    OccursIff(e, sep, c);
    forall i | 0 <= i < c ensures i < |e| ==> e[i] != sep {
      OccursIff(e, sep, i);
    }
    assert e[..c] + [sep] == e[..c + 1];
  }

  lemma NoSeparator(s: string, sep: char)
    requires sep !in s
    ensures IndexOf(s, [sep]) < 0
  {
    hide IndexOf;
    forall k | 0 <= k < |s| ensures !OccursAt(s, [sep], k) {
      assert s[k..k + 1] == [s[k]] && s[k] in s;
    }
  }

  lemma CommaCutsName(name: string, rest: string)
    requires ',' in name
    ensures ParseEntry(name + "," + rest).Some? ==> ParseEntry(name + "," + rest).value.name != name
  {
    var k :| 0 <= k < |name| && name[k] == ',';
    OccurrenceBounds(name + "," + rest, ',', k);
    hide IndexOf, Atoi;
  }

  lemma OccursOne(s: string, c: char, k: nat)
    requires k < |s| && s[k] == c
    ensures OccursAt(s, [c], k)
  {
  }

  lemma OccursIff(s: string, c: char, k: nat)
    ensures OccursAt(s, [c], k) <==> k < |s| && s[k] == c
  {
    if k < |s| {
      assert s[k..k + 1] == [s[k]];
    }
  }

  lemma OccurrenceBounds(s: string, c: char, k: nat)
    requires k < |s| && s[k] == c
    ensures 0 <= IndexOf(s, [c]) <= k
  {
    hide IndexOf, OccursAt;
    assert OccursAt(s, [c], k) by { OccursOne(s, c, k); }
  }

  // ---------- The whole list ----------

  function Listed(peers: map<int, string>, line: string, myId: int): map<int, string> {
    var p := ParseEntry(line);
    if p.Some? && p.value.id != myId then peers[p.value.id := p.value.name] else peers
  }

  function Peers(body: string, myId: int, peers: map<int, string>): map<int, string>
    decreases |body|
  {
    var eol := IndexOf(body, "\n");
    if eol < 0 then peers
    else Peers(body[eol + 1..], myId, Listed(peers, body[..eol], myId))
  }

  function ListText(es: seq<(Entry, bool)>): string
    requires forall i :: 0 <= i < |es| ==> es[i].0.id >= 0
  {
    if es == [] then "" else EntryLine(es[0].0, es[0].1) + "\n" + ListText(es[1..])
  }

  // The later of two entries with one id wins; the client's own id is left out.
  function Directory(es: seq<(Entry, bool)>, myId: int, peers: map<int, string>): map<int, string> {
    if es == [] then peers
    else Directory(es[1..], myId, if es[0].0.id != myId then peers[es[0].0.id := es[0].0.name] else peers)
  }

  // The peer list the server prints is the directory the client ends up with.
  lemma {:induction false} PeerListRoundTrips(es: seq<(Entry, bool)>, myId: int, peers: map<int, string>)
    requires forall i :: 0 <= i < |es| ==>
               es[i].0.id >= 0 && es[i].0.name != "" && ',' !in es[i].0.name && '\n' !in es[i].0.name
    ensures Peers(ListText(es), myId, peers) == Directory(es, myId, peers)
  {
    if es != [] {
      var (e, busy) := es[0];
      LineIsListed(e, busy, myId, peers);
      LineHasNoNewline(e, busy);
      hide Listed, EntryLine;
      PeersFirst(EntryLine(e, busy), ListText(es[1..]), myId, peers);
      PeerListRoundTrips(es[1..], myId, Listed(peers, EntryLine(e, busy), myId));
    }
  }

  lemma PeersFirst(line: string, rest: string, myId: int, peers: map<int, string>)
    requires '\n' !in line
    ensures Peers(line + "\n" + rest, myId, peers) == Peers(rest, myId, Listed(peers, line, myId))
  {
    FirstSeparator(line, '\n', rest);
    hide IndexOf, Listed;
  }

  lemma LineIsListed(e: Entry, busy: bool, myId: int, peers: map<int, string>)
    requires e.id >= 0 && e.name != "" && ',' !in e.name
    ensures Listed(peers, EntryLine(e, busy), myId) == if e.id != myId then peers[e.id := e.name] else peers
  {
    hide ParseEntry, EntryLine, IndexOf, Atoi, Decimal;
    EntryRoundTripsIff(e, busy);
  }

  lemma LineHasNoNewline(e: Entry, busy: bool)
    requires e.id >= 0 && '\n' !in e.name
    ensures '\n' !in EntryLine(e, busy)
  {
  }

  // ---------- What a completed response does ----------

  function Status(response: string): int {
    var pos := IndexOf(response, " ");
    if pos >= 0 then Atoi(response[pos + 1..]) else -1
  }

  function ConnectionField(): (s: string)
    ensures |s| == 14
  {
    "\r\nConnection: "
  }

  // GetHeaderValue for text: up to the end of the line.
  function HeaderText(data: string, eoh: int, field: string): Option<string> {
    var found := IndexOf(data, field);
    if found >= 0 && found < eoh then
      var rest := data[found + |field|..];
      var end := IndexOf(rest, Crlf());
      Some(if end >= 0 then rest[..end]
           else if found + |field| <= eoh <= |data| then data[found + |field|..eoh] else rest)
    else None
  }

  // The server asks for the connection to be closed.
  predicate Closes(response: string)
    requires HasLength(response)
  {
    HeaderText(response, IndexOf(response, EndOfHeaders()), ConnectionField()) == Some("close")
  }

  // The id a response gives; none reads as -1.
  function IdIn(response: string): int
    requires HasLength(response)
  {
    var id := HeaderNumber(response, IndexOf(response, EndOfHeaders()), IdField());
    if id.Some? then id.value else -1
  }

  predicate HasBody(response: string)
    requires HasLength(response)
  {
    HeaderNumber(response, IndexOf(response, EndOfHeaders()), LengthField()).value % SIZE_T != 0
  }

  function BodyOf(response: string): string
    requires HasLength(response)
  {
    hide IndexOf, HasLength;
    EndInside(response);
    response[IndexOf(response, EndOfHeaders()) + 4..]
  }

  function Added(response: string, myId: int, peers: map<int, string>): map<int, string>
    requires HasLength(response)
  {
    if HasBody(response) then Peers(BodyOf(response), myId, peers) else peers
  }

  // The peers after a good response: the first one adds to them, one that answers a
  // sign-out replaces them.
  function PeersAfter(c: Queue.Client, response: string): map<int, string>
    requires HasLength(response)
  {
    if c.myId == -1 then Added(response, IdIn(response), c.peers)
    else if c.phase == Queue.SigningOut then Added(response, c.myId, map[])
    else c.peers
  }

  // A completed response: the close it asks for, on which the engine may send its next
  // message, then its status, then its content. send and signOut say whether the
  // connects attempted on the way succeed.
  function Absorb(s: Queue.Engine, response: string, send: bool, signOut: bool): Queue.Engine
    requires HasLength(response)
  {
    var t := if Closes(response) then Queue.Step(s, Queue.ControlClosed(send)) else s;
    if Status(response) != 200 then Queue.Step(t, Queue.Disconnected)
    else
      Queue.Step(t.(client := t.client.(peers := PeersAfter(t.client, response))),
                 Queue.Responded(IdIn(response), signOut))
  }

  // ---------- Read events ----------

  datatype Read = Read(chunk: string, send: bool, signOut: bool)

  // control_data_ and the client with its engine.
  datatype View = View(buffer: string, engine: Queue.Engine)

  function OnReadStep(v: View, e: Read): View {
    var data := v.buffer + e.chunk;
    if Complete(data) then View("", Absorb(v.engine, data, e.send, e.signOut)) else View(data, v.engine)
  }

  function Reads(v: View, es: seq<Read>): View {
    if es == [] then v else OnReadStep(Reads(v, es[..|es| - 1]), es[|es| - 1])
  }

  function Chunks(es: seq<Read>): seq<string> {
    if es == [] then [] else Chunks(es[..|es| - 1]) + [es[|es| - 1].chunk]
  }

  // The client has absorbed the response on one of these events.
  ghost predicate Absorbed(s: Queue.Engine, t: Queue.Engine, r: string, es: seq<Read>)
    requires HasLength(r)
  {
    exists e :: e in es && t == Absorb(s, r, e.send, e.signOut)
  }

  lemma AbsorbedLater(s: Queue.Engine, t: Queue.Engine, r: string, es: seq<Read>)
    requires HasLength(r) && es != [] && Absorbed(s, t, r, es[..|es| - 1])
    ensures Absorbed(s, t, r, es)
  {
    hide HasLength, Absorb;
    var e :| e in es[..|es| - 1] && t == Absorb(s, r, e.send, e.signOut);
    assert e in es;
  }

  // Nothing but completed responses changes the client.
  lemma {:induction false} ReadsFollow(s: Queue.Engine, kept: string, r: string, es: seq<Read>)
    requires HasLength(r)
    requires DeliverFrom(kept, Chunks(es)).0 == [] || DeliverFrom(kept, Chunks(es)).0 == [r]
    ensures var v := Reads(View(kept, s), es);
            && v.buffer == DeliverFrom(kept, Chunks(es)).1
            && if DeliverFrom(kept, Chunks(es)).0 == [] then v.engine == s else Absorbed(s, v.engine, r, es)
  {
    if es != [] {
      var pre, e := es[..|es| - 1], es[|es| - 1];
      DeliverStep(kept, Chunks(pre), e.chunk);
      hide HasLength, Absorb, Complete, DeliverFrom, Absorbed;
      ReadsFollow(s, kept, r, pre);
      if Complete(DeliverFrom(kept, Chunks(pre)).1 + e.chunk) {
        AbsorbedNow(s, r, es);
      } else if DeliverFrom(kept, Chunks(pre)).0 != [] {
        AbsorbedLater(s, Reads(View(kept, s), pre).engine, r, es);
      }
    }
  }

  lemma AbsorbedNow(s: Queue.Engine, r: string, es: seq<Read>)
    requires HasLength(r) && es != []
    ensures Absorbed(s, Absorb(s, r, es[|es| - 1].send, es[|es| - 1].signOut), r, es)
  {
    hide HasLength, Absorb;
    assert es[|es| - 1] in es;
  }

  lemma DeliverStep(kept: string, chunks: seq<string>, chunk: string)
    ensures var (done, buf) := DeliverFrom(kept, chunks);
            DeliverFrom(kept, chunks + [chunk])
            == if Complete(buf + chunk) then (done + [buf + chunk], "") else (done, buf + chunk)
    ensures var done := DeliverFrom(kept, chunks).0;
            forall x :: |done + [x]| == |done| + 1 && (done + [x])[|done|] == x
  {
    hide Complete;
    assert (chunks + [chunk])[..|chunks|] == chunks;
  }

  // Whatever state the client is in and whatever half of an earlier response is left in
  // its buffer: it takes the leftover and what it reads for one response. If that one
  // ends where it declares, then reading the rest of it, cut in any way, does what the
  // whole does, once.
  lemma SessionIndependentOfCutting(s: Queue.Engine, kept: string, r: string, es: seq<Read>)
    requires !Complete(kept) && HasLength(kept + r)
    requires |kept + r| == DeclaredEnd(kept + r) && |kept + r| < SIZE_T && Cutting(r, Chunks(es))
    ensures var v := Reads(View(kept, s), es); v.buffer == "" && Absorbed(s, v.engine, kept + r, es)
  {
    hide HasLength, Complete, Deliver, DeliverFrom, Absorbed, Reads, DeclaredEnd;
    LeftoverIsARead(kept, Chunks(es));
    ConcatFront(kept, Chunks(es));
    CuttingDoesNotMatter(kept + r);
    assert Cutting(kept + r, [kept] + Chunks(es));
    ReadsFollow(s, kept, kept + r, es);
  }

  lemma {:induction false} ConcatFront(kept: string, chunks: seq<string>)
    ensures Concat([kept] + chunks) == kept + Concat(chunks)
  {
    if chunks == [] {
      assert [kept] + chunks == [kept] && [kept][..0] == [];
      assert Concat([kept]) == "" + kept == kept + "";
    } else {
      var n := |chunks| - 1;
      assert ([kept] + chunks)[..n + 1] == [kept] + chunks[..n];
      ConcatFront(kept, chunks[..n]);
      assert (kept + Concat(chunks[..n])) + chunks[n] == kept + (Concat(chunks[..n]) + chunks[n]);
    }
  }

  // ---------- The reader of the control socket ----------

  // What a read event brings: everything up to the first empty receive.
  function Received(recvs: seq<string>): string {
    if recvs == [] || recvs[0] == "" then "" else recvs[0] + Received(recvs[1..])
  }

  // The reading half of PeerConnectionClient; its ids, phase and peers are those of
  // engine.signaling.
  class ControlReader {
    const engine: Queue.WebRTCEngine
    var controlData: string

    ghost function Seen(): View
      reads this, engine, engine.signaling
    {
      View(controlData, engine.State())
    }

    constructor (engine: Queue.WebRTCEngine)
      ensures this.engine == engine && Seen() == View("", engine.State())
    {
      this.engine, controlData := engine, "";
    }

    // The receive loop of ReadIntoBuffer: append until a receive brings nothing.
    static method Receive(recvs: seq<string>) returns (chunk: string)
      ensures chunk == Received(recvs)
    {
      chunk := "";
      var i := 0;
      while i < |recvs| && recvs[i] != ""
        invariant 0 <= i <= |recvs|
        invariant chunk + Received(recvs[i..]) == Received(recvs)
      {
        chunk := chunk + recvs[i];
        assert recvs[i..][0] == recvs[i] && recvs[i..][1..] == recvs[i + 1..];
        i := i + 1;
      }
      assert Received(recvs[i..]) == "";
    }

    method OnRead(recvs: seq<string>, send: bool, signOut: bool)
      modifies this, engine, engine.signaling
      ensures Seen() == OnReadStep(old(Seen()), Read(Received(recvs), send, signOut))
    {
      hide Complete, HasLength, Absorb;
      var chunk := Receive(recvs);
      controlData := controlData + chunk;
      if Complete(controlData) {
        CompleteHasLength(controlData);
        HandleResponse(controlData, send, signOut);
        controlData := "";
      }
    }

    method HandleResponse(response: string, send: bool, signOut: bool)
      requires HasLength(response)
      modifies engine, engine.signaling
      ensures engine.State() == Absorb(old(engine.State()), response, send, signOut)
    {
      hide HasLength, Status, Closes, PeersAfter, IdIn, Queue.Step;
      if Closes(response) {
        engine.OnControlClosed(send);
      }
      if Status(response) != 200 {
        engine.OnDisconnected();
        return;
      }
      TakePeers(response);
      engine.OnResponse(IdIn(response), signOut);
    }

    method TakePeers(response: string)
      requires HasLength(response)
      modifies engine.signaling`peers
      ensures engine.signaling.peers == PeersAfter(old(engine.signaling.State()), response)
    {
      hide HasLength, IdIn, HasBody, BodyOf, Peers;
      var client := engine.signaling;
      if client.myId == -1 {
        if HasBody(response) {
          client.peers := ReadPeers(BodyOf(response), IdIn(response), client.peers);
        }
      } else if client.phase == Queue.SigningOut {
        client.peers := map[];
        if HasBody(response) {
          client.peers := ReadPeers(BodyOf(response), client.myId, client.peers);
        }
      }
    }

    // The body loop of OnRead.
    static method ReadPeers(body: string, myId: int, before: map<int, string>) returns (peers: map<int, string>)
      ensures peers == Peers(body, myId, before)
    {
      hide IndexOf, ParseEntry;
      peers := before;
      var rest := body;
      var eol := IndexOf(rest, "\n");
      while eol >= 0
        invariant eol == IndexOf(rest, "\n")
        invariant Peers(rest, myId, peers) == Peers(body, myId, before)
        decreases |rest|
      {
        var entry := ParseEntry(rest[..eol]);
        if entry.Some? && entry.value.id != myId {
          peers := peers[entry.value.id := entry.value.name];
        }
        rest := rest[eol + 1..];
        eol := IndexOf(rest, "\n");
      }
    }
  }

  lemma CompleteHasLength(data: string)
    requires Complete(data)
    ensures HasLength(data)
  {
  }

  // ---------- From the server's list to the client's directory ----------

  // Server entries that survive being printed, each with its busy flag.
  ghost predicate Printable(es: seq<(Entry, bool)>) {
    forall i :: 0 <= i < |es| ==>
      es[i].0.id >= 0 && es[i].0.name != "" && ',' !in es[i].0.name && '\n' !in es[i].0.name
  }

  // The sign-in response: a 200 status line, header lines with the id (line p) and the
  // length (line c), and the list of peers.
  ghost predicate IsSignIn(lines: seq<string>, es: seq<(Entry, bool)>, id: nat, c: nat, p: nat,
                           version: string, reason: string)
    requires Printable(es)
  {
    && Declares(lines, ListText(es), c)
    && ' ' !in version && Stops(reason) && lines[0] == version + " " + (Decimal(200) + reason)
    && 1 <= p < |lines| && lines[p] == IdField()[2..] + Decimal(id)
    && forall k :: 0 < k < p ==> !Carries(lines[k], IdField())
  }

  lemma StatusFound(version: string, reason: string, n: nat, rest: string)
    requires ' ' !in version && Stops(reason)
    ensures Status(Joined(version + " " + (Decimal(n) + reason), rest)) == n
  {
    hide IndexOf, Atoi, Decimal, Crlf;
    var tail := Joined(reason, rest);
    assert Joined(version + " " + (Decimal(n) + reason), rest) == version + [' '] + (Decimal(n) + tail);
    FirstSeparator(version, ' ', Decimal(n) + tail);
    StopsBefore(reason, rest);
    AtoiOfDecimal(n, tail);
  }

  lemma StopsBefore(reason: string, rest: string)
    requires Stops(reason)
    ensures Stops(Joined(reason, rest))
  {
  }

  // A client that is signing in.
  predicate Joining(s: Queue.Engine) { s.client.phase == Queue.SigningIn && s.client.myId == -1 }

  // However the response is cut into reads, a client that is signing in ends up signed
  // in under its id, with exactly the directory the server printed, itself left out.
  lemma SignInRoundTrips(s: Queue.Engine, lines: seq<string>, list: seq<(Entry, bool)>, id: nat, c: nat, p: nat,
                         version: string, reason: string, es: seq<Read>)
    requires Joining(s) && Printable(list) && IsSignIn(lines, list, id, c, p, version, reason)
    requires |ResponseText(lines, ListText(list))| < SIZE_T
    requires Cutting(ResponseText(lines, ListText(list)), Chunks(es))
    ensures var v := Reads(View("", s), es);
            && v.buffer == "" && v.engine.client.phase == Queue.Connected && v.engine.client.myId == id
            && v.engine.client.peers == Directory(list, id, s.client.peers)
  {
    hide HasLength, DeclaredEnd, Cutting, ResponseText, Absorb, IsSignIn, Directory, Clean, Declares, Reads, Complete;
    var body := ListText(list);
    var r := ResponseText(lines, body);
    IsSignInDeclares(lines, list, id, c, p, version, reason);
    DeclaredIsWhole(lines, body, c);
    EmptyIsIncomplete();
    assert "" + r == r;
    SessionIndependentOfCutting(s, "", r, es);
    var e :| e in es && Reads(View("", s), es).engine == Absorb(s, r, e.send, e.signOut);
    AbsorbedSignIn(s, lines, list, id, c, p, version, reason, e.send, e.signOut);
  }

  lemma AbsorbedSignIn(s: Queue.Engine, lines: seq<string>, list: seq<(Entry, bool)>, id: nat, c: nat, p: nat,
                       version: string, reason: string, send: bool, signOut: bool)
    requires Joining(s) && Printable(list) && IsSignIn(lines, list, id, c, p, version, reason)
    requires |ResponseText(lines, ListText(list))| < SIZE_T
    ensures HasLength(ResponseText(lines, ListText(list)))
    ensures var t := Absorb(s, ResponseText(lines, ListText(list)), send, signOut);
            && t.client.phase == Queue.Connected && t.client.myId == id
            && t.client.peers == Directory(list, id, s.client.peers)
  {
    hide HeaderNumber, IndexOf, Atoi, Status, Peers, Decimal, Headers, Clean, Absorb, Declares, Directory,
         LengthField, IdField, EndOfHeaders, Crlf, HasLength, DeclaredEnd, Carries, Joined, Closes, IdIn, Added,
         Joining;
    var body := ListText(list);
    var r := ResponseText(lines, body);
    DeclaredClean(lines, body, c);
    DeclaredIsWhole(lines, body, c);
    NumberFound(lines, body, IdField(), p, id);
    StatusFound(version, reason, 200, ResponseText(lines[1..], body));
    PeerListRoundTrips(list, id, s.client.peers);
    EndFound(lines, body);
    FirstResponse(s, r, send, signOut);
    AddedAll(r, |Headers(lines)| - 2, id, s.client.peers);
  }

  // The first good response, as far as id, phase and peers go.
  lemma FirstResponse(s: Queue.Engine, r: string, send: bool, signOut: bool)
    requires Joining(s) && HasLength(r) && Status(r) == 200
    ensures var t := Absorb(s, r, send, signOut);
            && t.client.phase == Queue.Connected && t.client.myId == IdIn(r)
            && t.client.peers == Added(r, IdIn(r), s.client.peers)
  {
    hide HasLength, Status, Closes, IdIn, Added;
    CloseWhileJoining(s, send);
  }

  // While signing in, the engine cannot send: a close changes only the socket.
  lemma CloseWhileJoining(s: Queue.Engine, send: bool)
    requires Joining(s)
    ensures var t := Queue.Step(s, Queue.ControlClosed(send));
            Joining(t) && t.client.peers == s.client.peers
  {
  }

  lemma AddedAll(r: string, eoh: int, id: nat, peers: map<int, string>)
    requires HasLength(r) && IndexOf(r, EndOfHeaders()) == eoh
    requires HeaderNumber(r, eoh, IdField()) == Some(id)
    requires eoh >= 0 && eoh + 4 <= |r| < SIZE_T && HeaderNumber(r, eoh, LengthField()) == Some(|r[eoh + 4..]|)
    ensures IdIn(r) == id && Added(r, id, peers) == Peers(r[eoh + 4..], id, peers)
  {
    hide HeaderNumber, LengthField, IdField, IndexOf, EndOfHeaders, Peers, HasLength, HasBody, Added;
    AddedBody(r, eoh, id, peers);
  }

  lemma AddedBody(r: string, eoh: int, myId: int, peers: map<int, string>)
    requires HasLength(r) && IndexOf(r, EndOfHeaders()) == eoh
    requires eoh >= 0 && eoh + 4 <= |r| < SIZE_T && HeaderNumber(r, eoh, LengthField()) == Some(|r[eoh + 4..]|)
    ensures Added(r, myId, peers) == Peers(r[eoh + 4..], myId, peers)
  {
    hide HeaderNumber, LengthField, IndexOf, EndOfHeaders, Peers, HasLength;
    PeersOfNothing(myId, peers);
  }

  lemma PeersOfNothing(myId: int, peers: map<int, string>)
    ensures Peers("", myId, peers) == peers
  {
  }

  lemma DeclaredClean(lines: seq<string>, body: string, c: nat)
    requires Declares(lines, body, c)
    ensures Clean(lines) && lines != []
  {
  }

  lemma IsSignInDeclares(lines: seq<string>, es: seq<(Entry, bool)>, id: nat, c: nat, p: nat,
                         version: string, reason: string)
    requires Printable(es) && IsSignIn(lines, es, id, c, p, version, reason)
    ensures Declares(lines, ListText(es), c)
  {
    hide Declares;
  }
}
