/** What a response does to the client and its outgoing messages, in terms of the lines the
    server wrote: the close it may ask for, its status, and its list of peers. */
module ResponseEffects {
  import opened Basics
  import opened TextScan
  import opened HttpFraming
  import opened HttpResponses
  import opened SignIn
  import Queue = OutgoingQueue
  import Life = ClientLife

  // ---------- The text of a header field ----------

  // Line k is the first header line that begins with this name.
  predicate FirstWith(lines: seq<string>, name: string, k: nat) {
    1 <= k < |lines| && name <= lines[k] && forall j :: 0 < j < k ==> !(name <= lines[j])
  }

  predicate NoneWith(lines: seq<string>, name: string) { forall j :: 0 < j < |lines| ==> !(name <= lines[j]) }

  lemma ConnectionIsField()
    ensures IsField(ConnectionField()) && ConnectionField()[2..] == "Connection: "
  {
  }

  // The first line break of x, a line break, y when x has no carriage return.
  lemma FirstBreak(x: string, y: string)
    requires '\r' !in x
    ensures IndexOf(Joined(x, y), Crlf()) == |x| && Joined(x, y)[..|x|] == x
  {
    var s := Joined(x, y);
    assert s[|x|..|x| + 2] == Crlf();
    forall k | 0 <= k < |x| ensures !OccursAt(s, Crlf(), k) {
      assert s[k] == x[k] && x[k] in x && s[k..k + 2][0] == s[k];
    }
    IndexIs(s, Crlf(), |x|);
  }

  // The value read is the rest of the first line with the field, up to its own end.
  lemma TextFound(lines: seq<string>, body: string, field: string, k: nat)
    requires Clean(lines) && IsField(field) && FirstWith(lines, field[2..], k)
    ensures HeaderText(ResponseText(lines, body), |Headers(lines)| - 2, field) == Some(lines[k][|field| - 2..])
  {
    hide IndexOf, IsField, Headers, ResponseText, HeaderText, Joined;
    FieldBegins(field);
    FieldFound(lines, body, field, k);
    var value, rest := lines[k][|field| - 2..], ResponseText(lines[k + 1..], body);
    assert '\r' !in lines[k];
    assert forall c :: c in value ==> c in lines[k];
    ValueRead(ResponseText(lines, body), |Headers(lines)| - 2, field, value, rest);
  }

  lemma ValueRead(r: string, eoh: int, field: string, value: string, rest: string)
    requires '\r' !in value && 0 <= IndexOf(r, field) < eoh && IndexOf(r, field) + |field| <= |r|
    requires r[IndexOf(r, field) + |field|..] == Joined(value, rest)
    ensures HeaderText(r, eoh, field) == Some(value)
  {
    hide IndexOf, Joined, Crlf;
    FirstBreak(value, rest);
  }

  // Without such a line the search does not end in the headers.
  lemma {:induction false} FieldAbsent(lines: seq<string>, body: string, field: string)
    requires lines != [] && Clean(lines) && IsField(field) && NoneWith(lines, field[2..])
    ensures var found := IndexOf(ResponseText(lines, body), field);
            found < 0 || found >= |Headers(lines)| - 2
  {
    FieldBegins(field);
    CleanTail(lines);
    var rest := lines[1..];
    NothingCarried(rest, body, field, lines);
    hide IndexOf, Crlf, Clean, IsField, Carries;
    SearchPastLine(lines[0], ResponseText(rest, body), field);
    if rest == [] {
      assert Headers(lines) == Joined(lines[0], "");
    } else {
      FieldAbsent(rest, body, field);
      HeadersGrow(rest);
    }
  }

  lemma NothingCarried(rest: seq<string>, body: string, field: string, lines: seq<string>)
    requires lines != [] && rest == lines[1..] && IsField(field) && NoneWith(lines, field[2..])
    ensures !Carries(ResponseText(rest, body), field)
    ensures NoneWith(rest, field[2..])
  {
    if rest == [] {
      assert ResponseText(rest, body)[0] == '\r' && field[2..][0] == field[2];
    } else {
      CarriesText(rest[0], ResponseText(rest[1..], body), field);
      assert rest[0] == lines[1];
    }
  }

  // ---------- The close ----------

  // The client takes a response for one that asks for the close if and only if its first
  // Connection line says exactly that.
  lemma ClosesIff(lines: seq<string>, body: string, k: nat)
    requires Clean(lines) && HasLength(ResponseText(lines, body)) && FirstWith(lines, "Connection: ", k)
    ensures Closes(ResponseText(lines, body)) <==> lines[k] == "Connection: close"
  {
    ConnectionIsField();
    hide ConnectionField, IndexOf, HeaderText, HasLength, EndOfHeaders, Clean, Headers, ResponseText, IsField;
    EndFound(lines, body);
    TextFound(lines, body, ConnectionField(), k);
    CloseText(lines[k]);
  }

  lemma CloseText(line: string)
    requires "Connection: " <= line
    ensures line[12..] == "close" <==> line == "Connection: close"
  {
    assert line == line[..12] + line[12..] && line[..12] == "Connection: ";
    assert "Connection: close" == "Connection: " + "close";
  }

  lemma NoCloseWithout(lines: seq<string>, body: string)
    requires lines != [] && Clean(lines) && HasLength(ResponseText(lines, body)) && NoneWith(lines, "Connection: ")
    ensures !Closes(ResponseText(lines, body))
  {
    ConnectionIsField();
    EndFound(lines, body);
    FieldAbsent(lines, body, ConnectionField());
    hide ConnectionField, IndexOf, HasLength, EndOfHeaders, Clean, Headers, ResponseText, NoneWith;
  }

  // The server asks for the close in the first Connection line, or in none at all.
  ghost predicate AsksToClose(lines: seq<string>, close: bool) {
    (!close && NoneWith(lines, "Connection: "))
    || exists k: nat :: FirstWith(lines, "Connection: ", k) && (lines[k] == "Connection: close" <==> close)
  }

  lemma CloseAsked(lines: seq<string>, body: string, close: bool)
    requires lines != [] && Clean(lines) && HasLength(ResponseText(lines, body)) && AsksToClose(lines, close)
    ensures Closes(ResponseText(lines, body)) == close
  {
    hide HasLength, Closes, ResponseText, Clean;
    if !close && NoneWith(lines, "Connection: ") {
      NoCloseWithout(lines, body);
    } else {
      var k: nat :| FirstWith(lines, "Connection: ", k) && (lines[k] == "Connection: close" <==> close);
      ClosesIff(lines, body, k);
    }
  }

  // ---------- Responses of a given status ----------

  // A response with this status, whose length field is right, and which asks for the
  // close or not.
  ghost predicate IsResponse(lines: seq<string>, body: string, c: nat, version: string, status: nat, reason: string,
                             close: bool)
  {
    && Declares(lines, body, c) && AsksToClose(lines, close) && |ResponseText(lines, body)| < SIZE_T
    && ' ' !in version && Stops(reason) && lines[0] == version + " " + (Decimal(status) + reason)
  }

  // What the client finds in it.
  lemma ResponseRead(lines: seq<string>, body: string, c: nat, version: string, status: nat, reason: string,
                     close: bool)
    requires IsResponse(lines, body, c, version, status, reason, close)
    ensures var r := ResponseText(lines, body);
            && HasLength(r) && DeclaredEnd(r) == |r| < SIZE_T
            && Closes(r) == close && Status(r) == status
            && forall myId, peers :: Added(r, myId, peers) == Peers(body, myId, peers)
  {
    hide HasLength, DeclaredEnd, Closes, Status, AsksToClose, IndexOf, HeaderNumber, EndOfHeaders, LengthField,
         Headers, Peers, Clean, Decimal, Crlf, Added, Declares, Joined;
    DeclaredClean(lines, body, c);
    DeclaredIsWhole(lines, body, c);
    EndFound(lines, body);
    CloseAsked(lines, body, close);
    StatusFound(version, reason, status, ResponseText(lines[1..], body));
    forall myId, peers ensures Added(ResponseText(lines, body), myId, peers) == Peers(body, myId, peers) {
      AddedBody(ResponseText(lines, body), |Headers(lines)| - 2, myId, peers);
    }
  }

  // Read in any cutting by a client in any state, it is absorbed once.
  lemma ResponseAbsorbed(s: Queue.Engine, lines: seq<string>, body: string, c: nat, version: string, status: nat,
                         reason: string, close: bool, es: seq<Read>) returns (e: Read)
    requires IsResponse(lines, body, c, version, status, reason, close)
    requires Cutting(ResponseText(lines, body), Chunks(es))
    ensures e in es && HasLength(ResponseText(lines, body))
    ensures Reads(View("", s), es) == View("", Absorb(s, ResponseText(lines, body), e.send, e.signOut))
  {
    hide HasLength, DeclaredEnd, Cutting, ResponseText, Complete, Reads, IsResponse, Closes, Status, Absorb;
    ResponseRead(lines, body, c, version, status, reason, close);
    EmptyIsIncomplete();
    var r := ResponseText(lines, body);
    assert "" + r == r;
    SessionIndependentOfCutting(s, "", r, es);
    e :| e in es && Reads(View("", s), es).engine == Absorb(s, r, e.send, e.signOut);
  }

  // ---------- Messages ----------

  lemma AbsorbMessage(s: Queue.Engine, r: string, signOut: bool)
    requires HasLength(r) && Status(r) == 200 && Queue.Talking(s) && s.client.control.Busy? && s.pending != []
    ensures var next := Queue.ToPeer(s.client.myId, s.peerId, s.pending[0]);
            Absorb(s, r, true, signOut) ==
            if Closes(r) then s.(client := s.client.(control := Queue.Busy(next), wire := s.client.wire + [next]),
                                 pending := s.pending[1..], handed := s.handed + [s.pending[0]])
            else s
  {
    hide HasLength, Status, Closes, Added, IdIn;
  }

  // The response to a message, in a call whose connects succeed, read in any cutting: if
  // it asks for the close, the next waiting message is in flight, and if not, everything
  // is as it was.
  lemma ResponseSendsNext(s: Queue.Engine, lines: seq<string>, body: string, c: nat, version: string, reason: string,
                          close: bool, es: seq<Read>)
    requires Queue.Talking(s) && s.client.control.Busy? && s.pending != [] && forall e :: e in es ==> e.send
    requires IsResponse(lines, body, c, version, 200, reason, close)
    requires Cutting(ResponseText(lines, body), Chunks(es))
    ensures var v, next := Reads(View("", s), es), Queue.ToPeer(s.client.myId, s.peerId, s.pending[0]);
            && v.buffer == ""
            && v.engine == if close
                           then s.(client := s.client.(control := Queue.Busy(next), wire := s.client.wire + [next]),
                                   pending := s.pending[1..], handed := s.handed + [s.pending[0]])
                           else s
  {
    hide HasLength, DeclaredEnd, Closes, Status, IsResponse, Cutting, ResponseText, Added, IdIn, Absorb, Reads,
         Queue.Talking;
    ResponseRead(lines, body, c, version, 200, reason, close);
    var e := ResponseAbsorbed(s, lines, body, c, version, 200, reason, close, es);
    AbsorbMessage(s, ResponseText(lines, body), e.signOut);
  }

  lemma AbsorbError(s: Queue.Engine, r: string, send: bool, signOut: bool)
    requires HasLength(r) && Status(r) != 200
    ensures var t := Absorb(s, r, send, signOut);
            && t.pending == [] && !t.inCall && t.peerId == -1
            && t.client == Queue.Client(Queue.NotConnected, -1, Queue.Closed, t.client.wire, map[])
            && (!Closes(r) ==> t.client.wire == s.client.wire)
  {
    hide HasLength, Status, Closes, Queue.MessageDone;
  }

  lemma AbsorbErrorSends(s: Queue.Engine, r: string, signOut: bool)
    requires HasLength(r) && Status(r) != 200 && Closes(r) && Queue.Talking(s) && s.pending != []
    ensures Absorb(s, r, true, signOut).client.wire
            == s.client.wire + [Queue.ToPeer(s.client.myId, s.peerId, s.pending[0])]
  {
    hide HasLength, Status, Closes;
  }

  // A response with another status than 200 closes the client and ends the call: nothing
  // waits any more, and nobody is known. If it asks for the close, the next message of a
  // call is put on the wire first, only to be cut off.
  lemma ErrorDisconnects(s: Queue.Engine, lines: seq<string>, body: string, c: nat, version: string, status: nat,
                         reason: string, close: bool, es: seq<Read>)
    requires status != 200 && IsResponse(lines, body, c, version, status, reason, close)
    requires Cutting(ResponseText(lines, body), Chunks(es))
    ensures var v := Reads(View("", s), es);
            && v.buffer == "" && v.engine.pending == [] && !v.engine.inCall && v.engine.peerId == -1
            && v.engine.client == Queue.Client(Queue.NotConnected, -1, Queue.Closed, v.engine.client.wire, map[])
            && (!close ==> v.engine.client.wire == s.client.wire)
            && (close && Queue.Talking(s) && s.pending != [] && (forall e :: e in es ==> e.send) ==>
                  v.engine.client.wire == s.client.wire + [Queue.ToPeer(s.client.myId, s.peerId, s.pending[0])])
  {
    hide HasLength, DeclaredEnd, Closes, Status, IsResponse, Cutting, ResponseText, Added, IdIn, Absorb, Reads;
    ResponseRead(lines, body, c, version, status, reason, close);
    var e := ResponseAbsorbed(s, lines, body, c, version, status, reason, close, es);
    AbsorbError(s, ResponseText(lines, body), e.send, e.signOut);
    if close && Queue.Talking(s) && s.pending != [] && e.send {
      AbsorbErrorSends(s, ResponseText(lines, body), e.signOut);
    }
  }

  // ---------- Responses that lack something ----------

  lemma IdAbsent(lines: seq<string>, body: string)
    requires lines != [] && Clean(lines) && NoneWith(lines, "Pragma: ") && HasLength(ResponseText(lines, body))
    ensures IdIn(ResponseText(lines, body)) == -1
  {
    IdIsField();
    EndFound(lines, body);
    FieldAbsent(lines, body, IdField());
    hide IdField, IndexOf, HasLength, EndOfHeaders, Clean, Headers, ResponseText, NoneWith;
  }

  lemma IdIsField()
    ensures IsField(IdField()) && IdField()[2..] == "Pragma: "
  {
  }

  lemma NoIdNoRequests(s: Queue.Engine, e: Queue.Event, r: Queue.Request)
    requires s.client.myId == -1 && r in Life.Started(s, e)
    ensures r == Queue.SignIn
  {
    match r
    case ToPeer(id, peer, body) => Life.MessageStartedIff(s, e, id, peer, body);
    case Hangup(id) => Life.HangupStartedIff(s, e, id);
    case SignOut(id) => Life.SignOutStartedIff(s, e, id);
    case SignIn =>
  }

  // A good sign-in response without an id leaves the client connected under no id at all:
  // the next step starts no request, unless it signs in once more.
  lemma NoIdGiven(s: Queue.Engine, lines: seq<string>, body: string, c: nat, version: string, reason: string,
                  close: bool, es: seq<Read>)
    requires Joining(s) && IsResponse(lines, body, c, version, 200, reason, close) && NoneWith(lines, "Pragma: ")
    requires Cutting(ResponseText(lines, body), Chunks(es))
    ensures var v := Reads(View("", s), es);
            && v.buffer == "" && v.engine.client.phase == Queue.Connected && v.engine.client.myId == -1
            && v.engine.client.peers == Peers(body, -1, s.client.peers)
            && forall e, r :: r in Life.Started(v.engine, e) ==> r == Queue.SignIn
  {
    DeclaredClean(lines, body, c);
    hide HasLength, DeclaredEnd, Closes, Status, IsResponse, Cutting, ResponseText, Added, IdIn, Absorb, Reads, Joining,
         Peers, Clean, NoneWith, Life.Started;
    ResponseRead(lines, body, c, version, 200, reason, close);
    var e := ResponseAbsorbed(s, lines, body, c, version, 200, reason, close, es);
    IdAbsent(lines, body);
    FirstResponse(s, ResponseText(lines, body), e.send, e.signOut);
    var t := Reads(View("", s), es).engine;
    forall e, r | r in Life.Started(t, e) ensures r == Queue.SignIn {
      NoIdNoRequests(t, e, r);
    }
  }

  // The status is looked for behind the first blank of the whole response. With none in
  // the status line, and the length in the next line, the length is taken for it: such a
  // response counts as good if and only if its body has 200 bytes.
  lemma LengthTakenForStatus(lines: seq<string>, body: string)
    requires Declares(lines, body, 1) && ' ' !in lines[0]
    ensures Status(ResponseText(lines, body)) == |body|
  {
    hide IndexOf, Atoi, Decimal, Clean, ResponseText, LengthField, Joined;
    var rest := ResponseText(lines[2..], body);
    TwoLines(lines, body);
    LengthLine(lines[1], |body|);
    BlankInLength(lines[0], Decimal(|body|), rest);
    var x := lines[0] + Crlf() + "Content-Length:";
    FirstSeparator(x, ' ', Decimal(|body|) + (Crlf() + rest));
    AtoiOfDecimal(|body|, Crlf() + rest);
  }

  lemma TwoLines(lines: seq<string>, body: string)
    requires |lines| >= 2
    ensures ResponseText(lines, body) == Joined(lines[0], Joined(lines[1], ResponseText(lines[2..], body)))
  {
    assert lines[1..][1..] == lines[2..];
  }

  lemma LengthLine(line: string, n: nat)
    requires line == LengthField()[2..] + Decimal(n)
    ensures line == "Content-Length:" + [' '] + Decimal(n)
  {
    hide Decimal;
  }

  lemma BlankInLength(first: string, value: string, rest: string)
    ensures Joined(first, Joined("Content-Length:" + [' '] + value, rest))
            == first + Crlf() + "Content-Length:" + [' '] + (value + (Crlf() + rest))
  {
    hide Crlf;
  }

  // With a length of 0 nobody is listed, whatever follows the headers.
  lemma ZeroLengthListsNobody(lines: seq<string>, body: string, c: nat, myId: int, peers: map<int, string>)
    requires Clean(lines) && FirstWith(lines, "Content-Length: ", c) && lines[c] == "Content-Length: 0"
    ensures HasLength(ResponseText(lines, body)) && Added(ResponseText(lines, body), myId, peers) == peers
  {
    hide IndexOf, Decimal, EndOfHeaders, LengthField, HeaderNumber, Clean, Headers, ResponseText, Atoi, IsField, Added,
         HasLength;
    LengthIsField();
    EndFound(lines, body);
    ZeroIsPrinted();
    FieldsCarried(lines, c);
    NumberFound(lines, body, LengthField(), c, 0);
    NothingAdded(ResponseText(lines, body), |Headers(lines)| - 2, myId, peers);
  }

  lemma ZeroIsPrinted()
    ensures "Content-Length: 0" == "Content-Length: " + Decimal(0)
  {
    assert Decimal(0) == "0";
  }

  lemma FieldsCarried(lines: seq<string>, c: nat)
    requires FirstWith(lines, "Content-Length: ", c)
    ensures forall k :: 0 < k < c ==> !Carries(lines[k], LengthField())
  {
    LengthIsField();
    hide LengthField;
  }

  lemma NothingAdded(r: string, eoh: nat, myId: int, peers: map<int, string>)
    requires IndexOf(r, EndOfHeaders()) == eoh && HeaderNumber(r, eoh, LengthField()) == Some(0)
    ensures HasLength(r) && Added(r, myId, peers) == peers
  {
    hide IndexOf, EndOfHeaders, LengthField, HeaderNumber;
  }

  lemma LengthIsField()
    ensures IsField(LengthField()) && LengthField()[2..] == "Content-Length: "
  {
  }

  // ---------- Signing out ----------

  lemma AbsorbSignOut(s: Queue.Engine, r: string, send: bool, signOut: bool)
    requires HasLength(r) && Status(r) == 200 && s.client.phase == Queue.SigningOut && s.client.myId != -1
    ensures var t := Absorb(s, r, send, signOut);
            && t.client.phase == Queue.Connected && t.client.myId == s.client.myId
            && t.client.peers == Added(r, s.client.myId, map[]) && t.client.wire == s.client.wire
  {
    hide HasLength, Status, Closes, Added, IdIn;
  }

  // The answer to a sign-out leaves the client connected under its id, with exactly the
  // directory the server printed, itself left out, in place of the one it had.
  lemma SignOutRoundTrips(s: Queue.Engine, lines: seq<string>, list: seq<(Entry, bool)>, c: nat, version: string,
                          reason: string, close: bool, es: seq<Read>)
    requires s.client.phase == Queue.SigningOut && s.client.myId != -1 && Printable(list)
    requires IsResponse(lines, ListText(list), c, version, 200, reason, close)
    requires Cutting(ResponseText(lines, ListText(list)), Chunks(es))
    ensures var v := Reads(View("", s), es);
            && v.buffer == "" && v.engine.client.phase == Queue.Connected && v.engine.client.myId == s.client.myId
            && v.engine.client.peers == Directory(list, s.client.myId, map[])
            && v.engine.client.wire == s.client.wire
  {
    var body := ListText(list);
    hide HasLength, DeclaredEnd, Closes, Status, IsResponse, Cutting, ResponseText, Added, IdIn, Absorb, Reads,
         ListText, Peers, Directory, Printable;
    ResponseRead(lines, body, c, version, 200, reason, close);
    var e := ResponseAbsorbed(s, lines, body, c, version, 200, reason, close, es);
    PeerListRoundTrips(list, s.client.myId, map[]);
    AbsorbSignOut(s, ResponseText(lines, body), e.send, e.signOut);
  }

  lemma AbsorbWaiting(s: Queue.Engine, r: string)
    requires HasLength(r) && Status(r) == 200 && Queue.Talking(s) && s.client.control.Busy?
    ensures var w := Queue.Step(s, Queue.LogOff(true));
            var t := Absorb(w, r, true, true);
            && w.client.wire == s.client.wire && t.client.myId == s.client.myId
            && if Closes(r)
               then t.client.wire == s.client.wire + [Queue.SignOut(s.client.myId)]
                    && t.client.phase == if s.pending == [] then Queue.SigningOut else Queue.Connected
               else t == w
  {
    hide HasLength, Status, Closes, Added, IdIn;
  }

  // A sign-out asked for while a message is in flight waits for the message's response.
  // It then goes on the wire if and only if that response asks for the close; and if
  // more messages wait, the same response is taken for the answer to it.
  lemma WaitingSignOutIff(s: Queue.Engine, lines: seq<string>, body: string, c: nat, version: string, reason: string,
                          close: bool, es: seq<Read>)
    requires Queue.Talking(s) && s.client.control.Busy? && forall e :: e in es ==> e.send && e.signOut
    requires IsResponse(lines, body, c, version, 200, reason, close)
    requires Cutting(ResponseText(lines, body), Chunks(es))
    ensures var v := Reads(View("", Queue.Step(s, Queue.LogOff(true))), es);
            && v.buffer == "" && v.engine.client.myId == s.client.myId
            && (v.engine.client.wire == s.client.wire + [Queue.SignOut(s.client.myId)] <==> close)
            && (!close ==> v.engine == Queue.Step(s, Queue.LogOff(true)) && v.engine.client.wire == s.client.wire)
            && (close ==> v.engine.client.phase == if s.pending == [] then Queue.SigningOut else Queue.Connected)
  {
    var w := Queue.Step(s, Queue.LogOff(true));
    hide HasLength, DeclaredEnd, Closes, Status, IsResponse, Cutting, ResponseText, Added, IdIn, Absorb, Reads,
         Queue.Step, Queue.Talking;
    ResponseRead(lines, body, c, version, 200, reason, close);
    var e := ResponseAbsorbed(w, lines, body, c, version, 200, reason, close, es);
    AbsorbWaiting(s, ResponseText(lines, body));
  }
}
