/** Responses as a server writes them, header line by header line, and what the client's
    searches find in them. */
module HttpResponses {
  import opened Basics
  import opened TextScan
  import opened HttpFraming

  // A line, its line break, and what follows.
  function Joined(line: string, t: string): (s: string)
    ensures |s| == |line| + 2 + |t|
  {
    line + Crlf() + t
  }

  function Headers(lines: seq<string>): string {
    if lines == [] then "" else Joined(lines[0], Headers(lines[1..]))
  }

  // Status line and header lines, the empty line, the body.
  function ResponseText(lines: seq<string>, body: string): string {
    if lines == [] then Crlf() + body else Joined(lines[0], ResponseText(lines[1..], body))
  }

  predicate Clean(lines: seq<string>) {
    forall i :: 0 <= i < |lines| ==> lines[i] != "" && '\r' !in lines[i]
  }

  lemma {:induction false} TextParts(lines: seq<string>, body: string)
    ensures ResponseText(lines, body) == Headers(lines) + Crlf() + body
  {
    if lines != [] {
      TextParts(lines[1..], body);
      var l, h := lines[0] + Crlf(), Headers(lines[1..]);
      assert l + (h + Crlf() + body) == (l + h) + Crlf() + body;
    }
  }

  // ---------- Searching past a line ----------

  // Whether a text begins with what the pattern has after its line break.
  predicate Carries(t: string, pat: string)
    requires |pat| >= 2
  {
    pat[2..] <= t
  }

  lemma OccursPastLine(line: string, t: string, pat: string, k: int)
    requires '\r' !in line && |pat| >= 2 && pat[..2] == Crlf()
    ensures OccursAt(Joined(line, t), pat, k) <==>
            (k == |line| && Carries(t, pat)) || OccursAt(t, pat, k - |line| - 2)
  {
    var s := line + Crlf() + t;
    var n := |line| + 2;
    assert pat[0] == '\r' && pat[1] == '\n' by { assert pat[0] == pat[..2][0] && pat[1] == pat[..2][1]; }
    if 0 <= k && k + |pat| <= |s| {
      var here := s[k..k + |pat|];
      assert here[0] == s[k] && here[1] == s[k + 1];
      if k < |line| {
        assert s[k] == line[k] && line[k] in line;
      } else if k == |line| {
        assert here == Crlf() + t[..|pat| - 2];
        assert pat == Crlf() + pat[2..];
        assert here[2..] == t[..|pat| - 2];
      } else if k >= n {
        assert here == t[k - n..k - n + |pat|];
      }
    }
  }

  // A pattern that begins with a line break is found at the end of the line, if the
  // rest of it follows there, or else where it is found in the following text.
  lemma SearchPastLine(line: string, t: string, pat: string)
    requires '\r' !in line && |pat| >= 2 && pat[..2] == Crlf()
    ensures IndexOf(Joined(line, t), pat) ==
            if Carries(t, pat) then |line| else if IndexOf(t, pat) < 0 then -1 else |line| + 2 + IndexOf(t, pat)
  {
    hide OccursAt, IndexOf, Crlf, Carries, Joined;
    var s := Joined(line, t);
    var found := if Carries(t, pat) then |line| else |line| + 2 + IndexOf(t, pat);
    if Carries(t, pat) || IndexOf(t, pat) >= 0 {
      OccursPastLine(line, t, pat, found);
      forall k | 0 <= k < found ensures !OccursAt(s, pat, k) {
        OccursPastLine(line, t, pat, k);
        NoNegative(t, pat, k - |line| - 2);
      }
      IndexIs(s, pat, found);
    } else {
      OccursPastLine(line, t, pat, IndexOf(s, pat));
    }
  }

  lemma NoNegative(s: string, pat: string, k: int)
    ensures k < 0 ==> !OccursAt(s, pat, k)
  {
  }

  // ---------- What the client finds ----------

  lemma StartOfText(lines: seq<string>, body: string)
    requires Clean(lines)
    ensures lines == [] ==> Crlf() <= ResponseText(lines, body)
    ensures lines != [] ==> !(Crlf() <= ResponseText(lines, body))
  {
    if lines != [] {
      assert ResponseText(lines, body)[0] == lines[0][0] && lines[0][0] in lines[0];
    }
  }

  // The header block ends where the empty line is.
  lemma {:induction false} EndFound(lines: seq<string>, body: string)
    requires lines != [] && Clean(lines)
    ensures IndexOf(ResponseText(lines, body), EndOfHeaders()) == |Headers(lines)| - 2
    ensures |Headers(lines)| >= 2
  {
    hide IndexOf, EndOfHeaders, Crlf;
    SearchPastLine(lines[0], ResponseText(lines[1..], body), EndOfHeaders());
    StartOfText(lines[1..], body);
    if lines[1..] != [] {
      EndFound(lines[1..], body);
    }
  }

  ghost predicate IsField(field: string) {
    |field| > 2 && field[..2] == Crlf() && forall i :: 0 < i < |field| ==> field[i] != '\r'
  }

  lemma CarriesText(line: string, t: string, field: string)
    requires IsField(field)
    ensures Carries(Joined(line, t), field) <==> Carries(line, field)
  {
    var s := line + Crlf() + t;
    if |line| < |field| - 2 {
      assert s[|line|] == '\r' && field[2..][|line|] != '\r';
    }
  }

  function After(s: string, n: nat): string { if n <= |s| then s[n..] else "" }

  // The client's search for the field ends in the headers, and what it reads from there
  // is what line i says after the field's name.
  ghost predicate ReadsLine(lines: seq<string>, body: string, field: string, i: nat)
    requires i < |lines| && |field| >= 2 && |lines[i]| >= |field| - 2
  {
    var r, at := ResponseText(lines, body), IndexOf(ResponseText(lines, body), field);
    && 0 <= at && at + |field| <= |r| && at < |Headers(lines)| - 2
    && After(r, at + |field|) == Joined(After(lines[i], |field| - 2), ResponseText(lines[i + 1..], body))
  }

  lemma FieldBegins(field: string)
    requires IsField(field)
    ensures |field| >= 2 && field[..2] == Crlf()
  {
  }

  lemma ReadsNextLine(lines: seq<string>, body: string, field: string)
    requires Clean(lines) && IsField(field) && |lines| >= 2 && Carries(lines[1], field)
    ensures |lines[1]| >= |field| - 2 && ReadsLine(lines, body, field, 1)
  {
    hide IndexOf, Crlf, Clean, Carries, Joined, After, IsField;
    FieldBegins(field);
    CleanTail(lines);
    var rest := lines[1..];
    CarriesText(rest[0], ResponseText(rest[1..], body), field);
    SearchPastLine(lines[0], ResponseText(rest, body), field);
    HeadersGrow(rest);
    FieldHere(lines[0], rest[0], ResponseText(rest[1..], body), field);
    assert rest[1..] == lines[2..];
  }

  lemma ReadsLaterLine(lines: seq<string>, body: string, field: string, i: nat)
    requires Clean(lines) && IsField(field) && 2 <= i < |lines| && !Carries(lines[1], field)
    requires |lines[i]| >= |field| - 2 && ReadsLine(lines[1..], body, field, i - 1)
    ensures ReadsLine(lines, body, field, i)
  {
    hide IndexOf, Crlf, Clean, Carries, IsField, Joined, After;
    CleanTail(lines);
    FieldBegins(field);
    var rest := lines[1..];
    var t := ResponseText(rest, body);
    CarriesText(rest[0], ResponseText(rest[1..], body), field);
    SearchPastLine(lines[0], t, field);
    DropLine(lines[0], t, IndexOf(t, field) + |field|);
    assert rest[i..] == lines[i + 1..];
  }

  // The first header line that carries the field is the one whose value is read.
  lemma {:induction false} FieldFound(lines: seq<string>, body: string, field: string, i: nat)
    requires Clean(lines) && IsField(field) && 1 <= i < |lines| && Carries(lines[i], field)
    requires forall k :: 0 < k < i ==> !Carries(lines[k], field)
    ensures |lines[i]| >= |field| - 2 && ReadsLine(lines, body, field, i)
  {
    hide Clean, ReadsLine;
    if i == 1 {
      ReadsNextLine(lines, body, field);
    } else {
      CleanTail(lines);
      FieldFound(lines[1..], body, field, i - 1);
      ReadsLaterLine(lines, body, field, i);
    }
  }

  lemma CleanTail(lines: seq<string>)
    requires Clean(lines) && lines != []
    ensures Clean(lines[1..]) && '\r' !in lines[0]
  {
  }

  lemma HeadersGrow(lines: seq<string>)
    requires lines != []
    ensures |Headers(lines)| >= 2
  {
  }

  lemma DropLine(line: string, t: string, n: nat)
    ensures After(Joined(line, t), |line| + 2 + n) == After(t, n)
  {
  }

  lemma FieldHere(before: string, line: string, t: string, field: string)
    requires |field| >= 2 && Carries(line, field)
    ensures |line| >= |field| - 2
    ensures After(Joined(before, Joined(line, t)), |before| + |field|) == Joined(After(line, |field| - 2), t)
  {
  }

  // ---------- A response whose length field is right ----------

  // Line c is the first with a length field, and gives the body's length.
  predicate Declares(lines: seq<string>, body: string, c: nat) {
    && 1 <= c < |lines| && Clean(lines)
    && lines[c] == LengthField()[2..] + Decimal(|body|)
    && forall k :: 0 < k < c ==> !Carries(lines[k], LengthField())
  }

  // A number in a header line is read as printed.
  lemma NumberFound(lines: seq<string>, body: string, field: string, i: nat, n: nat)
    requires Clean(lines) && IsField(field) && 1 <= i < |lines| && lines[i] == field[2..] + Decimal(n)
    requires forall k :: 0 < k < i ==> !Carries(lines[k], field)
    ensures HeaderNumber(ResponseText(lines, body), |Headers(lines)| - 2, field) == Some(n)
  {
    hide IndexOf, Atoi, Decimal, Clean;
    FieldFound(lines, body, field, i);
    var rest := Crlf() + ResponseText(lines[i + 1..], body);
    assert lines[i][|field| - 2..] == Decimal(n);
    AtoiOfDecimal(n, rest);
    assert Decimal(n) + Crlf() + ResponseText(lines[i + 1..], body) == Decimal(n) + rest;
  }

  // It is framed by what it declares: its body is read to the last byte, and no more.
  lemma DeclaredIsWhole(lines: seq<string>, body: string, c: nat)
    requires Declares(lines, body, c) && |ResponseText(lines, body)| < SIZE_T
    ensures var r := ResponseText(lines, body);
            && HasLength(r) && DeclaredEnd(r) == |r|
            && IndexOf(r, EndOfHeaders()) == |Headers(lines)| - 2 && r[|Headers(lines)| + 2..] == body
            && HeaderNumber(r, |Headers(lines)| - 2, LengthField()) == Some(|body|)
  {
    hide IndexOf, Decimal, HeaderNumber, EndOfHeaders, LengthField, Clean, Crlf;
    var r := ResponseText(lines, body);
    TextParts(lines, body);
    TextParts(lines, "");
    EndFound(lines, body);
    NumberFound(lines, body, LengthField(), c, |body|);
    NumberFound(lines, "", LengthField(), c, |body|);
    assert HeaderBlock(r) == ResponseText(lines, "");
  }

  // Every response whose body has the length its length field gives is completed
  // once, whole, however it is cut into reads.
  lemma DeclaredIsDelivered(lines: seq<string>, body: string, c: nat, chunks: seq<string>)
    requires Declares(lines, body, c) && |ResponseText(lines, body)| < SIZE_T
    requires Cutting(ResponseText(lines, body), chunks)
    ensures Deliver(chunks) == ([ResponseText(lines, body)], "")
  {
    DeclaredIsWhole(lines, body, c);
    hide HasLength, DeclaredEnd, Deliver, Cutting, ResponseText;
    CuttingDoesNotMatter(ResponseText(lines, body));
  }

  // ---------- Blank and negative lengths ----------

  // The shortest response with a length field: this status line, this length.
  function Minimal(status: string, value: string, body: string): string {
    ResponseText([status, LengthField()[2..] + value], body)
  }

  lemma MinimalLength(status: string, value: string, body: string)
    requires status != "" && '\r' !in status && '\r' !in value
    ensures HasLength(Minimal(status, value, body))
    ensures LengthText(Minimal(status, value, body)) == value
    ensures IndexOf(Minimal(status, value, body), EndOfHeaders()) + 4 == |status| + |value| + 22
    ensures |Minimal(status, value, body)| == |status| + |value| + 22 + |body|
  {
    hide IndexOf, EndOfHeaders, LengthField, Crlf, Clean, ResponseText, Headers;
    var line := LengthField()[2..] + value;
    var lines := [status, line];
    MinimalClean(status, value);
    MinimalSizes(status, line, body);
    EndFound(lines, body);
    FieldFound(lines, body, LengthField(), 1);
    NothingAfter(lines, body);
    var r, at := Minimal(status, value, body), IndexOf(Minimal(status, value, body), LengthField());
    assert r[at + 18..] == value + Crlf() + (Crlf() + body);
    assert r[at + 18..][..|value|] == value;
  }

  lemma MinimalClean(status: string, value: string)
    requires status != "" && '\r' !in status && '\r' !in value
    ensures Clean([status, LengthField()[2..] + value])
  {
  }

  lemma MinimalSizes(status: string, line: string, body: string)
    ensures |Headers([status, line])| == |status| + |line| + 4
    ensures |ResponseText([status, line], body)| == |status| + |line| + 6 + |body|
  {
    var lines, last := [status, line], [line];
    assert lines[1..] == last && last[1..] == [];
    assert Headers(last) == line + Crlf() + Headers([]);
    assert ResponseText(last, body) == line + Crlf() + ResponseText([], body);
  }

  lemma NothingAfter(lines: seq<string>, body: string)
    requires |lines| == 2
    ensures ResponseText(lines[2..], body) == Crlf() + body
  {
  }

  lemma AtoiOfNegative(n: nat)
    ensures Atoi("-" + Decimal(n)) == 0 - n
  {
    var s := "-" + Decimal(n);
    assert SkipSpace(s) == s && s[1..] == Decimal(n);
    DigitsOfDecimal(n);
  }

  // Framed if and only if the body has the length meant: with a blank length, or a
  // negative one no larger than the header block, only an empty body will do.
  lemma MinimalFramedIff(status: string, value: string, body: string)
    requires status != "" && '\r' !in status && '\r' !in value
    requires |Minimal(status, value, body)| < SIZE_T - INT_LIMIT && -INT_LIMIT <= Atoi(value) < INT_LIMIT
    ensures HasLength(Minimal(status, value, body))
    ensures (forall chunks :: Cutting(Minimal(status, value, body), chunks) ==>
               Deliver(chunks) == ([Minimal(status, value, body)], ""))
            <==> |body| == Meant(|status| + |value| + 22, Atoi(value))
  {
    hide IndexOf, Atoi, EndOfHeaders, Minimal, Deliver, Cutting, HasLength, DeclaredEnd, Meant, LengthText, BodyLength;
    var r := Minimal(status, value, body);
    MinimalLength(status, value, body);
    MinimalBody(status, value, body);
    FramedIff(r);
    CuttingDoesNotMatter(r);
  }

  lemma MinimalBody(status: string, value: string, body: string)
    requires status != "" && '\r' !in status && '\r' !in value
    ensures HasLength(Minimal(status, value, body)) && BodyLength(Minimal(status, value, body)) == |body|
  {
    MinimalLength(status, value, body);
    hide IndexOf, EndOfHeaders, HasLength, Minimal;
  }

  // A blank length with the body "5", and -5 with the body "x": how they are cut into
  // reads decides what comes out. -1000 is never framed by an empty body.
  lemma LengthsThatFail()
    ensures exists chunks :: Cutting(Minimal("OK", "", "5"), chunks)
                             && Deliver(chunks) != ([Minimal("OK", "", "5")], "")
    ensures exists chunks :: Cutting(Minimal("OK", "-" + Decimal(5), "x"), chunks)
                             && Deliver(chunks) != ([Minimal("OK", "-" + Decimal(5), "x")], "")
    ensures exists chunks :: Cutting(Minimal("OK", "-" + Decimal(1000), ""), chunks)
                             && Deliver(chunks) != ([Minimal("OK", "-" + Decimal(1000), "")], "")
  {
    AtoiBlank("");
    AtoiOfNegative(5);
    AtoiOfNegative(1000);
    ThousandHasFourDigits();
    hide Minimal, Decimal, Atoi, Cutting, Deliver;
    FailsAt("", "5");
    FailsAt("-" + Decimal(5), "x");
    FailsAt("-" + Decimal(1000), "");
  }

  lemma ThousandHasFourDigits()
    ensures |Decimal(1000)| == 4 && '\r' !in Decimal(1000) && |Decimal(5)| == 1 && '\r' !in Decimal(5)
  {
    assert Decimal(10) == "10" && Decimal(100) == "100" && Decimal(1000) == "1000";
  }

  lemma FailsAt(value: string, body: string)
    requires '\r' !in value && |value| <= 5 && |body| <= 1 && -INT_LIMIT <= Atoi(value) < INT_LIMIT
    requires |body| != Meant(24 + |value|, Atoi(value))
    ensures exists chunks :: Cutting(Minimal("OK", value, body), chunks)
                             && Deliver(chunks) != ([Minimal("OK", value, body)], "")
  {
    MinimalLength("OK", value, body);
    hide IndexOf, Atoi, EndOfHeaders, Minimal, Deliver, Cutting, HasLength, LengthText, Meant;
    MinimalFramedIff("OK", value, body);
  }
}
