/** The C and C++ text primitives the HTTP client parses with: find and atoi. */
module TextScan {

  predicate OccursAt(s: string, pat: string, i: int) {
    0 <= i && i + |pat| <= |s| && s[i..i + |pat|] == pat
  }

  // std::string::find; -1 stands for npos.
  function IndexOf(s: string, pat: string): (r: int)
    ensures r >= 0 ==> OccursAt(s, pat, r) && forall k :: 0 <= k < r ==> !OccursAt(s, pat, k)
    ensures r < 0 ==> r == -1 && forall k :: !OccursAt(s, pat, k)
  {
    if |s| < |pat| then -1
    else if s[..|pat|] == pat then
      assert OccursAt(s, pat, 0);
      0
    else if s == "" then -1
    else
      var t := IndexOf(s[1..], pat);
      assert forall k :: k > 0 ==> (OccursAt(s, pat, k) <==> OccursAt(s[1..], pat, k - 1)) by { OccursTail(s, pat); }
      assert !OccursAt(s, pat, 0);
      if t < 0 then
        assert forall k :: !OccursAt(s, pat, k);
        -1
      else
        assert forall k :: 0 < k < t + 1 ==> !OccursAt(s, pat, k);
        t + 1
  }

  lemma OccursTail(s: string, pat: string)
    requires s != ""
    ensures forall k :: k > 0 ==> (OccursAt(s, pat, k) <==> OccursAt(s[1..], pat, k - 1))
  {
  }

  // An occurrence with none before it is the one find returns.
  lemma IndexIs(s: string, pat: string, r: int)
    requires OccursAt(s, pat, r) && forall k :: 0 <= k < r ==> !OccursAt(s, pat, k)
    ensures IndexOf(s, pat) == r
  {
  }

  // A prefix has the occurrences that fit into it.
  lemma OccursInPrefix(s: string, pat: string, n: nat, i: int)
    requires n <= |s|
    ensures OccursAt(s[..n], pat, i) <==> OccursAt(s, pat, i) && i + |pat| <= n
  {
  }

  lemma IndexInPrefix(s: string, pat: string, n: nat)
    requires n <= |s|
    ensures IndexOf(s[..n], pat) ==
            if IndexOf(s, pat) >= 0 && IndexOf(s, pat) + |pat| <= n then IndexOf(s, pat) else -1
  {
    forall i ensures OccursAt(s[..n], pat, i) <==> OccursAt(s, pat, i) && i + |pat| <= n {
      OccursInPrefix(s, pat, n, i);
    }
    var r := IndexOf(s, pat);
    hide IndexOf;
    if r >= 0 && r + |pat| <= n {
      IndexIs(s[..n], pat, r);
    }
  }

  // ---------- atoi ----------

  predicate IsSpace(c: char) {
    c in " \t\n\r" || c as int in {11, 12}
  }

  predicate IsDigit(c: char) { '0' <= c <= '9' }

  predicate Blank(s: string) { forall i :: 0 <= i < |s| ==> IsSpace(s[i]) }

  function SkipSpace(s: string): (t: string)
    ensures Blank(s) ==> t == ""
    ensures !Blank(s) ==> t != ""
  {
    if s == "" then ""
    else if IsSpace(s[0]) then
      assert Blank(s) <==> Blank(s[1..]) by {
        assert forall i :: 0 < i < |s| ==> s[i] == s[1..][i - 1];
        assert forall i :: 0 <= i < |s[1..]| ==> s[1..][i] == s[i + 1];
      }
      SkipSpace(s[1..])
    else s
  }

  // The value of the leading digits, continuing from acc.
  function Digits(s: string, acc: nat): nat {
    if s == "" || !IsDigit(s[0]) then acc
    else Digits(s[1..], 10 * acc + (s[0] as int - '0' as int))
  }

  function Signed(s: string): int {
    if s != "" && s[0] == '-' then 0 - Digits(s[1..], 0)
    else if s != "" && s[0] == '+' then Digits(s[1..], 0)
    else Digits(s, 0)
  }

  function Atoi(s: string): int { Signed(SkipSpace(s)) }

  // Text starting with neither a digit ends a number.
  ghost predicate Stops(y: string) { y != "" ==> !IsDigit(y[0]) }

  lemma {:induction false} DigitsStop(s: string, y: string, acc: nat)
    requires Stops(y)
    ensures Digits(s + y, acc) == Digits(s, acc)
  {
    if s == "" {
      assert s + y == y;
    } else if IsDigit(s[0]) {
      assert (s + y)[1..] == s[1..] + y;
      DigitsStop(s[1..], y, 10 * acc + (s[0] as int - '0' as int));
    }
  }

  lemma {:induction false} SkipSpaceAppend(s: string, y: string)
    ensures SkipSpace(s + y) == if Blank(s) then SkipSpace(y) else SkipSpace(s) + y
  {
    if s == "" {
      assert s + y == y;
    } else if IsSpace(s[0]) {
      assert (s + y)[1..] == s[1..] + y;
      SkipSpaceAppend(s[1..], y);
      assert Blank(s) <==> Blank(s[1..]) by {
        assert forall i :: 0 < i < |s| ==> s[i] == s[1..][i - 1];
        assert forall i :: 0 <= i < |s[1..]| ==> s[1..][i] == s[i + 1];
      }
    }
  }

  // atoi of a field that is not blank does not look past it.
  lemma AtoiStops(s: string, y: string)
    requires !Blank(s) && Stops(y)
    ensures Atoi(s + y) == Atoi(s)
  {
    SkipSpaceAppend(s, y);
    var t := SkipSpace(s);
    assert (t + y)[0] == t[0] && (t + y)[1..] == t[1..] + y;
    DigitsStop(t, y, 0);
    DigitsStop(t[1..], y, 0);
  }

  lemma AtoiBlank(s: string)
    requires Blank(s)
    ensures Atoi(s) == 0
  {
  }

  // ---------- Decimal numbers ----------

  function Decimal(n: nat): (s: string)
    ensures s != "" && forall i :: 0 <= i < |s| ==> IsDigit(s[i])
  {
    var d := [('0' as int + n % 10) as char];
    if n < 10 then d else Decimal(n / 10) + d
  }

  lemma {:induction false} DigitsAppend(s: string, y: string, acc: nat)
    requires forall i :: 0 <= i < |s| ==> IsDigit(s[i])
    ensures Digits(s + y, acc) == Digits(y, Digits(s, acc))
  {
    if s == "" {
      assert s + y == y;
    } else {
      assert (s + y)[1..] == s[1..] + y;
      DigitsAppend(s[1..], y, 10 * acc + (s[0] as int - '0' as int));
    }
  }

  lemma {:induction false} DigitsOfDecimal(n: nat)
    ensures Digits(Decimal(n), 0) == n
  {
    var d := [('0' as int + n % 10) as char];
    if n >= 10 {
      DigitsOfDecimal(n / 10);
      DigitsAppend(Decimal(n / 10), d, 0);
      assert Digits(d, n / 10) == 10 * (n / 10) + n % 10;
    }
  }

  // What is read, of any number behind blanks and a sign: the blanks are the six of the
  // C locale, and reading stops at the first character that is no digit.
  lemma AtoiReads(blanks: string, sign: string, n: nat, y: string)
    requires forall i :: 0 <= i < |blanks| ==> blanks[i] as int in {9, 10, 11, 12, 13, 32}
    requires sign in {"", "+", "-"} && Stops(y)
    ensures Atoi(blanks + (sign + Decimal(n) + y)) == if sign == "-" then 0 - n else n
  {
    hide Decimal, SkipSpace, Signed, Digits;
    BlankOf(blanks);
    SkipSpaceAppend(blanks, sign + Decimal(n) + y);
    SignedReads(sign, n, y);
  }

  lemma BlankOf(blanks: string)
    requires forall i :: 0 <= i < |blanks| ==> blanks[i] as int in {9, 10, 11, 12, 13, 32}
    ensures Blank(blanks)
  {
  }

  lemma SignedReads(sign: string, n: nat, y: string)
    requires sign in {"", "+", "-"} && Stops(y)
    ensures var t := sign + Decimal(n) + y;
            SkipSpace(t) == t && Signed(t) == if sign == "-" then 0 - n else n
  {
    hide Decimal, Digits;
    var digits := Decimal(n);
    DigitsOfDecimal(n);
    DigitsStop(digits, y, 0);
    if sign == "" {
      assert sign + digits + y == digits + y;
      Unsigned(digits + y);
    } else {
      assert sign + digits + y == [sign[0]] + (digits + y);
      SignFirst(sign[0], digits + y);
    }
  }

  lemma Unsigned(t: string)
    requires t != "" && IsDigit(t[0])
    ensures SkipSpace(t) == t && Signed(t) == Digits(t, 0)
  {
    hide Digits;
  }

  lemma SignFirst(sign: char, rest: string)
    requires sign in {'+', '-'}
    ensures SkipSpace([sign] + rest) == [sign] + rest
    ensures Signed([sign] + rest) == if sign == '-' then 0 - Digits(rest, 0) else Digits(rest, 0)
  {
    hide Digits;
    assert ([sign] + rest)[1..] == rest;
  }

  // Printing and reading back.
  lemma AtoiOfDecimal(n: nat, y: string)
    requires Stops(y)
    ensures Atoi(Decimal(n) + y) == n
  {
    var s := Decimal(n);
    DigitsOfDecimal(n);
    assert IsDigit(s[0]) && !IsSpace(s[0]);
    AtoiStops(s, y);
    assert SkipSpace(s) == s;
  }
}
