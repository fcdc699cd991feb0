/** The consumer table of the dma-buf server: four slots, a bit mask shared with the
    consumers, and a poll loop that admits and releases them. */
module ConsumerTable {

  const MAX_CONSUMERS := 4

  // ---------- The bit mask ----------

  // Masks as numbers, by their binary digits, lowest first.

  // mask & (1u << j)
  predicate Has(mask: nat, j: nat) {
    if j == 0 then mask % 2 == 1 else Has(mask / 2, j - 1)
  }

  ghost predicate AllSet(mask: nat) { forall j: nat :: j < MAX_CONSUMERS ==> Has(mask, j) }

  // mask | (1u << j)
  function WithBit(mask: nat, j: nat): nat {
    if j == 0 then mask / 2 * 2 + 1 else mask % 2 + 2 * WithBit(mask / 2, j - 1)
  }

  // mask & ~(1u << j)
  function WithoutBit(mask: nat, j: nat): nat {
    if j == 0 then mask / 2 * 2 else mask % 2 + 2 * WithoutBit(mask / 2, j - 1)
  }

  // No digit at or above position w.
  predicate Below(mask: nat, w: nat) {
    if w == 0 then mask == 0 else Below(mask / 2, w - 1)
  }

  lemma {:induction false} SetBit(mask: nat, j: nat, k: nat, w: nat)
    ensures Has(WithBit(mask, j), k) <==> k == j || Has(mask, k)
    ensures Below(mask, w) && j < w ==> Below(WithBit(mask, j), w)
  {
    if j > 0 {
      SetBit(mask / 2, j - 1, if k > 0 then k - 1 else 0, if w > 0 then w - 1 else 0);
    }
  }

  lemma {:induction false} ClearBit(mask: nat, j: nat, k: nat, w: nat)
    ensures Has(WithoutBit(mask, j), k) <==> k != j && Has(mask, k)
    ensures Below(mask, w) ==> Below(WithoutBit(mask, j), w)
  {
    if j > 0 {
      ClearBit(mask / 2, j - 1, if k > 0 then k - 1 else 0, if w > 0 then w - 1 else 0);
    }
  }

  // ---------- One poll round ----------

  // What accept and the handshake with the newcomer came to.
  datatype Accept = AcceptFailed | Accepted(fd: int, sendOk: bool, replyOk: bool, flags: nat)

  // ready: the descriptors poll reported; gone: those on which a peek reads end of
  // stream or an error; w[i]: the writer's w_idx when entry i is handled.
  datatype Round = Round(ready: set<int>, gone: set<int>, accept: Accept, w: seq<nat>)

  // The live slots below n, ascending.
  function LiveSlots(fds: seq<int>, n: nat): (s: seq<nat>)
    requires n <= |fds|
    ensures |s| <= n
    ensures forall i :: 0 <= i < |s| ==> s[i] < n && fds[s[i]] >= 0
    ensures forall j :: 0 <= j < n && fds[j] >= 0 ==> j in s
    ensures forall i, j :: 0 <= i < j < |s| ==> s[i] < s[j]
  {
    if n == 0 then []
    else if fds[n - 1] >= 0 then LiveSlots(fds, n - 1) + [n - 1]
    else LiveSlots(fds, n - 1)
  }

  ghost predicate Full(fds: seq<int>) {
    forall j :: 0 <= j < |fds| ==> fds[j] >= 0
  }

  ghost predicate FirstFree(fds: seq<int>, j: nat) {
    j < |fds| && fds[j] < 0 && forall k :: 0 <= k < j ==> fds[k] >= 0
  }

  // The round admits the newcomer to slot j.
  ghost predicate Admits(fds: seq<int>, serverFd: int, r: Round, j: nat) {
    serverFd in r.ready && r.accept.Accepted? && r.accept.sendOk && r.accept.replyOk && FirstFree(fds, j)
  }

  // The round releases slot j.
  ghost predicate Releases(fds: seq<int>, r: Round, j: nat)
    requires j < |fds|
  {
    fds[j] >= 0 && fds[j] in r.ready && fds[j] in r.gone
  }

  ghost function NewFd(fds: seq<int>, serverFd: int, r: Round, j: nat): int
    requires j < |fds|
  {
    if Releases(fds, r, j) then -1
    else if Admits(fds, serverFd, r, j) then r.accept.fd
    else fds[j]
  }

  // Descriptors closed by the round: the newcomer if it is turned away, then the
  // released consumers in slot order.
  ghost function ClosedNewcomer(fds: seq<int>, serverFd: int, r: Round): seq<int> {
    if serverFd in r.ready && r.accept.Accepted? && (Full(fds) || !r.accept.sendOk || !r.accept.replyOk)
    then [r.accept.fd] else []
  }

  ghost function ClosedConsumers(fds: seq<int>, r: Round, slots: seq<nat>): seq<int>
    requires forall i :: 0 <= i < |slots| ==> slots[i] < |fds|
  {
    if slots == [] then []
    else
      var front, j := slots[..|slots| - 1], slots[|slots| - 1];
      ClosedConsumers(fds, r, front) + if Releases(fds, r, j) then [fds[j]] else []
  }

  // The read cursors after the entries of these slots have been handled: a released
  // slot's cursor is set to the write cursor of that moment.
  ghost function Cursors(fds: seq<int>, r: Round, start: seq<nat>, slots: seq<nat>): (c: seq<nat>)
    requires |slots| < |r.w| && forall i :: 0 <= i < |slots| ==> slots[i] < |fds| && slots[i] < |start|
    ensures |c| == |start|
  {
    if slots == [] then start
    else
      var n := |slots| - 1;
      var before := Cursors(fds, r, start, slots[..n]);
      if Releases(fds, r, slots[n]) then before[slots[n] := r.w[1 + n]] else before
  }

  // A newcomer's cursor starts at the write cursor.
  ghost function AdmittedCursors(fds: seq<int>, serverFd: int, r: Round, start: seq<nat>): (c: seq<nat>)
    requires r.w != []
    ensures |c| == |start|
  {
    seq(|start|, j requires 0 <= j < |start| => if Admits(fds, serverFd, r, j) then r.w[0] else start[j])
  }

  // The table after the entries of these slots have been handled.
  ghost function Handled(fds: seq<int>, r: Round, start: seq<int>, slots: seq<nat>): seq<int>
    requires |fds| == |start|
  {
    seq(|start|, j requires 0 <= j < |start| => if Releases(fds, r, j) && j in slots then -1 else start[j])
  }

  // ---------- Descriptors are conserved ----------

  ghost function Open(fd: int): multiset<int> { if fd >= 0 then multiset{fd} else multiset{} }

  // The open descriptors in the table.
  ghost function Live(fds: seq<int>): multiset<int> {
    if fds == [] then multiset{} else Live(fds[..|fds| - 1]) + Open(fds[|fds| - 1])
  }

  ghost function NewTable(fds: seq<int>, serverFd: int, r: Round): (t: seq<int>)
    ensures |t| == |fds|
  {
    seq(|fds|, j requires 0 <= j < |fds| => NewFd(fds, serverFd, r, j))
  }

  // The descriptor that accept gave, if any.
  ghost function Taken(serverFd: int, r: Round): multiset<int> {
    if serverFd in r.ready && r.accept.Accepted? then multiset{r.accept.fd} else multiset{}
  }

  // The newcomer, if it has a seat among the first n slots.
  ghost function Seated(fds: seq<int>, serverFd: int, r: Round, n: nat): multiset<int> {
    if n == 0 then multiset{}
    else Seated(fds, serverFd, r, n - 1) + if Admits(fds, serverFd, r, n - 1) then multiset{r.accept.fd} else multiset{}
  }

  lemma LiveGrows(fds: seq<int>, n: nat)
    requires 0 < n <= |fds|
    ensures Live(fds[..n]) == Live(fds[..n - 1]) + Open(fds[n - 1])
  {
    assert fds[..n][..n - 1] == fds[..n - 1];
  }

  lemma ClosedGrows(fds: seq<int>, r: Round, n: nat)
    requires 0 < n <= |fds|
    ensures multiset(ClosedConsumers(fds, r, LiveSlots(fds, n)))
            == multiset(ClosedConsumers(fds, r, LiveSlots(fds, n - 1)))
               + if Releases(fds, r, n - 1) then multiset{fds[n - 1]} else multiset{}
  {
    var slots := LiveSlots(fds, n - 1);
    assert (slots + [n - 1])[..|slots|] == slots;
  }

  lemma SlotConserves(fds: seq<int>, serverFd: int, r: Round, j: nat)
    requires j < |fds| && (r.accept.Accepted? ==> r.accept.fd >= 0)
    ensures Open(NewFd(fds, serverFd, r, j)) + (if Releases(fds, r, j) then multiset{fds[j]} else multiset{})
            == Open(fds[j]) + if Admits(fds, serverFd, r, j) then multiset{r.accept.fd} else multiset{}
  {
  }

  lemma Sums(a: multiset<int>, b: multiset<int>, c: multiset<int>, d: multiset<int>,
             a': multiset<int>, b': multiset<int>, c': multiset<int>, d': multiset<int>)
    requires a + b == c + d && a' + b' == c' + d'
    ensures (a + a') + (b + b') == (c + c') + (d + d')
  {
    assert (a + a') + (b + b') == (a + b) + (a' + b');
  }

  lemma {:induction false} SlotsConserve(fds: seq<int>, serverFd: int, r: Round, n: nat)
    requires n <= |fds| && (r.accept.Accepted? ==> r.accept.fd >= 0)
    ensures Live(NewTable(fds, serverFd, r)[..n]) + multiset(ClosedConsumers(fds, r, LiveSlots(fds, n)))
            == Live(fds[..n]) + Seated(fds, serverFd, r, n)
  {
    if n > 0 {
      hide Live, ClosedConsumers, LiveSlots, Admits, Releases, NewFd, Open;
      var t := NewTable(fds, serverFd, r);
      var none: multiset<int> := multiset{};
      SlotsConserve(fds, serverFd, r, n - 1);
      LiveGrows(t, n);
      LiveGrows(fds, n);
      ClosedGrows(fds, r, n);
      SlotConserves(fds, serverFd, r, n - 1);
      assert t[n - 1] == NewFd(fds, serverFd, r, n - 1);
      Sums(Live(t[..n - 1]), multiset(ClosedConsumers(fds, r, LiveSlots(fds, n - 1))),
           Live(fds[..n - 1]), Seated(fds, serverFd, r, n - 1),
           Open(t[n - 1]), if Releases(fds, r, n - 1) then multiset{fds[n - 1]} else none,
           Open(fds[n - 1]), if Admits(fds, serverFd, r, n - 1) then multiset{r.accept.fd} else none);
    }
  }

  // At most one seat is the newcomer's.
  lemma {:induction false} SeatedOnce(fds: seq<int>, serverFd: int, r: Round, n: nat)
    ensures Seated(fds, serverFd, r, n) ==
            if exists j: nat :: j < n && Admits(fds, serverFd, r, j) then multiset{r.accept.fd} else multiset{}
  {
    if n > 0 {
      SeatedOnce(fds, serverFd, r, n - 1);
      assert Admits(fds, serverFd, r, n - 1) ==> forall j: nat :: j < n - 1 ==> !Admits(fds, serverFd, r, j);
    }
  }

  lemma SomeFirstFree(fds: seq<int>, k: nat)
    requires k < |fds| && fds[k] < 0
    ensures exists j: nat :: FirstFree(fds, j)
  {
    if j: nat :| j < k && fds[j] < 0 {
      SomeFirstFree(fds, j);
    } else {
      assert FirstFree(fds, k);
    }
  }

  lemma SeatedIff(fds: seq<int>, serverFd: int, r: Round)
    ensures Seated(fds, serverFd, r, |fds|) + multiset(ClosedNewcomer(fds, serverFd, r)) == Taken(serverFd, r)
  {
    SeatedOnce(fds, serverFd, r, |fds|);
    hide Seated;
    if k: nat :| k < |fds| && fds[k] < 0 {
      SomeFirstFree(fds, k);
      var j: nat :| FirstFree(fds, j);
      assert r.accept.Accepted? && r.accept.sendOk && r.accept.replyOk && serverFd in r.ready
             ==> Admits(fds, serverFd, r, j);
    }
  }

  // Of the descriptors there were and the one accept gave, each is in the table after the
  // round or was closed in it, once: none leaks and none is closed twice.
  lemma DescriptorsConserved(fds: seq<int>, serverFd: int, r: Round)
    requires r.accept.Accepted? ==> r.accept.fd >= 0
    ensures Live(NewTable(fds, serverFd, r))
            + multiset(ClosedNewcomer(fds, serverFd, r) + ClosedConsumers(fds, r, LiveSlots(fds, |fds|)))
            == Live(fds) + Taken(serverFd, r)
  {
    hide Live, ClosedConsumers, LiveSlots, NewFd, Seated, ClosedNewcomer, Taken;
    SlotsConserve(fds, serverFd, r, |fds|);
    SeatedIff(fds, serverFd, r);
    var t, consumers := NewTable(fds, serverFd, r), ClosedConsumers(fds, r, LiveSlots(fds, |fds|));
    assert t[..|fds|] == t && fds[..|fds|] == fds;
    var newcomer, none: multiset<int> := ClosedNewcomer(fds, serverFd, r), multiset{};
    Sums(Live(t), multiset(consumers), Live(fds), Seated(fds, serverFd, r, |fds|),
         none, multiset(newcomer), none, multiset(newcomer));
    assert Live(t) + none == Live(t) && Live(fds) + none == Live(fds);
    assert multiset(newcomer + consumers) == multiset(consumers) + multiset(newcomer);
  }

  lemma SeatedAt(fds: seq<int>, serverFd: int, r: Round, consumer: nat)
    requires FirstFree(fds, consumer) && serverFd in r.ready
    requires r.accept.Accepted? && r.accept.sendOk && r.accept.replyOk
    ensures consumer < |fds| && fds[consumer] < 0
    ensures !Full(fds) && forall j: nat :: Admits(fds, serverFd, r, j) <==> j == consumer
  {
  }

  lemma NobodySeated(fds: seq<int>, serverFd: int, r: Round)
    requires r.accept.Accepted? && (Full(fds) || !r.accept.sendOk || !r.accept.replyOk)
    ensures forall j: nat :: !Admits(fds, serverFd, r, j)
  {
  }

  lemma NothingHandled(fds: seq<int>, r: Round, start: seq<int>, cursors: seq<nat>, index: seq<nat>)
    requires |fds| == |start| == |cursors| && |index| < |r.w|
    requires forall i :: 0 <= i < |index| ==> index[i] < |fds|
    ensures Handled(fds, r, start, index[..0]) == start && ClosedConsumers(fds, r, index[..0]) == []
    ensures Cursors(fds, r, cursors, index[..0]) == cursors
  {
  }

  lemma HandledStep(fds: seq<int>, r: Round, start: seq<int>, cursors: seq<nat>, slots: seq<nat>, k: nat)
    requires |fds| == |start| == |cursors| && k < |slots| < |r.w|
    requires forall i :: 0 <= i < |slots| ==> slots[i] < |fds|
    ensures Cursors(fds, r, cursors, slots[..k + 1]) ==
            var c := Cursors(fds, r, cursors, slots[..k]);
            if Releases(fds, r, slots[k]) then c[slots[k] := r.w[1 + k]] else c
    ensures var j, before := slots[k], Handled(fds, r, start, slots[..k]);
            && Handled(fds, r, start, slots[..k + 1]) == (if Releases(fds, r, j) then before[j := -1] else before)
            && (Releases(fds, r, j) <==> fds[j] >= 0 && fds[j] in r.ready && fds[j] in r.gone)
            && ClosedConsumers(fds, r, slots[..k + 1])
               == ClosedConsumers(fds, r, slots[..k]) + if Releases(fds, r, j) then [fds[j]] else []
  {
    assert slots[..k + 1] == slots[..k] + [slots[k]];
  }

  lemma StillConserved(fds: seq<int>, serverFd: int, r: Round, closed: seq<int>, taken: multiset<int>)
    requires taken == multiset(closed) + Live(fds) && (r.accept.Accepted? ==> r.accept.fd >= 0)
    ensures taken + Taken(serverFd, r)
            == multiset(closed + ClosedNewcomer(fds, serverFd, r) + ClosedConsumers(fds, r, LiveSlots(fds, |fds|)))
               + Live(NewTable(fds, serverFd, r))
  {
    hide Live, ClosedConsumers, LiveSlots, NewTable, ClosedNewcomer, Taken;
    DescriptorsConserved(fds, serverFd, r);
    var a, b := ClosedNewcomer(fds, serverFd, r), ClosedConsumers(fds, r, LiveSlots(fds, |fds|));
    assert closed + a + b == closed + (a + b);
    var l, l', n, t := Live(fds), Live(NewTable(fds, serverFd, r)), multiset(a + b), Taken(serverFd, r);
    assert multiset(closed + (a + b)) == multiset(closed) + n;
    assert l' + n == l + t;
    assert taken + t == multiset(closed) + (l + t);
    assert multiset(closed) + (l' + n) == (multiset(closed) + n) + l';
  }

  lemma NobodyLive(n: nat)
    ensures Live(seq(n, _ => -1)) == multiset{}
  {
    if n > 0 {
      NobodyLive(n - 1);
      assert seq(n, _ => -1)[..n - 1] == seq(n - 1, _ => -1);
    }
  }

  class DmaBufServer {
    const serverFd: int
    const clientFds: array<int>
    const rIdx: array<nat>
    const consumerFlags: array<nat>
    var consumerMask: nat

    // Every descriptor closed so far, and all that accept gave.
    ghost var closed: seq<int>
    ghost var taken: multiset<int>

    // Each descriptor taken is in the table or has been closed, once.
    ghost predicate NothingLeaks()
      reads this, clientFds
    {
      taken == multiset(closed) + Live(clientFds[..])
    }

    ghost predicate Valid()
      reads this, clientFds
    {
      && clientFds.Length == MAX_CONSUMERS && rIdx.Length == MAX_CONSUMERS && consumerFlags.Length == MAX_CONSUMERS
      && rIdx != consumerFlags
      && Below(consumerMask, MAX_CONSUMERS)
      && (forall j: nat :: j < MAX_CONSUMERS ==> (Has(consumerMask, j) <==> clientFds[j] >= 0))
      && Distinct(clientFds[..], serverFd)
    }

    static ghost predicate Distinct(fds: seq<int>, serverFd: int) {
      && (forall j :: 0 <= j < |fds| && fds[j] >= 0 ==> fds[j] != serverFd)
      && (forall j, k :: 0 <= j < k < |fds| && fds[j] >= 0 ==> fds[j] != fds[k])
    }

    constructor (serverFd: int)
      ensures Valid() && NothingLeaks() && this.serverFd == serverFd && closed == []
      ensures forall j :: 0 <= j < MAX_CONSUMERS ==> clientFds[j] == -1
      ensures fresh(clientFds) && fresh(rIdx) && fresh(consumerFlags)
    {
      this.serverFd := serverFd;
      clientFds := new int[MAX_CONSUMERS](_ => -1);
      rIdx := new nat[MAX_CONSUMERS](_ => 0);
      consumerFlags := new nat[MAX_CONSUMERS](_ => 0);
      consumerMask := 0;
      closed, taken := [], multiset{};
      new;
      assert clientFds[..] == seq(MAX_CONSUMERS, _ => -1);
      NobodyLive(MAX_CONSUMERS);
      assert forall j: nat :: j < MAX_CONSUMERS ==> !Has(0, j);
    }

    // One pass of RunLoop. The kernel hands out descriptors that are not open.
    method PollRound(r: Round)
      requires Valid() && NothingLeaks() && serverFd >= 0 && |r.w| == 1 + MAX_CONSUMERS
      requires r.accept.Accepted? ==> r.accept.fd >= 0 && r.accept.fd != serverFd && r.accept.fd !in clientFds[..]
      modifies this`consumerMask, this`closed, this`taken, clientFds, rIdx, consumerFlags
      ensures Valid() && NothingLeaks() && taken == old(taken) + Taken(serverFd, r)
      ensures forall j :: 0 <= j < MAX_CONSUMERS ==> clientFds[j] == NewFd(old(clientFds[..]), serverFd, r, j)
      ensures var slots := LiveSlots(old(clientFds[..]), MAX_CONSUMERS);
              closed == old(closed) + ClosedNewcomer(old(clientFds[..]), serverFd, r)
                        + ClosedConsumers(old(clientFds[..]), r, slots)
      ensures forall j :: 0 <= j < MAX_CONSUMERS ==>
                consumerFlags[j] == if Admits(old(clientFds[..]), serverFd, r, j) then r.accept.flags
                                    else old(consumerFlags[j])
      ensures var fds := old(clientFds[..]);
              rIdx[..] == Cursors(fds, r, AdmittedCursors(fds, serverFd, r, old(rIdx[..])),
                                  LiveSlots(fds, MAX_CONSUMERS))
    {
      hide Has, Below, Distinct, Admits, Cursors, AdmittedCursors, ClosedConsumers, ClosedNewcomer, LiveSlots, Live,
           NewFd, Taken;
      ghost var fds := clientFds[..];
      HandleRound(r);
      taken := taken + Taken(serverFd, r);
      assert clientFds[..] == NewTable(fds, serverFd, r);
      StillConserved(fds, serverFd, r, old(closed), old(taken));
    }

    // The entries, the newcomer, and the consumers.
    method HandleRound(r: Round)
      requires Valid() && serverFd >= 0 && |r.w| == 1 + MAX_CONSUMERS
      requires r.accept.Accepted? ==> r.accept.fd >= 0 && r.accept.fd != serverFd && r.accept.fd !in clientFds[..]
      modifies this`consumerMask, this`closed, clientFds, rIdx, consumerFlags
      ensures Valid()
      ensures forall j :: 0 <= j < MAX_CONSUMERS ==> clientFds[j] == NewFd(old(clientFds[..]), serverFd, r, j)
      ensures var slots := LiveSlots(old(clientFds[..]), MAX_CONSUMERS);
              closed == old(closed) + ClosedNewcomer(old(clientFds[..]), serverFd, r)
                        + ClosedConsumers(old(clientFds[..]), r, slots)
      ensures forall j :: 0 <= j < MAX_CONSUMERS ==>
                consumerFlags[j] == if Admits(old(clientFds[..]), serverFd, r, j) then r.accept.flags
                                    else old(consumerFlags[j])
      ensures var fds := old(clientFds[..]);
              rIdx[..] == Cursors(fds, r, AdmittedCursors(fds, serverFd, r, old(rIdx[..])),
                                  LiveSlots(fds, MAX_CONSUMERS))
    {
      hide Has, Below, Distinct, Cursors, ClosedConsumers, LiveSlots;
      ghost var fds := clientFds[..];
      var pfds, clientIndex := Entries();
      if pfds[0] in r.ready {
        Admit(r);
      }
      assert rIdx[..] == AdmittedCursors(fds, serverFd, r, old(rIdx[..]));
      HandleClients(r, fds, pfds, clientIndex);
    }

    // Entry 0 is the listening socket; entry 1 + k belongs to slot clientIndex[k].
    method Entries() returns (pfds: seq<int>, clientIndex: seq<nat>)
      requires clientFds.Length == MAX_CONSUMERS
      ensures clientIndex == LiveSlots(clientFds[..], MAX_CONSUMERS)
      ensures |pfds| == 1 + |clientIndex| && pfds[0] == serverFd
      ensures forall k :: 0 <= k < |clientIndex| ==> pfds[1 + k] == clientFds[clientIndex[k]]
    {
      hide Has, Below, Distinct;
      ghost var fds := clientFds[..];
      pfds, clientIndex := [serverFd], [];
      for i := 0 to MAX_CONSUMERS
        invariant clientIndex == LiveSlots(fds, i)
        invariant |pfds| == 1 + |clientIndex| && pfds[0] == serverFd
        invariant forall k :: 0 <= k < |clientIndex| ==> pfds[1 + k] == fds[clientIndex[k]]
      {
        if clientFds[i] >= 0 {
          pfds := pfds + [clientFds[i]];
          clientIndex := clientIndex + [i];
        }
      }
    }

    // The rest of the round, entry by entry. `fds` is the table the entries were
    // taken from; a newcomer may have been admitted since, to a slot that was free.
    method HandleClients(r: Round, ghost fds: seq<int>, pfds: seq<int>, clientIndex: seq<nat>)
      requires Valid() && |r.w| == 1 + MAX_CONSUMERS && |fds| == MAX_CONSUMERS
      requires clientIndex == LiveSlots(fds, MAX_CONSUMERS) && |pfds| == 1 + |clientIndex|
      requires forall k :: 0 <= k < |clientIndex| ==> pfds[1 + k] == fds[clientIndex[k]]
      requires forall j :: 0 <= j < MAX_CONSUMERS && fds[j] >= 0 ==> clientFds[j] == fds[j]
      modifies this`consumerMask, this`closed, clientFds, rIdx
      ensures Valid()
      ensures forall j :: 0 <= j < MAX_CONSUMERS ==>
                clientFds[j] == if Releases(fds, r, j) then -1 else old(clientFds[j])
      ensures closed == old(closed) + ClosedConsumers(fds, r, clientIndex)
      ensures rIdx[..] == Cursors(fds, r, old(rIdx[..]), clientIndex)
    {
      hide Has, Below, Distinct, Cursors, ClosedConsumers;
      ghost var freed := HandleEntries(r, fds, pfds, clientIndex);
      closed := closed + freed;
    }

    method HandleEntries(r: Round, ghost fds: seq<int>, pfds: seq<int>, clientIndex: seq<nat>)
      returns (ghost freed: seq<int>)
      requires Valid() && |r.w| == 1 + MAX_CONSUMERS && |fds| == MAX_CONSUMERS && |clientIndex| <= MAX_CONSUMERS
      requires forall k :: 0 <= k < |clientIndex| ==> clientIndex[k] < MAX_CONSUMERS && fds[clientIndex[k]] >= 0
      requires forall i, k :: 0 <= i < k < |clientIndex| ==> clientIndex[i] < clientIndex[k]
      requires |pfds| == 1 + |clientIndex|
      requires forall k :: 0 <= k < |clientIndex| ==> pfds[1 + k] == fds[clientIndex[k]] == clientFds[clientIndex[k]]
      modifies this`consumerMask, clientFds, rIdx
      ensures Valid()
      ensures clientFds[..] == Handled(fds, r, old(clientFds[..]), clientIndex)
      ensures freed == ClosedConsumers(fds, r, clientIndex)
      ensures rIdx[..] == Cursors(fds, r, old(rIdx[..]), clientIndex)
    {
      assert rIdx.Length == MAX_CONSUMERS && clientFds.Length == MAX_CONSUMERS;
      hide Valid, Handled, Cursors, ClosedConsumers, Releases, Has, Below, Distinct;
      ghost var start := clientFds[..];
      freed := [];
      NothingHandled(fds, r, start, rIdx[..], clientIndex);
      for i := 1 to |pfds|
        invariant Valid()
        // every entry still to be handled names its slot's descriptor
        invariant forall k :: i <= k < |pfds| ==> clientFds[clientIndex[k - 1]] == pfds[k]
        invariant clientFds[..] == Handled(fds, r, start, clientIndex[..i - 1])
        invariant freed == ClosedConsumers(fds, r, clientIndex[..i - 1])
        invariant rIdx[..] == Cursors(fds, r, old(rIdx[..]), clientIndex[..i - 1])
      {
        HandledStep(fds, r, start, old(rIdx[..]), clientIndex, i - 1);
        ghost var newly := HandleClient(r, pfds[i], clientIndex[i - 1], r.w[i]);
        freed := freed + newly;
      }
      assert clientIndex[..|clientIndex|] == clientIndex;
    }

    method HandleClient(r: Round, fd: int, consumer: nat, w: nat) returns (ghost freed: seq<int>)
      requires Valid() && consumer < MAX_CONSUMERS && clientFds[consumer] == fd >= 0
      modifies this`consumerMask, clientFds, rIdx
      ensures Valid()
      ensures clientFds[..] ==
              if fd in r.ready && fd in r.gone then old(clientFds[..])[consumer := -1] else old(clientFds[..])
      ensures freed == if fd in r.ready && fd in r.gone then [fd] else []
      ensures rIdx[..] == if fd in r.ready && fd in r.gone then old(rIdx[..])[consumer := w] else old(rIdx[..])
    {
      hide Has, Below, Distinct;
      freed := [];
      if fd in r.ready && fd in r.gone {
        freed := Release(consumer, w);
      }
    }

    method FindFree() returns (consumer: int)
      requires Valid()
      ensures consumer < 0 <==> AllSet(consumerMask)
      ensures consumer < 0 <==> Full(clientFds[..])
      ensures consumer >= 0 ==> FirstFree(clientFds[..], consumer)
      ensures consumer >= 0 ==>
                clientFds[consumer] < 0 && forall k :: 0 <= k < consumer ==> clientFds[k] >= 0
      ensures -1 <= consumer < MAX_CONSUMERS
    {
      hide Has, Below, Distinct;
      consumer := -1;
      var j := 0;
      while j < MAX_CONSUMERS
        invariant 0 <= j <= MAX_CONSUMERS
        invariant forall k :: 0 <= k < j ==> Has(consumerMask, k) && clientFds[k] >= 0
        invariant consumer == -1
      {
        if !Has(consumerMask, j) {
          consumer := j;
          assert clientFds[..][j] < 0;
          break;
        }
        j := j + 1;
      }
    }

    // A new connection: find a free slot, hand over the descriptors, register.
    method Admit(r: Round)
      requires Valid() && serverFd in r.ready && |r.w| == 1 + MAX_CONSUMERS
      requires r.accept.Accepted? ==> r.accept.fd >= 0 && r.accept.fd != serverFd && r.accept.fd !in clientFds[..]
      modifies this`consumerMask, this`closed, clientFds, rIdx, consumerFlags
      ensures Valid()
      ensures forall j :: 0 <= j < MAX_CONSUMERS ==>
                clientFds[j] == if Admits(old(clientFds[..]), serverFd, r, j) then r.accept.fd else old(clientFds[j])
      ensures closed == old(closed) + ClosedNewcomer(old(clientFds[..]), serverFd, r)
      // A newcomer that completes the handshake is refused exactly when all bits of the
      // mask are set, and that is exactly when all descriptors are live.
      ensures r.accept.Accepted? && r.accept.sendOk && r.accept.replyOk ==>
                (closed == old(closed) + [r.accept.fd]
                 <==> AllSet(old(consumerMask)))
      ensures r.accept.Accepted? && r.accept.sendOk && r.accept.replyOk ==>
                (closed == old(closed) + [r.accept.fd] <==> Full(old(clientFds[..])))
      ensures forall j :: 0 <= j < MAX_CONSUMERS ==>
                consumerFlags[j] == if Admits(old(clientFds[..]), serverFd, r, j) then r.accept.flags
                                    else old(consumerFlags[j])
      ensures rIdx[..] == AdmittedCursors(old(clientFds[..]), serverFd, r, old(rIdx[..]))
    {
      hide Has, Below, Distinct, FirstFree, Full;
      ghost var fds := clientFds[..];
      if r.accept.AcceptFailed? {
        return;
      }
      var consumer := FindFree();
      if consumer < 0 || !r.accept.sendOk || !r.accept.replyOk {
        NobodySeated(fds, serverFd, r);
        closed := closed + [r.accept.fd];
        return;
      }
      SeatedAt(fds, serverFd, r, consumer);
      Seat(r, consumer);
    }

    // The registration of an accepted consumer.
    method Seat(r: Round, consumer: nat)
      requires Valid() && r.accept.Accepted? && r.w != []
      requires consumer < MAX_CONSUMERS && clientFds[consumer] < 0
      requires r.accept.fd >= 0 && r.accept.fd != serverFd && r.accept.fd !in clientFds[..]
      modifies this`consumerMask, clientFds, rIdx, consumerFlags
      ensures Valid()
      ensures clientFds[..] == old(clientFds[..])[consumer := r.accept.fd]
      ensures rIdx[..] == old(rIdx[..])[consumer := r.w[0]]
      ensures consumerFlags[..] == old(consumerFlags[..])[consumer := r.accept.flags]
    {
      rIdx[consumer] := r.w[0];
      consumerFlags[consumer] := r.accept.flags;
      MarkOnline(consumer);
      clientFds[consumer] := r.accept.fd;
    }

    method MarkOnline(j: nat)
      requires j < MAX_CONSUMERS && Below(consumerMask, MAX_CONSUMERS)
      modifies this`consumerMask
      ensures Below(consumerMask, MAX_CONSUMERS)
      ensures forall k: nat :: k < MAX_CONSUMERS ==> (Has(consumerMask, k) <==> k == j || Has(old(consumerMask), k))
    {
      forall k: nat | k < MAX_CONSUMERS
        ensures Below(WithBit(consumerMask, j), MAX_CONSUMERS)
        ensures Has(WithBit(consumerMask, j), k) <==> k == j || Has(consumerMask, k)
      {
        SetBit(consumerMask, j, k, MAX_CONSUMERS);
      }
      hide Has, WithBit, Below;
      consumerMask := WithBit(consumerMask, j);
      assert Has(consumerMask, j);
    }

    method MarkOffline(j: nat)
      requires j < MAX_CONSUMERS && Below(consumerMask, MAX_CONSUMERS)
      modifies this`consumerMask
      ensures Below(consumerMask, MAX_CONSUMERS)
      ensures forall k: nat :: k < MAX_CONSUMERS ==> (Has(consumerMask, k) <==> k != j && Has(old(consumerMask), k))
    {
      forall k: nat | k < MAX_CONSUMERS
        ensures Below(WithoutBit(consumerMask, j), MAX_CONSUMERS)
        ensures Has(WithoutBit(consumerMask, j), k) <==> k != j && Has(consumerMask, k)
      {
        ClearBit(consumerMask, j, k, MAX_CONSUMERS);
      }
      hide Has, WithoutBit, Below;
      consumerMask := WithoutBit(consumerMask, j);
      assert !Has(consumerMask, j);
    }

    // A consumer that has hung up.
    method Release(consumer: nat, w: nat) returns (ghost freed: seq<int>)
      requires Valid() && consumer < MAX_CONSUMERS && clientFds[consumer] >= 0
      modifies this`consumerMask, clientFds, rIdx
      ensures Valid()
      ensures clientFds[..] == old(clientFds[..])[consumer := -1]
      ensures freed == [old(clientFds[consumer])]
      ensures rIdx[..] == old(rIdx[..])[consumer := w]
    {
      hide Has, Below;
      MarkOffline(consumer);
      rIdx[consumer] := w;
      freed := [clientFds[consumer]];   // close(client_fds_[consumer])
      clientFds[consumer] := -1;
    }
  }
}
