/** Online clients: id assignment, name uniqueness and call pairing.

    `Reg` and the functions on it say what each operation of the registry does to
    its three fields; the class below performs the same operations in place. */
module Registry {
  import opened OrderedKeys

  datatype ClientState = Idle | Busy

  // peerId 0 means "not in a call".
  datatype Member = Member(name: string, state: ClientState, peerId: int)

  datatype PeerInfo = PeerInfo(id: int, name: string, state: ClientState)

  datatype CallResult = Ok | CallerBusy | TargetOffline | TargetBusy

  datatype Reg = Reg(members: map<int, Member>, names: set<string>, nextId: int)

  const EMPTY := Reg(map[], {}, 1)

  // ---------- What each operation does ----------

  function Idled(m: Member): Member { m.(state := Idle, peerId := 0) }

  function Engaged(m: Member, peer: int): Member { m.(state := Busy, peerId := peer) }

  // Applies Idled to `id` when it is present.
  function Released(members: map<int, Member>, id: int): map<int, Member> {
    if id in members then members[id := Idled(members[id])] else members
  }

  function Registered(r: Reg, name: string): (Reg, int) {
    if name in r.names then (r, -1)
    else (Reg(r.members[r.nextId := Member(name, Idle, 0)], r.names + {name}, r.nextId + 1), r.nextId)
  }

  // The checks in the order the source makes them.
  function CallOutcome(r: Reg, caller: int, target: int): CallResult {
    if caller == target then TargetBusy
    else if caller !in r.members || r.members[caller].state == Busy then CallerBusy
    else if target !in r.members then TargetOffline
    else if r.members[target].state == Busy then TargetBusy
    else Ok
  }

  function Called(r: Reg, caller: int, target: int): Reg {
    if CallOutcome(r, caller, target) != Ok then r
    else r.(members := r.members[caller := Engaged(r.members[caller], target)]
                                [target := Engaged(r.members[target], caller)])
  }

  predicate Paired(r: Reg, a: int, b: int) {
    a in r.members && b in r.members && r.members[a].peerId == b && r.members[b].peerId == a
  }

  function PeerOf(r: Reg, id: int): int {
    if id in r.members then r.members[id].peerId else 0
  }

  function HungUp(r: Reg, a: int, b: int): Reg {
    r.(members := Released(Released(r.members, a), b))
  }

  function Removed(r: Reg, id: int): Reg {
    if id !in r.members then r
    else
      var left := r.members - {id};
      var peer := r.members[id].peerId;
      Reg(if peer != 0 then Released(left, peer) else left, r.names - {r.members[id].name}, r.nextId)
  }

  function Info(id: int, m: Member): PeerInfo { PeerInfo(id, m.name, m.state) }

  function RosterOf(members: map<int, Member>): (out: seq<PeerInfo>)
    ensures |out| == |SortedKeys(members.Keys)|
  {
    var ids := SortedKeys(members.Keys);
    seq(|ids|, i requires 0 <= i < |ids| => Info(ids[i], members[ids[i]]))
  }

  // ---------- What the roster is ----------

  ghost predicate IsRoster(members: map<int, Member>, out: seq<PeerInfo>) {
    && (forall i, j :: 0 <= i < j < |out| ==> out[i].id < out[j].id)
    && (forall p :: p in out ==> p.id in members && p == Info(p.id, members[p.id]))
    && (forall id :: id in members ==> Info(id, members[id]) in out)
  }

  lemma RosterIsRoster(members: map<int, Member>)
    ensures IsRoster(members, RosterOf(members))
  {
    hide SortedKeys;
    var ids := SortedKeys(members.Keys);
    var r := RosterOf(members);
    forall id | id in members ensures Info(id, members[id]) in r {
      assert id in ids;
      var i :| 0 <= i < |ids| && ids[i] == id;
      assert r[i] == Info(id, members[id]);
    }
  }

  // RosterOf is the one list with a line per member, strictly ascending by id.
  lemma RosterIsExact(members: map<int, Member>, out: seq<PeerInfo>)
    ensures IsRoster(members, out) <==> out == RosterOf(members)
  {
    RosterIsRoster(members);
    if IsRoster(members, out) {
      RosterIds(members, out);
      SortedUnique(IdsOf(out), SortedKeys(members.Keys));
      hide SortedKeys;
      forall i | 0 <= i < |out| ensures out[i] == RosterOf(members)[i] {
        assert out[i] in out && IdsOf(out)[i] == SortedKeys(members.Keys)[i];
      }
    }
  }

  ghost function IdsOf(out: seq<PeerInfo>): (ids: seq<int>)
    ensures |ids| == |out|
  {
    seq(|out|, i requires 0 <= i < |out| => out[i].id)
  }

  lemma RosterIds(members: map<int, Member>, out: seq<PeerInfo>)
    requires IsRoster(members, out)
    ensures StrictlySorted(IdsOf(out))
    ensures forall x :: x in IdsOf(out) <==> x in SortedKeys(members.Keys)
  {
    hide SortedKeys;
    forall x ensures x in IdsOf(out) <==> x in members {
      if x in IdsOf(out) {
        var i :| 0 <= i < |out| && IdsOf(out)[i] == x;
        assert out[i] in out;
      }
      if x in members {
        assert Info(x, members[x]) in out;
        var i :| 0 <= i < |out| && out[i] == Info(x, members[x]);
        assert IdsOf(out)[i] == x;
      }
    }
  }

  // ---------- Invariant ----------

  ghost predicate NamesMatch(r: Reg) {
    && (forall id :: id in r.members ==> r.members[id].name in r.names)
    && (forall n :: n in r.names ==> exists id :: id in r.members && r.members[id].name == n)
    && (forall a, b :: a in r.members && b in r.members && a != b
                       ==> r.members[a].name != r.members[b].name)
  }

  // The peer ids form a symmetric, irreflexive partial matching on the live members.
  ghost predicate Matching(members: map<int, Member>) {
    forall id :: id in members ==> Mated(members, id)
  }

  // Busy exactly when there is a partner, who is someone else and has this one.
  ghost predicate Mated(members: map<int, Member>, id: int)
    requires id in members
  {
    var peer := members[id].peerId;
    && (members[id].state == Busy <==> peer != 0)
    && (peer != 0 ==> peer != id && peer in members && members[peer].peerId == id)
  }

  ghost predicate RegInv(r: Reg) {
    && (forall id :: id in r.members ==> 1 <= id < r.nextId)
    && 1 <= r.nextId
    && NamesMatch(r)
    && Matching(r.members)
  }

  lemma RegisterKeeps(r: Reg, name: string)
    requires RegInv(r)
    ensures RegInv(Registered(r, name).0)
  {
    if name !in r.names {
      RegisterKeepsNames(r, name);
      RegisterKeepsMatching(r, name);
    }
    hide NamesMatch, Matching;
  }

  lemma RegisterKeepsMatching(r: Reg, name: string)
    requires RegInv(r) && name !in r.names
    ensures Matching(Registered(r, name).0.members)
  {
    hide NamesMatch;
    var members' := Registered(r, name).0.members;
    forall id | id in members' ensures Mated(members', id) {
      if id != r.nextId {
        assert Mated(r.members, id);
      }
    }
  }

  lemma RegisterKeepsNames(r: Reg, name: string)
    requires NamesMatch(r) && name !in r.names && r.nextId !in r.members
    ensures NamesMatch(Registered(r, name).0)
  {
    var r' := Registered(r, name).0;
    assert r'.members[r.nextId].name == name;
    forall n | n in r'.names ensures exists id :: id in r'.members && r'.members[id].name == n {
      if n != name {
        var id :| id in r.members && r.members[id].name == n;
        assert id in r'.members && r'.members[id].name == n;
      }
    }
  }

  lemma SameNames(r: Reg, r': Reg)
    requires NamesMatch(r) && r'.names == r.names && r'.members.Keys == r.members.Keys
    requires forall id :: id in r.members ==> r'.members[id].name == r.members[id].name
    ensures NamesMatch(r')
  {
  }

  lemma CallKeeps(r: Reg, caller: int, target: int)
    requires RegInv(r)
    ensures RegInv(Called(r, caller, target))
  {
    CallKeepsMatching(r, caller, target);
    var r' := Called(r, caller, target);
    assert r'.members.Keys == r.members.Keys && r'.names == r.names && r'.nextId == r.nextId;
    hide Matching;
    SameNames(r, r');
    hide NamesMatch;
  }

  lemma CallKeepsMatching(r: Reg, caller: int, target: int)
    requires Matching(r.members) && 0 !in r.members
    ensures Matching(Called(r, caller, target).members)
  {
    var members' := Called(r, caller, target).members;
    forall id | id in members' ensures Mated(members', id) {
      assert Mated(r.members, id);
    }
  }

  // Each of the two is absent, idle, or the partner of the other.
  predicate Partners(r: Reg, a: int, b: int) { PeerOf(r, a) in {0, b} && PeerOf(r, b) in {0, a} }

  lemma HangupOfPartners(r: Reg, a: int, b: int)
    requires Matching(r.members) && Partners(r, a, b)
    ensures Matching(HungUp(r, a, b).members)
  {
    var members' := HungUp(r, a, b).members;
    forall id | id in members' ensures Mated(members', id) {
      assert Mated(r.members, id);
    }
  }

  // A partner left behind still points to a member that is idle now.
  lemma HangupOfStrangers(r: Reg, a: int, b: int)
    requires Matching(r.members) && !Partners(r, a, b) && 0 !in r.members
    ensures !Matching(HungUp(r, a, b).members)
  {
    var members', x := HungUp(r, a, b).members, if PeerOf(r, a) !in {0, b} then a else b;
    var p := r.members[x].peerId;
    assert Mated(r.members, x);
    assert !Mated(members', p);
  }

  lemma HangupKeepsRest(r: Reg, a: int, b: int)
    requires RegInv(r)
    ensures RegInv(HungUp(r, a, b)) <==> Matching(HungUp(r, a, b).members)
  {
    SameNames(r, HungUp(r, a, b));
    hide NamesMatch, Matching;
  }

  // Exactly when an unconditional Hangup keeps the matching: each argument is
  // absent, idle, or the partner of the other.
  lemma HangupKeepsIff(r: Reg, a: int, b: int)
    requires RegInv(r)
    ensures RegInv(HungUp(r, a, b)) <==>
            (PeerOf(r, a) in {0, b} && PeerOf(r, b) in {0, a})
  {
    assert 0 !in r.members;
    hide HungUp, Matching, NamesMatch;
    HangupKeepsRest(r, a, b);
    if Partners(r, a, b) {
      HangupOfPartners(r, a, b);
    } else {
      HangupOfStrangers(r, a, b);
    }
  }

  // Hangup clears both sides whoever they are; it keeps the matching when the
  // second argument is the first one's own peer.
  lemma HangupKeeps(r: Reg, a: int)
    requires RegInv(r) && PeerOf(r, a) != 0
    ensures RegInv(HungUp(r, a, PeerOf(r, a)))
  {
    PeersAgree(r, a);
    hide RegInv, HungUp;
    HangupKeepsIff(r, a, PeerOf(r, a));
  }

  lemma PeersAgree(r: Reg, a: int)
    requires RegInv(r) && PeerOf(r, a) != 0
    ensures PeerOf(r, PeerOf(r, a)) == a
  {
  }

  lemma RemoveKeeps(r: Reg, id: int)
    requires RegInv(r)
    ensures RegInv(Removed(r, id))
  {
    if id in r.members {
      RemoveKeepsNames(r, id);
      RemoveKeepsMatching(r, id);
    }
    hide NamesMatch, Matching;
  }

  lemma RemoveKeepsMatching(r: Reg, id: int)
    requires RegInv(r) && id in r.members
    ensures Matching(Removed(r, id).members)
  {
    hide NamesMatch;
    assert Mated(r.members, id);
    var members' := Removed(r, id).members;
    forall k | k in members' ensures Mated(members', k) {
      assert Mated(r.members, k);
    }
  }

  lemma RemoveKeepsNames(r: Reg, id: int)
    requires NamesMatch(r) && id in r.members
    ensures NamesMatch(Removed(r, id))
  {
    var r' := Removed(r, id);
    forall n | n in r'.names ensures exists k :: k in r'.members && r'.members[k].name == n {
      var k :| k in r.members && r.members[k].name == n;
      assert k in r'.members && r'.members[k].name == n;
    }
  }

  // ---------- The class ----------

  class ClientRegistry {
    var members: map<int, Member>
    var names: set<string>
    var nextId: int

    ghost function View(): Reg
      reads this
    {
      Reg(members, names, nextId)
    }

    constructor ()
      ensures View() == EMPTY
    {
      members, names, nextId := map[], {}, 1;
    }

    method Register(name: string) returns (id: int)
      modifies this
      ensures (View(), id) == Registered(old(View()), name)
    {
      if name in names {
        return -1;
      }
      id := nextId;
      nextId := nextId + 1;
      var m := Member(name, Idle, 0);
      members := members[id := m];
      names := names + {name};
    }

    method Call(callerId: int, targetId: int) returns (result: CallResult)
      modifies this
      ensures result == CallOutcome(old(View()), callerId, targetId)
      ensures View() == Called(old(View()), callerId, targetId)
    {
      if callerId == targetId {
        return TargetBusy;
      }
      if callerId !in members || members[callerId].state == Busy {
        return CallerBusy;
      }
      if targetId !in members {
        return TargetOffline;
      }
      if members[targetId].state == Busy {
        return TargetBusy;
      }
      members := members[callerId := Engaged(members[callerId], targetId)];
      members := members[targetId := Engaged(members[targetId], callerId)];
      return Ok;
    }

    method IsPaired(a: int, b: int) returns (paired: bool)
      ensures paired == Paired(View(), a, b)
    {
      if a !in members {
        return false;
      }
      if b !in members {
        return false;
      }
      return members[a].peerId == b && members[b].peerId == a;
    }

    method GetPeer(id: int) returns (peer: int)
      ensures peer == PeerOf(View(), id)
    {
      if id !in members {
        return 0;
      }
      return members[id].peerId;
    }

    method Hangup(a: int, b: int)
      modifies this
      ensures View() == HungUp(old(View()), a, b)
    {
      if a in members {
        members := members[a := Idled(members[a])];
      }
      if b in members {
        members := members[b := Idled(members[b])];
      }
    }

    method Remove(id: int) returns (peer: int)
      modifies this
      ensures View() == Removed(old(View()), id)
      ensures peer == PeerOf(old(View()), id)
    {
      if id !in members {
        return 0;
      }
      peer := members[id].peerId;
      names := names - {members[id].name};
      members := members - {id};
      if peer != 0 {
        if peer in members {
          members := members[peer := Idled(members[peer])];
        }
      }
    }

    method Roster() returns (out: seq<PeerInfo>)
      ensures IsRoster(members, out)
      ensures out == RosterOf(members)
    {
      var ids := SortedKeys(members.Keys);
      out := [];
      for i := 0 to |ids|
        invariant |out| == i
        invariant forall k :: 0 <= k < i ==> out[k] == Info(ids[k], members[ids[k]])
      {
        out := out + [Info(ids[i], members[ids[i]])];
      }
      assert out == RosterOf(members);
      RosterIsExact(members, out);
    }

    method Has(id: int) returns (present: bool)
      ensures present <==> id in members
    {
      return id in members;
    }
  }
}
