// The iteration order of std::map<int, ...>: ascending keys.
module OrderedKeys {

  lemma {:induction false} HasLeast(s: set<int>, z: int)
    requires z in s
    ensures exists m :: m in s && forall y :: y in s ==> m <= y
    decreases |s|
  {
    if y :| y in s && y < z {
      HasLeast(s - {z}, y);
      var m :| m in s - {z} && forall y :: y in s - {z} ==> m <= y;
      forall y | y in s ensures m <= y {
        assert y == z || y in s - {z};
      }
    } else {
      assert forall y :: y in s ==> z <= y;
    }
  }

  function Least(s: set<int>): (m: int)
    requires exists z :: z in s
    ensures m in s && forall y :: y in s ==> m <= y
  {
    assert exists m :: m in s && forall y :: y in s ==> m <= y by {
      var z :| z in s;
      HasLeast(s, z);
    }
    var m :| m in s && forall y :: y in s ==> m <= y;
    m
  }

  ghost predicate StrictlySorted(ids: seq<int>) {
    forall i, j :: 0 <= i < j < |ids| ==> ids[i] < ids[j]
  }

  function SortedKeys(s: set<int>): (ids: seq<int>)
    ensures StrictlySorted(ids)
    ensures forall x :: x in ids <==> x in s
  {
    if exists z :: z in s then
      var m := Least(s);
      [m] + SortedKeys(s - {m})
    else
      []
  }

  // A set has only one ascending enumeration.
  lemma {:induction false} SortedUnique(a: seq<int>, b: seq<int>)
    requires StrictlySorted(a) && StrictlySorted(b)
    requires forall x :: x in a <==> x in b
    ensures a == b
  {
    assert a != [] ==> a[0] in a && a[0] in b;
    assert b != [] ==> b[0] in b && b[0] in a;
    if a != [] {
      assert a[0] == b[0];
      forall x ensures x in a[1..] <==> x in b[1..] {
        assert x in a <==> x == a[0] || x in a[1..];
        assert x in b <==> x == b[0] || x in b[1..];
      }
      SortedUnique(a[1..], b[1..]);
      assert a == [a[0]] + a[1..] && b == [b[0]] + b[1..];
    }
  }
}
