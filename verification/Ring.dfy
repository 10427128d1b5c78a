/**
 The consistent-hash ring (key-value-store/MP2Node.cpp): nodes in the order of their hash codes, and the
 three that hold a key, found clockwise from the key's own hash code.
 */
module Rings {
  import opened Collections
  import opened Addresses

  datatype RingNode = RingNode(nodeAddress: Address, nodeHashCode: nat)

  /** Ascending, and no two nodes share a hash code or an address. */
  ghost predicate Ring(ring: seq<RingNode>)
  {
    forall i, j :: 0 <= i < j < |ring| ==>
      ring[i].nodeHashCode < ring[j].nodeHashCode && ring[i].nodeAddress != ring[j].nodeAddress
  }

  /** How many nodes come before the position `pos`. */
  function Before(ring: seq<RingNode>, pos: nat): (k: nat)
    ensures k <= |ring| && (forall i :: 0 <= i < k ==> ring[i].nodeHashCode < pos) && (k < |ring| ==> ring[k].nodeHashCode >= pos)
  {
    if ring == [] || ring[0].nodeHashCode >= pos then 0 else 1 + Before(ring[1..], pos)
  }

  /** All nodes, clockwise from `pos`. */
  function Clockwise(ring: seq<RingNode>, pos: nat): (r: seq<RingNode>)
    ensures |r| == |ring|
  {
    var k := Before(ring, pos);
    ring[k..] + ring[..k]
  }

  /** The holders of a key with hash code `pos`; none in a ring too small. */
  function Replicas(ring: seq<RingNode>, pos: nat): (r: seq<RingNode>)
    ensures |r| == if |ring| >= 3 then 3 else 0
  {
    if |ring| >= 3 then Clockwise(ring, pos)[..3] else []
  }

  lemma BeforeIs(ring: seq<RingNode>, pos: nat, k: nat)
    requires k <= |ring| && (forall i :: 0 <= i < k ==> ring[i].nodeHashCode < pos) && (k < |ring| ==> ring[k].nodeHashCode >= pos)
    ensures Before(ring, pos) == k
  {
  }

  /** A place less than twice round the ring. */
  lemma Round(x: nat, n: nat)
    requires x < 2 * n
    ensures x % n == if x < n then x else x - n
  {
    if x >= n {
      assert x == n + (x - n);
    }
  }

  lemma RotateAt(ring: seq<RingNode>, k: nat, j: nat)
    requires k <= |ring| && j < |ring|
    ensures (ring[k..] + ring[..k])[j] == ring[if k + j < |ring| then k + j else k + j - |ring|]
  {
  }

  lemma ClockwiseAt(ring: seq<RingNode>, pos: nat, j: nat)
    requires j < |ring|
    ensures Clockwise(ring, pos)[j] == ring[(Before(ring, pos) + j) % |ring|]
  {
    var k := Before(ring, pos);
    RotateAt(ring, k, j);
    Round(k + j, |ring|);
  }

  /** `findNodes`: the two ends are looked at first, then the ring is searched. */
  method FindNodes(ring: seq<RingNode>, pos: nat) returns (addrVec: seq<RingNode>)
    requires Ring(ring)
    ensures addrVec == Replicas(ring, pos)
  {
    addrVec := [];
    if |ring| >= 3 {
      if pos <= ring[0].nodeHashCode || pos > ring[|ring| - 1].nodeHashCode {
        FirstThree(ring, pos);
        addrVec := [ring[0], ring[1], ring[2]];
      } else {
        var i := 1;
        while pos > ring[i].nodeHashCode
          invariant 1 <= i < |ring| && forall j :: 0 <= j < i ==> ring[j].nodeHashCode < pos
          decreases |ring| - i
        {
          i := i + 1;
        }
        BeforeIs(ring, pos, i);
        ThreeFrom(ring, pos);
        addrVec := [ring[i], ring[(i + 1) % |ring|], ring[(i + 2) % |ring|]];
      }
    }
  }

  lemma FirstThree(ring: seq<RingNode>, pos: nat)
    requires Ring(ring) && |ring| >= 3 && (pos <= ring[0].nodeHashCode || pos > ring[|ring| - 1].nodeHashCode)
    ensures Replicas(ring, pos) == [ring[0], ring[1], ring[2]]
  {
    if pos <= ring[0].nodeHashCode {
      BeforeIs(ring, pos, 0);
    } else {
      forall i | 0 <= i < |ring| ensures ring[i].nodeHashCode < pos {
        assert i < |ring| - 1 ==> ring[i].nodeHashCode < ring[|ring| - 1].nodeHashCode;
      }
      BeforeIs(ring, pos, |ring|);
    }
  }

  lemma ThreeFrom(ring: seq<RingNode>, pos: nat)
    requires |ring| >= 3
    ensures var k := Before(ring, pos);
      Replicas(ring, pos) == [ring[k % |ring|], ring[(k + 1) % |ring|], ring[(k + 2) % |ring|]]
  {
    ReplicaAt(ring, pos, 0);
    ReplicaAt(ring, pos, 1);
    ReplicaAt(ring, pos, 2);
  }

  // ---------------------------------------------------------------- failures

  /** The ring without the nodes that have been removed. */
  function Survivors(ring: seq<RingNode>, removed: set<Address>): seq<RingNode>
  {
    if ring == [] then []
    else (if ring[0].nodeAddress in removed then [] else [ring[0]]) + Survivors(ring[1..], removed)
  }

  lemma {:induction false} SurvivorsAppend(x: seq<RingNode>, y: seq<RingNode>, removed: set<Address>)
    ensures Survivors(x + y, removed) == Survivors(x, removed) + Survivors(y, removed)
  {
    if x == [] {
      assert x + y == y;
    } else {
      SurvivorsAppend(x[1..], y, removed);
      assert (x + y)[1..] == x[1..] + y;
      Regroup(if x[0].nodeAddress in removed then [] else [x[0]], Survivors(x[1..], removed), Survivors(y, removed));
    }
  }

  lemma {:induction false} SurvivorsMembers(ring: seq<RingNode>, removed: set<Address>)
    ensures forall n :: n in Survivors(ring, removed) <==> n in ring && n.nodeAddress !in removed
    ensures |Survivors(ring, removed)| <= |ring|
    ensures (forall n :: n in ring ==> n.nodeAddress !in removed) <==> Survivors(ring, removed) == ring
  {
    if ring != [] {
      SurvivorsMembers(ring[1..], removed);
      assert ring == [ring[0]] + ring[1..];
      assert ring[0] in ring;
      if forall n :: n in ring ==> n.nodeAddress !in removed {
        assert forall n :: n in ring[1..] ==> n in ring;
      }
    }
  }

  lemma {:induction false} SurvivorsRing(ring: seq<RingNode>, removed: set<Address>)
    requires Ring(ring)
    ensures Ring(Survivors(ring, removed))
  {
    if ring != [] {
      SurvivorsRing(ring[1..], removed);
      SurvivorsMembers(ring[1..], removed);
      RingCons(ring, Survivors(ring[1..], removed));
    }
  }

  lemma RingCons(ring: seq<RingNode>, rest: seq<RingNode>)
    requires Ring(ring) && ring != [] && Ring(rest) && forall n :: n in rest ==> n in ring[1..]
    ensures Ring([ring[0]] + rest)
  {
    var r := [ring[0]] + rest;
    forall j | 0 < j < |r| ensures r[0].nodeHashCode < r[j].nodeHashCode && r[0].nodeAddress != r[j].nodeAddress {
      assert r[j] in rest;
      var k :| 0 <= k < |ring[1..]| && ring[1..][k] == r[j];
      assert ring[k + 1] == r[j];
    }
  }

  /**
   Failures commute with the ring: what is left, clockwise from any position, is the old order without
   the nodes removed.
   */
  lemma SurvivorsClockwise(ring: seq<RingNode>, pos: nat, removed: set<Address>)
    requires Ring(ring)
    ensures Clockwise(Survivors(ring, removed), pos) == Survivors(Clockwise(ring, pos), removed)
  {
    var k := Before(ring, pos);
    var x, y := ring[..k], ring[k..];
    var x', y' := Survivors(x, removed), Survivors(y, removed);
    assert ring == x + y;
    SurvivorsAppend(x, y, removed);
    SurvivorsAppend(y, x, removed);
    SurvivorsMembers(x, removed);
    SurvivorsMembers(y, removed);
    AtOrAfter(ring, pos, k);
    hide Survivors, Ring, Before;
    BeforeSplit(x', y', pos);
  }

  lemma AtOrAfter(ring: seq<RingNode>, pos: nat, k: nat)
    requires Ring(ring) && k == Before(ring, pos)
    ensures (forall n :: n in ring[..k] ==> n.nodeHashCode < pos) && (forall n :: n in ring[k..] ==> n.nodeHashCode >= pos)
  {
    forall n | n in ring[k..] ensures n.nodeHashCode >= pos {
      var j :| 0 <= j < |ring[k..]| && ring[k..][j] == n;
      assert j > 0 ==> ring[k].nodeHashCode < ring[k + j].nodeHashCode;
    }
  }

  lemma BeforeSplit(x: seq<RingNode>, y: seq<RingNode>, pos: nat)
    requires (forall n :: n in x ==> n.nodeHashCode < pos) && (forall n :: n in y ==> n.nodeHashCode >= pos)
    ensures Clockwise(x + y, pos) == y + x
  {
    forall i | 0 <= i < |x| ensures (x + y)[i].nodeHashCode < pos {
      assert (x + y)[i] in x;
    }
    if y != [] {
      assert (x + y)[|x|] in y;
    }
    BeforeIs(x + y, pos, |x|);
  }

  /** The surviving holders of a key come first among the new holders, in the old order. */
  lemma SurvivingReplicas(ring: seq<RingNode>, pos: nat, removed: set<Address>)
    requires Ring(ring) && |Survivors(ring, removed)| >= 3
    ensures |ring| >= 3 && |Survivors(Replicas(ring, pos), removed)| <= 3
    ensures Survivors(Replicas(ring, pos), removed) <= Replicas(Survivors(ring, removed), pos)
  {
    SurvivorsMembers(ring, removed);
    SurvivorsClockwise(ring, pos, removed);
    var c := Clockwise(ring, pos);
    assert c == c[..3] + c[3..];
    SurvivorsAppend(c[..3], c[3..], removed);
    SurvivorsMembers(c[..3], removed);
    PrefixOfThree(Survivors(c[..3], removed), Survivors(c[3..], removed));
  }

  lemma PrefixOfThree(x: seq<RingNode>, y: seq<RingNode>)
    requires |x| <= 3 <= |x + y|
    ensures x <= (x + y)[..3]
  {
  }

  /** A key changes hands exactly when one of its holders is removed. */
  lemma ReplicasChange(ring: seq<RingNode>, pos: nat, removed: set<Address>)
    requires Ring(ring) && |Survivors(ring, removed)| >= 3
    ensures Replicas(Survivors(ring, removed), pos) == Replicas(ring, pos) <==>
            forall n :: n in Replicas(ring, pos) ==> n.nodeAddress !in removed
  {
    SurvivingReplicas(ring, pos, removed);
    var old3, new3 := Replicas(ring, pos), Replicas(Survivors(ring, removed), pos);
    SurvivorsMembers(old3, removed);
    if n :| n in old3 && n.nodeAddress in removed {
      ReplicasAreMembers(Survivors(ring, removed), pos);
      SurvivorsMembers(ring, removed);
    }
  }

  lemma ReplicasAreMembers(ring: seq<RingNode>, pos: nat)
    ensures forall n :: n in Replicas(ring, pos) ==> n in ring
  {
    forall n | n in Replicas(ring, pos) ensures n in ring {
      var j :| 0 <= j < |Replicas(ring, pos)| && Replicas(ring, pos)[j] == n;
      ClockwiseAt(ring, pos, j);
    }
  }

  // ---------------------------------------------------------------- the order of the nodes

  /** Clockwise from `pos`, one node comes before the other, whatever ring they are in. */
  predicate Ahead(x: RingNode, y: RingNode, pos: nat)
  {
    if x.nodeHashCode >= pos <==> y.nodeHashCode >= pos then x.nodeHashCode < y.nodeHashCode else x.nodeHashCode >= pos
  }

  lemma ClockwiseOrder(ring: seq<RingNode>, pos: nat, i: nat, j: nat)
    requires Ring(ring) && i < j < |ring|
    ensures Ahead(Clockwise(ring, pos)[i], Clockwise(ring, pos)[j], pos)
  {
    var k := Before(ring, pos);
    RotateAt(ring, k, i);
    RotateAt(ring, k, j);
    assert k < |ring| ==> forall l :: k < l < |ring| ==> ring[k].nodeHashCode < ring[l].nodeHashCode;
  }

  lemma ClockwiseHas(ring: seq<RingNode>, pos: nat, x: RingNode) returns (i: nat)
    requires x in ring
    ensures i < |ring| && Clockwise(ring, pos)[i] == x
  {
    var k := Before(ring, pos);
    var j :| 0 <= j < |ring| && ring[j] == x;
    i := if j >= k then j - k else |ring| - k + j;
    RotateAt(ring, k, i);
  }

  /** A node that comes before a holder is a holder. */
  lemma AheadIsHolder(ring: seq<RingNode>, pos: nat, x: RingNode, j: nat)
    requires Ring(ring) && |ring| >= 3 && j < 3 && x in ring && Ahead(x, Replicas(ring, pos)[j], pos)
    ensures x in Replicas(ring, pos)
  {
    var i := ClockwiseHas(ring, pos, x);
    if i >= 3 {
      ClockwiseOrder(ring, pos, j, i);
    }
    assert i < 3 && Replicas(ring, pos)[i] == x;
  }

  /** The holders are the three nodes that come first clockwise from the hash code, in that order. */
  lemma HoldersAreNearest(ring: seq<RingNode>, pos: nat)
    requires Ring(ring) && |ring| >= 3
    ensures var r := Replicas(ring, pos);
      && (forall j :: 0 <= j < 3 ==> r[j] in ring) && Ahead(r[0], r[1], pos) && Ahead(r[1], r[2], pos)
      && (forall x :: x in ring && x !in r ==> Ahead(r[2], x, pos))
  {
    var r := Replicas(ring, pos);
    ReplicasAreMembers(ring, pos);
    assert forall j :: 0 <= j < 3 ==> Clockwise(ring, pos)[j] == r[j] && r[j] in r;
    ClockwiseOrder(ring, pos, 0, 1);
    ClockwiseOrder(ring, pos, 1, 2);
    forall x | x in ring && x !in r ensures Ahead(r[2], x, pos) {
      var i := ClockwiseHas(ring, pos, x);
      ClockwiseOrder(ring, pos, 2, i);
    }
  }

  // ---------------------------------------------------------------- positions in the ring

  /** `find_position` by address: the first place, or -1. */
  function Position(a: Address, ring: seq<RingNode>): (i: int)
    ensures -1 <= i < |ring| && (i >= 0 ==> ring[i].nodeAddress == a)
    ensures i == -1 <==> forall n :: n in ring ==> n.nodeAddress != a
  {
    if ring == [] then -1
    else if ring[0].nodeAddress == a then 0
    else
      var i := Position(a, ring[1..]);
      assert ring == [ring[0]] + ring[1..];
      if i == -1 then -1 else i + 1
  }

  method FindPosition(a: Address, list: seq<RingNode>) returns (i: int)
    requires Ring(list)
    ensures i == Position(a, list)
  {
    i := 0;
    while i < |list|
      invariant 0 <= i <= |list| && forall j :: 0 <= j < i ==> list[j].nodeAddress != a
    {
      if a == list[i].nodeAddress {
        PositionIs(a, list, i);
        return;
      }
      i := i + 1;
    }
    i := -1;
  }

  lemma PositionIs(a: Address, ring: seq<RingNode>, i: nat)
    requires Ring(ring) && i < |ring| && ring[i].nodeAddress == a
    ensures Position(a, ring) == i
  {
    assert ring[i] in ring;
  }

  /** The node `d` places before the node `a` in the ring. */
  function Predecessor(a: Address, ring: seq<RingNode>, d: nat): Address
    requires 1 <= d < |ring|
  {
    ring[(Position(a, ring) + |ring| - d) % |ring|].nodeAddress
  }

  /** The predecessors in the ring are the earlier replicas: going back by places undoes going clockwise. */
  lemma PredecessorIsReplica(ring: seq<RingNode>, pos: nat, p: nat, d: nat)
    requires Ring(ring) && |ring| >= 3 && p < 3 && 1 <= d <= p
    ensures Predecessor(Replicas(ring, pos)[p].nodeAddress, ring, d) == Replicas(ring, pos)[p - d].nodeAddress
  {
    hide *;
    ReplicaAt(ring, pos, p);
    ReplicaAt(ring, pos, p - d);
    PredecessorAt(ring, Place(ring, pos, p), d);
    PlaceBack(ring, pos, p, d);
  }

  lemma PlaceBack(ring: seq<RingNode>, pos: nat, p: nat, d: nat)
    requires |ring| >= 3 && p < 3 && 1 <= d <= p
    ensures (Place(ring, pos, p) + |ring| - d) % |ring| == Place(ring, pos, p - d)
  {
    BackAndForth(Before(ring, pos), p, d, |ring|);
  }

  /** Where in the ring the replica `j` is. */
  function Place(ring: seq<RingNode>, pos: nat, j: nat): (i: nat)
    requires ring != []
    ensures i < |ring|
  {
    (Before(ring, pos) + j) % |ring|
  }

  lemma PredecessorAt(ring: seq<RingNode>, i: nat, d: nat)
    requires Ring(ring) && i < |ring| && 1 <= d < |ring|
    ensures Predecessor(ring[i].nodeAddress, ring, d) == ring[(i + |ring| - d) % |ring|].nodeAddress
  {
    PositionIs(ring[i].nodeAddress, ring, i);
  }

  lemma ReplicaAt(ring: seq<RingNode>, pos: nat, j: nat)
    requires |ring| >= 3 && j < 3
    ensures Replicas(ring, pos)[j] == ring[Place(ring, pos, j)]
  {
    ClockwiseAt(ring, pos, j);
  }

  lemma BackAndForth(k: nat, p: nat, d: nat, n: nat)
    requires n >= 3 && k <= n && p < 3 && 1 <= d <= p
    ensures ((k + p) % n + n - d) % n == (k + p - d) % n
  {
    Round(k + p, n);
    Round(k + p - d, n);
    Round((k + p) % n + n - d, n);
  }

  // ---------------------------------------------------------------- has the ring changed?

  predicate ShareHash(ring1: seq<RingNode>, ring2: seq<RingNode>)
  {
    exists i, j :: 0 <= i < |ring1| && 0 <= j < |ring2| && ring1[i].nodeHashCode == ring2[j].nodeHashCode
  }

  method RingChanged(ring1: seq<RingNode>, ring2: seq<RingNode>) returns (changed: bool)
    ensures changed <==> |ring1| != |ring2| || ShareHash(ring1, ring2)
  {
    if |ring1| != |ring2| {
      return true;
    }
    for i := 0 to |ring1|
      invariant forall k, j :: 0 <= k < i && 0 <= j < |ring2| ==> ring1[k].nodeHashCode != ring2[j].nodeHashCode
    {
      for j := 0 to |ring2|
        invariant forall l :: 0 <= l < j ==> ring1[i].nodeHashCode != ring2[l].nodeHashCode
      {
        if ring1[i].nodeHashCode == ring2[j].nodeHashCode {
          return true;
        }
      }
    }
    changed := false;
  }

  /** With a node in common, as a node itself always is, the answer is yes, changed or not. */
  lemma AlwaysChanged(ring1: seq<RingNode>, ring2: seq<RingNode>, n: RingNode)
    requires n in ring1 && n in ring2
    ensures ShareHash(ring1, ring2)
  {
    var i :| 0 <= i < |ring1| && ring1[i] == n;
    var j :| 0 <= j < |ring2| && ring2[j] == n;
  }

  function HashCodes(ring: seq<RingNode>): set<nat>
  {
    set n | n in ring :: n.nodeHashCode
  }

  /** Among rings of one size the answer is no exactly if they have no hash code in common: a wholly new ring is taken for the old one. */
  lemma NewRingUnnoticed(ring1: seq<RingNode>, ring2: seq<RingNode>)
    ensures ShareHash(ring1, ring2) <==> HashCodes(ring1) * HashCodes(ring2) != {}
  {
    if ShareHash(ring1, ring2) {
      var i, j :| 0 <= i < |ring1| && 0 <= j < |ring2| && ring1[i].nodeHashCode == ring2[j].nodeHashCode;
      assert ring1[i] in ring1 && ring2[j] in ring2;
      assert ring1[i].nodeHashCode in HashCodes(ring1) * HashCodes(ring2);
    }
    if HashCodes(ring1) * HashCodes(ring2) != {} {
      var code :| code in HashCodes(ring1) * HashCodes(ring2);
      var x :| x in ring1 && x.nodeHashCode == code;
      var y :| y in ring2 && y.nodeHashCode == code;
      var i :| 0 <= i < |ring1| && ring1[i] == x;
      var j :| 0 <= j < |ring2| && ring2[j] == y;
    }
  }

  // ---------------------------------------------------------------- sorting

  function Insert(n: RingNode, sorted: seq<RingNode>): (r: seq<RingNode>)
    ensures multiset(r) == multiset(sorted) + multiset{n}
  {
    if sorted == [] || n.nodeHashCode < sorted[0].nodeHashCode then [n] + sorted
    else
      assert sorted == [sorted[0]] + sorted[1..];
      [sorted[0]] + Insert(n, sorted[1..])
  }

  /** `sort`, by hash code. */
  function Sort(nodes: seq<RingNode>): (r: seq<RingNode>)
    ensures multiset(r) == multiset(nodes)
  {
    if nodes == [] then []
    else
      assert nodes == nodes[..|nodes| - 1] + [nodes[|nodes| - 1]];
      Insert(nodes[|nodes| - 1], Sort(nodes[..|nodes| - 1]))
  }

  /** No two nodes share a hash code or an address. */
  ghost predicate AllDistinct(nodes: seq<RingNode>)
  {
    forall i, j :: 0 <= i < j < |nodes| ==>
      nodes[i].nodeHashCode != nodes[j].nodeHashCode && nodes[i].nodeAddress != nodes[j].nodeAddress
  }

  ghost predicate Apart(n: RingNode, nodes: seq<RingNode>)
  {
    forall x :: x in nodes ==> x.nodeHashCode != n.nodeHashCode && x.nodeAddress != n.nodeAddress
  }

  lemma {:induction false} InsertKeepsRing(n: RingNode, sorted: seq<RingNode>)
    requires Ring(sorted) && Apart(n, sorted)
    ensures Ring(Insert(n, sorted)) && forall x :: x in Insert(n, sorted) <==> x == n || x in sorted
  {
    MembersOfInsert(n, sorted);
    if sorted != [] && n.nodeHashCode >= sorted[0].nodeHashCode {
      var rest := sorted[1..];
      assert sorted == [sorted[0]] + rest;
      assert Ring(rest);
      InsertKeepsRing(n, rest);
      assert sorted[0] in sorted;
      FirstStaysFirst(sorted[0], Insert(n, rest), n, rest);
    } else if sorted != [] {
      InsertFirst(n, sorted);
    }
  }

  lemma InsertFirst(n: RingNode, sorted: seq<RingNode>)
    requires Ring(sorted) && sorted != [] && n.nodeHashCode < sorted[0].nodeHashCode && Apart(n, sorted)
    ensures Ring([n] + sorted)
  {
    var r := [n] + sorted;
    forall j | 0 < j < |r| ensures n.nodeHashCode < r[j].nodeHashCode && n.nodeAddress != r[j].nodeAddress {
      assert r[j] == sorted[j - 1] && r[j] in sorted;
    }
  }

  lemma FirstStaysFirst(first: RingNode, r: seq<RingNode>, n: RingNode, rest: seq<RingNode>)
    requires Ring([first] + rest) && Ring(r) && first.nodeHashCode < n.nodeHashCode && first.nodeAddress != n.nodeAddress
    requires forall x :: x in r <==> x == n || x in rest
    ensures Ring([first] + r)
  {
    var whole := [first] + r;
    forall j | 0 < j < |whole| ensures first.nodeHashCode < whole[j].nodeHashCode && first.nodeAddress != whole[j].nodeAddress {
      assert whole[j] in r;
      if whole[j] != n {
        var k :| 0 <= k < |rest| && rest[k] == whole[j];
        assert ([first] + rest)[k + 1] == whole[j] && ([first] + rest)[0] == first;
      }
    }
  }

  lemma MembersOfInsert(n: RingNode, sorted: seq<RingNode>)
    ensures forall x :: x in Insert(n, sorted) <==> x == n || x in sorted
  {
    forall x ensures x in Insert(n, sorted) <==> x == n || x in sorted {
      assert x in Insert(n, sorted) <==> x in multiset(Insert(n, sorted));
      assert x in sorted <==> x in multiset(sorted);
    }
  }

  lemma SortMembers(nodes: seq<RingNode>)
    ensures forall x :: x in Sort(nodes) <==> x in nodes
  {
    forall x ensures x in Sort(nodes) <==> x in nodes {
      assert x in Sort(nodes) <==> x in multiset(Sort(nodes));
      assert x in nodes <==> x in multiset(nodes);
    }
  }

  lemma LastApart(nodes: seq<RingNode>)
    requires AllDistinct(nodes) && nodes != []
    ensures Apart(nodes[|nodes| - 1], nodes[..|nodes| - 1])
  {
    var n := |nodes| - 1;
    forall x | x in nodes[..n] ensures x.nodeHashCode != nodes[n].nodeHashCode && x.nodeAddress != nodes[n].nodeAddress {
      var i :| 0 <= i < n && nodes[..n][i] == x;
      assert nodes[i] == x;
    }
  }

  /** Sorting nodes with different hash codes and addresses makes a ring of them. */
  lemma {:induction false} SortIsRing(nodes: seq<RingNode>)
    requires AllDistinct(nodes)
    ensures Ring(Sort(nodes))
  {
    if nodes != [] {
      var n := |nodes| - 1;
      SortIsRing(nodes[..n]);
      SortMembers(nodes[..n]);
      LastApart(nodes);
      InsertKeepsRing(nodes[n], Sort(nodes[..n]));
    }
  }

  lemma RingFront(ring: seq<RingNode>)
    requires Ring(ring) && ring != []
    ensures var n := |ring| - 1;
      Ring(ring[..n]) && (forall i :: 0 <= i < n ==> ring[..n][i].nodeHashCode < ring[n].nodeHashCode) && ring == ring[..n] + [ring[n]]
  {
  }

  lemma SortLast(nodes: seq<RingNode>)
    requires nodes != []
    ensures Sort(nodes) == Insert(nodes[|nodes| - 1], Sort(nodes[..|nodes| - 1]))
  {
  }

  /** A ring is already sorted. */
  lemma {:induction false} SortOfRing(ring: seq<RingNode>)
    requires Ring(ring)
    ensures Sort(ring) == ring
  {
    if ring != [] {
      var n := |ring| - 1;
      RingFront(ring);
      SortOfRing(ring[..n]);
      SortLast(ring);
      InsertLast(ring[n], ring[..n]);
    }
  }

  lemma {:induction false} InsertLast(n: RingNode, ring: seq<RingNode>)
    requires forall i :: 0 <= i < |ring| ==> ring[i].nodeHashCode < n.nodeHashCode
    ensures Insert(n, ring) == ring + [n]
  {
    if ring != [] {
      InsertLast(n, ring[1..]);
      assert ring == [ring[0]] + ring[1..];
    }
  }
}
