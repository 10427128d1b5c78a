/**
 Re-replication after a change of the ring (key-value-store/MP2Node.cpp, stabilizationProtocol): what a
 node does, for one of its keys, with its own copy and to the other nodes.
 */
module Stabilization {
  import opened Addresses
  import opened Rings
  import opened Messages

  const PRIMARY := 0
  const SECONDARY := 1
  const TERTIARY := 2

  /** A copy of the entry that is sent to a node, to be created or updated there. */
  datatype Copy = Copy(kind: int, to: Address, role: int)

  /** The own copy is rewritten with a role, or dropped; and what is sent. */
  datatype Plan = Keep(role: int, sends: seq<Copy>) | Drop(sends: seq<Copy>)

  /** The holders of a key, primary first. */
  datatype Trio = Trio(first: Address, second: Address, third: Address)

  /** The two nodes before this one, in the old ring and in the new. */
  datatype Neighbours = Neighbours(old1: Address, old2: Address, new1: Address, new2: Address)

  function TrioOf(replicas: seq<RingNode>): Trio
    requires |replicas| == 3
  {
    Trio(replicas[0].nodeAddress, replicas[1].nodeAddress, replicas[2].nodeAddress)
  }

  predicate Among(a: Address, t: Trio)
  {
    a == t.first || a == t.second || a == t.third
  }

  /** The last place of `me` among the three, or -1. */
  function RoleOf(me: Address, t: Trio): (i: int)
    ensures -1 <= i <= 2 && (i == -1 <==> !Among(me, t))
  {
    if t.third == me then 2 else if t.second == me then 1 else if t.first == me then 0 else -1
  }

  /** A holder takes over this role from another one, or is new in it. */
  function Refill(was: Address, other: Address, now: Address, role: int): seq<Copy>
  {
    if now == other then [Copy(UPDATE, other, role)]
    else if was != now then [Copy(CREATE, now, role)]
    else []
  }

  function Moved(was: Address, now: Address, to: Address, role: int): seq<Copy>
  {
    if was != now then [Copy(CREATE, to, role)] else []
  }

  function PlanOf(me: Address, o: Trio, n: Trio, b: Neighbours): Plan
  {
    var i := RoleOf(me, n);
    if i == -1 then Drop([Copy(CREATE, n.first, PRIMARY), Copy(CREATE, n.second, SECONDARY), Copy(CREATE, n.third, TERTIARY)])
    else if i == 0 then
      Keep(PRIMARY, Refill(o.second, o.third, n.second, SECONDARY) + Refill(o.third, o.second, n.third, TERTIARY))
    else if i == 1 then
      Keep(SECONDARY, Moved(o.second, n.second, n.second, TERTIARY) + Moved(b.old1, b.new1, b.new1, PRIMARY))
    else
      Keep(TERTIARY, Moved(b.old2, b.new2, b.new2, PRIMARY) + Moved(b.old1, b.new1, b.new1, SECONDARY))
  }

  function NeighboursOf(me: Address, ring: seq<RingNode>, newRing: seq<RingNode>): Neighbours
    requires |ring| >= 3 && |newRing| >= 3
  {
    Neighbours(Predecessor(me, ring, 1), Predecessor(me, ring, 2), Predecessor(me, newRing, 1), Predecessor(me, newRing, 2))
  }

  /** What node `me` does about a key with hash code `pos`. */
  function PlanFor(me: Address, ring: seq<RingNode>, newRing: seq<RingNode>, pos: nat): Plan
    requires |ring| >= 3 && |newRing| >= 3
  {
    PlanOf(me, TrioOf(Replicas(ring, pos)), TrioOf(Replicas(newRing, pos)), NeighboursOf(me, ring, newRing))
  }

  // ---------------------------------------------------------------- any change

  predicate AllDifferent(t: Trio)
  {
    t.first != t.second && t.first != t.third && t.second != t.third
  }

  lemma ReplicasDiffer(ring: seq<RingNode>, pos: nat)
    requires Ring(ring) && |ring| >= 3
    ensures AllDifferent(TrioOf(Replicas(ring, pos)))
  {
    ReplicaAt(ring, pos, 0);
    ReplicaAt(ring, pos, 1);
    ReplicaAt(ring, pos, 2);
    PlacesDiffer(Before(ring, pos), |ring|);
  }

  lemma PlacesDiffer(k: nat, n: nat)
    requires n >= 3 && k <= n
    ensures k % n != (k + 1) % n && k % n != (k + 2) % n && (k + 1) % n != (k + 2) % n
  {
    Round(k, n);
    Round(k + 1, n);
    Round(k + 2, n);
  }

  /** The nodes before a holder in the ring are the holders before it. */
  predicate NeighboursMatch(me: Address, n: Trio, before1: Address, before2: Address)
  {
    && (me == n.second ==> before1 == n.first)
    && (me == n.third ==> before1 == n.second && before2 == n.first)
  }

  lemma PredecessorsMatch(me: Address, ring: seq<RingNode>, pos: nat)
    requires Ring(ring) && |ring| >= 3
    ensures NeighboursMatch(me, TrioOf(Replicas(ring, pos)), Predecessor(me, ring, 1), Predecessor(me, ring, 2))
  {
    PredecessorIsReplica(ring, pos, 1, 1);
    PredecessorIsReplica(ring, pos, 2, 1);
    PredecessorIsReplica(ring, pos, 2, 2);
  }

  ghost predicate ToHolders(sends: seq<Copy>, n: Trio)
  {
    forall c :: c in sends ==> Among(c.to, n)
  }

  lemma PlanToHolders(me: Address, o: Trio, n: Trio, b: Neighbours)
    requires NeighboursMatch(me, n, b.new1, b.new2)
    ensures ToHolders(PlanOf(me, o, n, b).sends, n)
  {
  }

  /** Whatever the change, copies go only to the holders in the new ring, in all four branches. */
  lemma SendsToHolders(me: Address, ring: seq<RingNode>, newRing: seq<RingNode>, pos: nat)
    requires Ring(newRing) && |ring| >= 3 && |newRing| >= 3
    ensures ToHolders(PlanFor(me, ring, newRing, pos).sends, TrioOf(Replicas(newRing, pos)))
  {
    PredecessorsMatch(me, newRing, pos);
    PlanToHolders(me, TrioOf(Replicas(ring, pos)), TrioOf(Replicas(newRing, pos)), NeighboursOf(me, ring, newRing));
  }

  /** While the ring stays as it is, a holder sends nothing. */
  lemma QuietWhenUnchanged(me: Address, ring: seq<RingNode>, pos: nat)
    requires Ring(ring) && |ring| >= 3 && Among(me, TrioOf(Replicas(ring, pos)))
    ensures PlanFor(me, ring, ring, pos) == Keep(RoleOf(me, TrioOf(Replicas(ring, pos))), [])
  {
    ReplicasDiffer(ring, pos);
  }

  // ---------------------------------------------------------------- removals

  predicate Newcomer(a: Address, o: Trio)
  {
    !Among(a, o)
  }

  /** How the holders change when some of them are removed: the others move up, and newcomers follow. */
  predicate MovedUp(o: Trio, n: Trio, gone1: bool, gone2: bool, gone3: bool)
  {
    if !gone1 && !gone2 && !gone3 then n == o
    else if !gone1 && !gone2 then n.first == o.first && n.second == o.second && Newcomer(n.third, o)
    else if !gone1 && !gone3 then n.first == o.first && n.second == o.third && Newcomer(n.third, o)
    else if !gone2 && !gone3 then n.first == o.second && n.second == o.third && Newcomer(n.third, o)
    else
      && n.first == (if !gone1 then o.first else if !gone2 then o.second else o.third)
      && Newcomer(n.second, o) && Newcomer(n.third, o)
  }

  function LeftOf(r: seq<RingNode>, removed: set<Address>): seq<RingNode>
    requires |r| == 3
  {
    (if r[0].nodeAddress in removed then [] else [r[0]]) + (if r[1].nodeAddress in removed then [] else [r[1]])
    + (if r[2].nodeAddress in removed then [] else [r[2]])
  }

  lemma SurvivorsOfThree(r: seq<RingNode>, removed: set<Address>)
    requires |r| == 3
    ensures Survivors(r, removed) == LeftOf(r, removed)
  {
    SurvivorsAppend([r[0]], [r[1]], removed);
    SurvivorsAppend([r[0]] + [r[1]], [r[2]], removed);
    assert r == [r[0]] + [r[1]] + [r[2]];
    SurvivorsOfOne(r[0], removed);
    SurvivorsOfOne(r[1], removed);
    SurvivorsOfOne(r[2], removed);
  }

  lemma SurvivorsOfOne(n: RingNode, removed: set<Address>)
    ensures Survivors([n], removed) == if n.nodeAddress in removed then [] else [n]
  {
    assert [n][1..] == [];
  }

  lemma NotRemoved(newRing: seq<RingNode>, pos: nat, removed: set<Address>, ring: seq<RingNode>)
    requires newRing == Survivors(ring, removed) && |newRing| >= 3
    ensures forall j :: 0 <= j < 3 ==> Replicas(newRing, pos)[j].nodeAddress !in removed
  {
    SurvivorsMembers(ring, removed);
    ReplicasAreMembers(newRing, pos);
    forall j | 0 <= j < 3 ensures Replicas(newRing, pos)[j].nodeAddress !in removed {
      assert Replicas(newRing, pos)[j] in newRing;
    }
  }

  /** From the lists to the three addresses. */
  lemma PrefixMovesUp(old3: seq<RingNode>, new3: seq<RingNode>, removed: set<Address>)
    requires |old3| == |new3| == 3 && LeftOf(old3, removed) != [] && LeftOf(old3, removed) <= new3
    requires AllDifferent(TrioOf(new3)) && forall j :: 0 <= j < 3 ==> new3[j].nodeAddress !in removed
    ensures MovedUp(TrioOf(old3), TrioOf(new3), old3[0].nodeAddress in removed, old3[1].nodeAddress in removed,
                    old3[2].nodeAddress in removed)
  {
    var left := LeftOf(old3, removed);
    assert forall j :: 0 <= j < |left| ==> new3[j] == left[j];
    assert new3[0].nodeAddress !in removed && new3[1].nodeAddress !in removed && new3[2].nodeAddress !in removed;
  }

  lemma HoldersMoveUp(ring: seq<RingNode>, pos: nat, removed: set<Address>)
    requires Ring(ring) && |ring| >= 3 && |Survivors(ring, removed)| >= 3 && Survivors(Replicas(ring, pos), removed) != []
    ensures var o := TrioOf(Replicas(ring, pos));
      MovedUp(o, TrioOf(Replicas(Survivors(ring, removed), pos)), o.first in removed, o.second in removed, o.third in removed)
  {
    SurvivingReplicas(ring, pos, removed);
    SurvivorsRing(ring, removed);
    ReplicasDiffer(Survivors(ring, removed), pos);
    NotRemoved(Survivors(ring, removed), pos, removed, ring);
    SurvivorsOfThree(Replicas(ring, pos), removed);
    PrefixMovesUp(Replicas(ring, pos), Replicas(Survivors(ring, removed), pos), removed);
  }

  /** The entry is created at exactly the holders that were not holders before. */
  ghost predicate CreatesAtNewcomers(sends: seq<Copy>, o: Trio, n: Trio)
  {
    && (forall c :: c in sends && c.kind == CREATE ==> Among(c.to, n) && Newcomer(c.to, o))
    && (Newcomer(n.first, o) ==> CreatesAt(sends, n.first))
    && (Newcomer(n.second, o) ==> CreatesAt(sends, n.second))
    && (Newcomer(n.third, o) ==> CreatesAt(sends, n.third))
  }

  ghost predicate CreatesAt(sends: seq<Copy>, a: Address)
  {
    exists c :: c in sends && c.kind == CREATE && c.to == a
  }

  lemma RefillCreates(was: Address, other: Address, now: Address, role: int, sends: seq<Copy>, x: seq<Copy>, y: seq<Copy>)
    requires sends == x + Refill(was, other, now, role) + y && now != was && now != other
    ensures CreatesAt(sends, now)
  {
    assert Copy(CREATE, now, role) in sends;
  }

  lemma PrimaryRepairs(o: Trio, n: Trio, gone1: bool, gone2: bool, gone3: bool, b: Neighbours)
    requires MovedUp(o, n, gone1, gone2, gone3) && AllDifferent(o) && AllDifferent(n) && !(gone1 && gone2 && gone3)
    ensures var plan := PlanOf(n.first, o, n, b);
      plan.Keep? && plan.role == PRIMARY && CreatesAtNewcomers(plan.sends, o, n)
  {
    var x, y := Refill(o.second, o.third, n.second, SECONDARY), Refill(o.third, o.second, n.third, TERTIARY);
    var sends := PlanOf(n.first, o, n, b).sends;
    assert sends == x + y;
    assert sends == [] + x + y && sends == x + y + [];
    if Newcomer(n.second, o) {
      RefillCreates(o.second, o.third, n.second, SECONDARY, sends, [], y);
    }
    if Newcomer(n.third, o) {
      RefillCreates(o.third, o.second, n.third, TERTIARY, sends, x, []);
    }
  }

  lemma SurvivorKeeps(a: Address, o: Trio, n: Trio, gone1: bool, gone2: bool, gone3: bool, b: Neighbours)
    requires MovedUp(o, n, gone1, gone2, gone3)
    requires (a == o.first && !gone1) || (a == o.second && !gone2) || (a == o.third && !gone3)
    ensures PlanOf(a, o, n, b).Keep?
  {
  }

  /** Every holder left keeps the key. */
  lemma SurvivorsKeep(ring: seq<RingNode>, pos: nat, removed: set<Address>, a: Address)
    requires Ring(ring) && |ring| >= 3 && |Survivors(ring, removed)| >= 3
    requires Among(a, TrioOf(Replicas(ring, pos))) && a !in removed
    ensures PlanFor(a, ring, Survivors(ring, removed), pos).Keep?
  {
    var newRing := Survivors(ring, removed);
    var o, n := TrioOf(Replicas(ring, pos)), TrioOf(Replicas(newRing, pos));
    SurvivorsOfThree(Replicas(ring, pos), removed);
    HoldersMoveUp(ring, pos, removed);
    SurvivorKeeps(a, o, n, o.first in removed, o.second in removed, o.third in removed, NeighboursOf(a, ring, newRing));
  }

  lemma FirstLeft(r: seq<RingNode>, removed: set<Address>, n: Trio)
    requires |r| == 3 && LeftOf(r, removed) != []
    requires MovedUp(TrioOf(r), n, r[0].nodeAddress in removed, r[1].nodeAddress in removed, r[2].nodeAddress in removed)
    ensures n.first == LeftOf(r, removed)[0].nodeAddress
  {
  }

  /**
   After any removals that leave a holder, the first holder left is the new primary, and it sends the
   entry to exactly the holders that are new.
   */
  lemma RemovalIsRepaired(ring: seq<RingNode>, pos: nat, removed: set<Address>)
    requires Ring(ring) && |ring| >= 3 && |Survivors(ring, removed)| >= 3 && Survivors(Replicas(ring, pos), removed) != []
    ensures var newRing := Survivors(ring, removed);
      var o, n := TrioOf(Replicas(ring, pos)), TrioOf(Replicas(newRing, pos));
      var plan := PlanFor(n.first, ring, newRing, pos);
      && n.first == Survivors(Replicas(ring, pos), removed)[0].nodeAddress
      && plan.Keep? && plan.role == PRIMARY && CreatesAtNewcomers(plan.sends, o, n)
  {
    var newRing := Survivors(ring, removed);
    var o, n := TrioOf(Replicas(ring, pos)), TrioOf(Replicas(newRing, pos));
    HoldersMoveUp(ring, pos, removed);
    SurvivorsOfThree(Replicas(ring, pos), removed);
    FirstLeft(Replicas(ring, pos), removed, n);
    ReplicasDiffer(ring, pos);
    SurvivorsRing(ring, removed);
    ReplicasDiffer(newRing, pos);
    PrimaryRepairs(o, n, o.first in removed, o.second in removed, o.third in removed, NeighboursOf(n.first, ring, newRing));
  }

  // ---------------------------------------------------------------- nodes that join and fail

  /** The rings of one system: a node has the same hash code in both. */
  ghost predicate SameHashes(ring: seq<RingNode>, newRing: seq<RingNode>)
  {
    forall x, y :: x in ring && y in newRing && x.nodeAddress == y.nodeAddress ==> x == y
  }

  predicate In(a: Address, ring: seq<RingNode>)
  {
    exists x :: x in ring && x.nodeAddress == a
  }

  ghost predicate Changes(ring: seq<RingNode>, newRing: seq<RingNode>)
  {
    Ring(ring) && Ring(newRing) && |ring| >= 3 && |newRing| >= 3 && SameHashes(ring, newRing)
  }

  /** A new holder that comes before an old one was a holder itself, or was not in the ring. */
  lemma BeforeOldHolder(ring: seq<RingNode>, newRing: seq<RingNode>, pos: nat, i: nat, j: nat)
    requires Changes(ring, newRing) && i < j < 3
    requires var n, o := Replicas(newRing, pos), TrioOf(Replicas(ring, pos));
      Among(n[j].nodeAddress, o) && In(n[i].nodeAddress, ring)
    ensures Among(Replicas(newRing, pos)[i].nodeAddress, TrioOf(Replicas(ring, pos)))
  {
    hide Clockwise, Ahead, Ring;
    var o, n := Replicas(ring, pos), Replicas(newRing, pos);
    ReplicasAreMembers(ring, pos);
    ReplicasAreMembers(newRing, pos);
    ClockwiseOrder(newRing, pos, i, j);
    var k :| 0 <= k < 3 && o[k].nodeAddress == n[j].nodeAddress;
    var x :| x in ring && x.nodeAddress == n[i].nodeAddress;
    assert o[k] in ring && n[j] in newRing && n[i] in newRing;
    AheadIsHolder(ring, pos, x, k);
  }

  /** A predecessor is a node of the ring. */
  lemma PredecessorIn(a: Address, ring: seq<RingNode>, d: nat)
    requires 1 <= d < |ring|
    ensures In(Predecessor(a, ring, d), ring)
  {
    assert ring[(Position(a, ring) + |ring| - d) % |ring|] in ring;
  }

  /** What the sends depend on, when a holder comes after one that is new. */
  ghost predicate NewInFront(o: Trio, n: Trio, b: Neighbours)
  {
    && (Among(n.second, o) && !Among(n.first, o) ==> n.first != b.old1)
    && (Among(n.third, o) && !Among(n.first, o) ==> n.first != b.old2)
    && (Among(n.third, o) && !Among(n.second, o) ==> n.second != b.old1)
  }

  lemma NewcomersAreAdded(a: Address, ring: seq<RingNode>, newRing: seq<RingNode>, pos: nat)
    requires Changes(ring, newRing)
    ensures NewInFront(TrioOf(Replicas(ring, pos)), TrioOf(Replicas(newRing, pos)), NeighboursOf(a, ring, newRing))
  {
    hide Predecessor, Replicas, Ring;
    PredecessorIn(a, ring, 1);
    PredecessorIn(a, ring, 2);
    forall i: nat, j: nat | i < j < 3 && Among(Replicas(newRing, pos)[j].nodeAddress, TrioOf(Replicas(ring, pos)))
                            && In(Replicas(newRing, pos)[i].nodeAddress, ring)
      ensures Among(Replicas(newRing, pos)[i].nodeAddress, TrioOf(Replicas(ring, pos)))
    {
      BeforeOldHolder(ring, newRing, pos, i, j);
    }
  }

  lemma PlanCreates(a: Address, o: Trio, n: Trio, b: Neighbours, v: Address)
    requires NewInFront(o, n, b) && NeighboursMatch(a, n, b.new1, b.new2) && AllDifferent(n)
    requires Among(a, o) && Among(v, n) && Newcomer(v, o)
    ensures CreatesAt(PlanOf(a, o, n, b).sends, v) <==> !(a == n.second && v == n.third)
  {
    var sends := PlanOf(a, o, n, b).sends;
    if a == n.first || a == n.third {
      var role := RoleOf(v, n);
      assert Copy(CREATE, v, role) in sends;
    } else if a == n.second && v == n.first {
      assert Copy(CREATE, v, PRIMARY) in sends;
    } else if !Among(a, n) {
      assert Copy(CREATE, v, RoleOf(v, n)) in sends;
    }
  }

  /**
   Whatever nodes join and fail: an old holder creates the entry at every new one, except that the second
   of the new holders, which sends the third copy to itself, does not do so at the third.
   */
  lemma ChangeSends(a: Address, ring: seq<RingNode>, newRing: seq<RingNode>, pos: nat, v: Address)
    requires Changes(ring, newRing) && Among(a, TrioOf(Replicas(ring, pos)))
    requires Among(v, TrioOf(Replicas(newRing, pos))) && Newcomer(v, TrioOf(Replicas(ring, pos)))
    ensures var n := TrioOf(Replicas(newRing, pos));
      CreatesAt(PlanFor(a, ring, newRing, pos).sends, v) <==> !(a == n.second && v == n.third)
  {
    hide Predecessor, Replicas, Ring;
    NewcomersAreAdded(a, ring, newRing, pos);
    PredecessorsMatch(a, newRing, pos);
    ReplicasDiffer(newRing, pos);
    PlanCreates(a, TrioOf(Replicas(ring, pos)), TrioOf(Replicas(newRing, pos)), NeighboursOf(a, ring, newRing), v);
  }

  /** An old holder that is left creates the entry there. */
  ghost predicate Served(v: Address, ring: seq<RingNode>, newRing: seq<RingNode>, pos: nat)
    requires |ring| >= 3 && |newRing| >= 3
  {
    exists a :: Among(a, TrioOf(Replicas(ring, pos))) && In(a, newRing) && CreatesAt(PlanFor(a, ring, newRing, pos).sends, v)
  }

  /** The third of the new holders is new, and of the old ones only the now second is left. */
  ghost predicate OnlySecondIsLeft(ring: seq<RingNode>, newRing: seq<RingNode>, pos: nat)
    requires |ring| >= 3 && |newRing| >= 3
  {
    var o, n := TrioOf(Replicas(ring, pos)), TrioOf(Replicas(newRing, pos));
    Newcomer(n.third, o) && forall a :: Among(a, o) && In(a, newRing) ==> a == n.second
  }

  ghost predicate AllServed(ring: seq<RingNode>, newRing: seq<RingNode>, pos: nat)
    requires |ring| >= 3 && |newRing| >= 3
  {
    forall v :: Among(v, TrioOf(Replicas(newRing, pos))) && Newcomer(v, TrioOf(Replicas(ring, pos))) ==> Served(v, ring, newRing, pos)
  }

  /** While an old holder is left, all new ones are served unless the only one left is in second place, before a new one. */
  lemma ServedExactly(ring: seq<RingNode>, newRing: seq<RingNode>, pos: nat, left: Address)
    requires Changes(ring, newRing) && Among(left, TrioOf(Replicas(ring, pos))) && In(left, newRing)
    ensures AllServed(ring, newRing, pos) <==> !OnlySecondIsLeft(ring, newRing, pos)
    ensures OnlySecondIsLeft(ring, newRing, pos) ==> !Served(TrioOf(Replicas(newRing, pos)).third, ring, newRing, pos)
  {
    hide Replicas, PlanFor, CreatesAt;
    var o, n := TrioOf(Replicas(ring, pos)), TrioOf(Replicas(newRing, pos));
    forall a, v | Among(a, o) && Among(v, n) && Newcomer(v, o)
      ensures CreatesAt(PlanFor(a, ring, newRing, pos).sends, v) <==> !(a == n.second && v == n.third)
    {
      ChangeSends(a, ring, newRing, pos, v);
    }
    if OnlySecondIsLeft(ring, newRing, pos) {
      assert !Served(n.third, ring, newRing, pos);
    } else {
      forall v | Among(v, n) && Newcomer(v, o) ensures Served(v, ring, newRing, pos) {
        if v == n.third {
          var a :| Among(a, o) && In(a, newRing) && a != n.second;
        } else {
          assert CreatesAt(PlanFor(left, ring, newRing, pos).sends, v);
        }
      }
    }
  }

  /** While an old holder is left, joins alone leave nobody unserved, and neither do failures alone. */
  lemma OneKindServes(ring: seq<RingNode>, newRing: seq<RingNode>, pos: nat, left: Address)
    requires Changes(ring, newRing) && Among(left, TrioOf(Replicas(ring, pos))) && In(left, newRing)
    requires (forall x :: x in ring ==> x in newRing) || (forall x :: x in newRing ==> x in ring)
    ensures AllServed(ring, newRing, pos)
  {
    hide Ring, PlanFor;
    ServedExactly(ring, newRing, pos, left);
    var o, n := TrioOf(Replicas(ring, pos)), TrioOf(Replicas(newRing, pos));
    ReplicasAreMembers(ring, pos);
    ReplicasAreMembers(newRing, pos);
    ReplicasDiffer(ring, pos);
    if forall x :: x in ring ==> x in newRing {
      assert In(o.first, newRing) && In(o.second, newRing);
    } else if left == n.second {
      assert In(n.first, ring);
      BeforeOldHolder(ring, newRing, pos, 0, 1);
      ReplicasDiffer(newRing, pos);
      assert In(n.first, newRing);
    }
  }

  lemma FiveNodes(ring: seq<RingNode>, newRing: seq<RingNode>)
    requires |ring| == 4 && |newRing| == 3 && newRing[1] == ring[0] && newRing[2] == ring[3] && Ring(ring) && Ring(newRing)
    requires forall i :: 0 <= i < 4 ==> ring[i].nodeAddress != newRing[0].nodeAddress
    ensures SameHashes(ring, newRing)
  {
  }

  lemma AboutFive(ring: seq<RingNode>, newRing: seq<RingNode>)
    requires |ring| == 4 && |newRing| == 3 && newRing[1] == ring[0] && newRing[2] == ring[3] && Ring(ring) && Ring(newRing)
    requires forall i :: 0 <= i < 4 ==> ring[i].nodeAddress != newRing[0].nodeAddress
    requires Replicas(ring, 5) == ring[..3] && Replicas(newRing, 5) == newRing
    ensures Changes(ring, newRing) && OnlySecondIsLeft(ring, newRing, 5) && !Served(ring[3].nodeAddress, ring, newRing, 5)
  {
    hide Replicas, Served, AllServed;
    FiveNodes(ring, newRing);
    assert newRing[1] in newRing;
    ServedExactly(ring, newRing, 5, ring[0].nodeAddress);
  }

  /** Two holders fail while another node joins before the one left: the third new holder is sent nothing. */
  lemma ThirdIsNotServed(a: Address, b: Address, c: Address, d: Address, x: Address)
    requires |{a, b, c, d, x}| == 5
    ensures var ring := [RingNode(a, 10), RingNode(b, 20), RingNode(c, 30), RingNode(d, 40)];
      var newRing := [RingNode(x, 7), RingNode(a, 10), RingNode(d, 40)];
      Changes(ring, newRing) && OnlySecondIsLeft(ring, newRing, 5) && !Served(d, ring, newRing, 5)
  {
    var ring := [RingNode(a, 10), RingNode(b, 20), RingNode(c, 30), RingNode(d, 40)];
    var newRing := [RingNode(x, 7), RingNode(a, 10), RingNode(d, 40)];
    FirstThree(ring, 5);
    FirstThree(newRing, 5);
    hide SameHashes, OnlySecondIsLeft, Served, Replicas;
    AboutFive(ring, newRing);
  }

  // ---------------------------------------------------------------- who is told which role

  /** Every copy carries the role of its receiver, but for the third copy that a node new in second place sends itself. */
  lemma CopiesNameRoles(me: Address, ring: seq<RingNode>, newRing: seq<RingNode>, pos: nat, c: Copy)
    requires |ring| >= 3 && Ring(newRing) && |newRing| >= 3
    ensures var o, n, plan := TrioOf(Replicas(ring, pos)), TrioOf(Replicas(newRing, pos)), PlanFor(me, ring, newRing, pos);
      && (c in plan.sends && c.to != me ==> c.role == RoleOf(c.to, n))
      && (c in plan.sends && c.to == me ==> c == Copy(CREATE, me, TERTIARY) && me == n.second)
      && (me == n.second ==> (Copy(CREATE, me, TERTIARY) in plan.sends <==> me != o.second))
      && (plan.Keep? ==> plan.role == RoleOf(me, n))
  {
    hide Predecessor, Replicas, Ring;
    PredecessorsMatch(me, newRing, pos);
    ReplicasDiffer(newRing, pos);
  }

  /** A node that is no holder in the new ring gives the entry to the three that are, each in its role, and drops it. */
  lemma GivenUp(me: Address, ring: seq<RingNode>, newRing: seq<RingNode>, pos: nat)
    requires |ring| >= 3 && |newRing| >= 3
    ensures var n, plan := TrioOf(Replicas(newRing, pos)), PlanFor(me, ring, newRing, pos);
      plan.Drop? <==> !Among(me, n)
    ensures var n, plan := TrioOf(Replicas(newRing, pos)), PlanFor(me, ring, newRing, pos);
      plan.Drop? ==>
        multiset(plan.sends) == multiset{Copy(CREATE, n.first, PRIMARY), Copy(CREATE, n.second, SECONDARY), Copy(CREATE, n.third, TERTIARY)}
  {
  }

  ghost predicate Tells(sends: seq<Copy>, kind: int, a: Address)
  {
    exists c :: c in sends && c.kind == kind && c.to == a
  }

  /** The primary tells the two after it if their roles have changed: an old second or third is updated, others get the entry. */
  lemma PrimaryTells(o: Trio, n: Trio, b: Neighbours, a: Address)
    requires AllDifferent(o) && AllDifferent(n) && (a == n.second || a == n.third)
    ensures var sends := PlanOf(n.first, o, n, b).sends;
      && (Tells(sends, UPDATE, a) <==> RoleOf(a, o) != RoleOf(a, n) && RoleOf(a, o) >= SECONDARY)
      && (Tells(sends, CREATE, a) <==> RoleOf(a, o) != RoleOf(a, n) && RoleOf(a, o) < SECONDARY)
  {
    var sends := PlanOf(n.first, o, n, b).sends;
    var x, y := Refill(o.second, o.third, n.second, SECONDARY), Refill(o.third, o.second, n.third, TERTIARY);
    assert sends == x + y;
    assert forall c :: c in sends <==> c in x || c in y;
    var z := if a == n.second then x else y;
    assert forall c :: c in sends && c.to == a <==> c in z;
    if z != [] {
      assert z[0] in z;
    }
  }

  /** The second and third tell those before them just when these are not where they were, as seen from here. */
  lemma LaterTell(me: Address, ring: seq<RingNode>, newRing: seq<RingNode>, pos: nat, a: Address)
    requires Ring(newRing) && |ring| >= 3 && |newRing| >= 3
    requires var n := TrioOf(Replicas(newRing, pos));
      Among(me, n) && Among(a, n) && RoleOf(a, n) < RoleOf(me, n)
    ensures var n := TrioOf(Replicas(newRing, pos));
      var sends := PlanFor(me, ring, newRing, pos).sends;
      && (Tells(sends, CREATE, a) <==> Predecessor(me, ring, RoleOf(me, n) - RoleOf(a, n)) != a)
      && !Tells(sends, UPDATE, a)
  {
    hide Predecessor, Replicas, Ring;
    PredecessorsMatch(me, newRing, pos);
    ReplicasDiffer(newRing, pos);
    var n, sends := TrioOf(Replicas(newRing, pos)), PlanFor(me, ring, newRing, pos).sends;
    if Predecessor(me, ring, RoleOf(me, n) - RoleOf(a, n)) != a {
      assert Copy(CREATE, a, RoleOf(a, n)) in sends;
    }
  }
}
