/**
 Heartbeat flooding (membership-protocol/MP1Node.cpp): every message a node receives may make it send
 more. Without new pings, starts and removals this dies out, however messages are ordered or lost.
 */
module Flooding {
  import opened Addresses
  import opened Membership
  import opened Rounds

  /** A group in the middle of handling messages. */
  datatype Flood = Flood(now: int, nodes: seq<Node>, pending: seq<Send>)

  function Counters(nodes: seq<Node>): (caps: seq<int>)
    ensures |caps| == |nodes|
  {
    seq(|nodes|, i requires 0 <= i < |nodes| => nodes[i].heartbeat)
  }

  ghost predicate FloodOk(f: Flood)
  {
    && (forall i :: 0 <= i < |f.nodes| ==>
      && f.nodes[i].addr == NodeAddress(i + 1) && f.nodes[i].heartbeat >= 0
      && (f.nodes[i].table != [] ==> NodeOk(f.nodes[i], Counters(f.nodes), f.now + 1)))
    && SendsOk(f.pending, Counters(f.nodes))
  }

  function Without<T>(s: seq<T>, k: nat): seq<T>
    requires k < |s|
  {
    s[..k] + s[k + 1..]
  }

  /** The `k`-th pending message reaches node `i`; of what that sends, `kept` gets into the network. */
  ghost predicate Deliver(f: Flood, k: nat, i: nat, kept: seq<Send>, g: Flood)
  {
    && k < |f.pending| && i < |f.nodes| && f.nodes[i].table != [] && f.pending[k].to == f.nodes[i].addr && f.now <= g.now
    && var o := RecvCallBack(f.nodes[i], g.now, f.pending[k].msg);
    && g.nodes == f.nodes[i := o.node] && multiset(kept) <= multiset(o.sends)
    && g.pending == Without(f.pending, k) + kept
  }

  ghost predicate Lose(f: Flood, k: nat, g: Flood)
  {
    k < |f.pending| && f.now <= g.now && g.nodes == f.nodes && g.pending == Without(f.pending, k)
  }

  ghost predicate FloodStep(f: Flood, g: Flood)
  {
    (exists k, i, kept :: Deliver(f, k, i, kept, g)) || exists k :: Lose(f, k, g)
  }

  // ---------------------------------------------------------------- how much is left to learn

  function Known(table: seq<Entry>, a: Address): int
  {
    var k := IndexOf(table, a);
    if k < |table| then table[k].heartbeat + 1 else 0
  }

  /** What a node has still to learn of the first `m` nodes. */
  function NodeGap(table: seq<Entry>, caps: seq<int>, m: nat): int
    requires m <= |caps|
  {
    if m == 0 then 0 else NodeGap(table, caps, m - 1) + caps[m - 1] + 1 - Known(table, NodeAddress(m))
  }

  function TotalGap(nodes: seq<Node>, caps: seq<int>, m: nat): int
    requires m <= |nodes|
  {
    if m == 0 then 0 else TotalGap(nodes, caps, m - 1) + NodeGap(nodes[m - 1].table, caps, |caps|)
  }

  /** A join request counts twice, since it is answered. */
  function Weight(pending: seq<Send>): nat
  {
    if pending == [] then 0 else Weight(pending[1..]) + if pending[0].msg.kind == JoinReq then 2 else 1
  }

  function Measure(f: Flood): int
  {
    TotalGap(f.nodes, Counters(f.nodes), |f.nodes|) * (|f.nodes| + 1) + Weight(f.pending)
  }

  lemma KnownBounded(table: seq<Entry>, self: Address, caps: seq<int>, now: int, a: Address)
    requires table == [] || TableOk(table, self, caps, now)
    requires IsNode(a, |caps|) && caps[a.id - 1] >= 0
    ensures 0 <= Known(table, a) <= caps[a.id - 1] + 1
  {
    var k := IndexOf(table, a);
    if k < |table| {
      assert Credible(table[k].addr, table[k].heartbeat, caps);
    }
  }

  lemma {:induction false} NodeGapPositive(table: seq<Entry>, self: Address, caps: seq<int>, now: int, m: nat)
    requires table == [] || TableOk(table, self, caps, now)
    requires m <= |caps| && forall x :: 0 <= x < |caps| ==> caps[x] >= 0
    ensures NodeGap(table, caps, m) >= 0
  {
    if m > 0 {
      NodeGapPositive(table, self, caps, now, m - 1);
      KnownBounded(table, self, caps, now, NodeAddress(m));
    }
  }

  lemma OneGapPositive(f: Flood, i: nat)
    requires FloodOk(f) && i < |f.nodes|
    ensures NodeGap(f.nodes[i].table, Counters(f.nodes), |f.nodes|) >= 0
  {
    NodeGapPositive(f.nodes[i].table, f.nodes[i].addr, Counters(f.nodes), f.now + 1, |f.nodes|);
  }

  lemma {:induction false} TotalGapPositive(f: Flood, m: nat)
    requires FloodOk(f) && m <= |f.nodes|
    ensures TotalGap(f.nodes, Counters(f.nodes), m) >= 0
  {
    hide FloodOk, NodeGap, Counters;
    if m > 0 {
      TotalGapPositive(f, m - 1);
      OneGapPositive(f, m - 1);
    }
  }

  /** Knowing more of one node and as much of the others. */
  lemma {:induction false} NodeGapSmaller(table: seq<Entry>, table': seq<Entry>, caps: seq<int>, a: Address, m: nat)
    requires m <= |caps| && IsNode(a, |caps|)
    requires forall b :: b != a ==> Known(table', b) == Known(table, b)
    ensures NodeGap(table', caps, m) == NodeGap(table, caps, m) - if a.id <= m then Known(table', a) - Known(table, a) else 0
  {
    if m > 0 {
      NodeGapSmaller(table, table', caps, a, m - 1);
    }
  }

  lemma {:induction false} TotalGapAt(nodes: seq<Node>, nodes': seq<Node>, caps: seq<int>, i: nat, m: nat)
    requires |nodes| == |nodes'| && m <= |nodes| && i < |nodes|
    requires forall j :: 0 <= j < |nodes| && j != i ==> nodes[j] == nodes'[j]
    ensures TotalGap(nodes', caps, m) == TotalGap(nodes, caps, m) +
      if i < m then NodeGap(nodes'[i].table, caps, |caps|) - NodeGap(nodes[i].table, caps, |caps|) else 0
  {
    if m > 0 {
      TotalGapAt(nodes, nodes', caps, i, m - 1);
    }
  }

  lemma {:induction false} WeightAppend(p: seq<Send>, q: seq<Send>)
    ensures Weight(p + q) == Weight(p) + Weight(q)
  {
    if p == [] {
      assert p + q == q;
    } else {
      WeightAppend(p[1..], q);
      assert (p + q)[1..] == p[1..] + q;
    }
  }

  lemma WeightMiddle(x: seq<Send>, e: Send, y: seq<Send>)
    ensures Weight(x + ([e] + y)) == Weight(x + y) + if e.msg.kind == JoinReq then 2 else 1
  {
    WeightAppend(x, y);
    WeightAppend(x, [e] + y);
    assert ([e] + y)[1..] == y;
  }

  lemma WeightWithout(pending: seq<Send>, k: nat)
    requires k < |pending|
    ensures Weight(pending) == Weight(Without(pending, k)) + if pending[k].msg.kind == JoinReq then 2 else 1
  {
    WeightMiddle(pending[..k], pending[k], pending[k + 1..]);
    Reassembled(pending, k);
  }

  lemma Reassembled<T>(s: seq<T>, k: nat)
    requires k < |s|
    ensures s == s[..k] + ([s[k]] + s[k + 1..])
  {
  }

  lemma {:induction false} WeightOfReplies(sends: seq<Send>)
    requires forall x :: x in sends ==> x.msg.kind != JoinReq
    ensures Weight(sends) == |sends|
  {
    if sends != [] {
      assert sends[0] in sends;
      forall x | x in sends[1..] ensures x.msg.kind != JoinReq {
        assert x in sends;
      }
      WeightOfReplies(sends[1..]);
    }
  }

  lemma KeptSmaller(kept: seq<Send>, sends: seq<Send>)
    requires multiset(kept) <= multiset(sends)
    ensures |kept| <= |sends| && forall x :: x in kept ==> x in sends
  {
    assert multiset(sends) == multiset(kept) + (multiset(sends) - multiset(kept));
    assert |multiset(sends)| == |multiset(kept)| + |multiset(sends) - multiset(kept)|;
    forall x | x in kept ensures x in sends {
      assert x in multiset(kept);
    }
  }

  // ---------------------------------------------------------------- a list is no longer than the group

  lemma {:induction false} Pigeonhole(ids: seq<int>, n: nat)
    requires forall i :: 0 <= i < |ids| ==> 1 <= ids[i] <= n
    requires forall i, j :: 0 <= i < j < |ids| ==> ids[i] != ids[j]
    ensures |ids| <= n
  {
    if |ids| > 0 {
      assert 1 <= ids[0] <= n;
      if n in ids {
        var k :| 0 <= k < |ids| && ids[k] == n;
        var rest := Without(ids, k);
        forall i | 0 <= i < |rest| ensures rest[i] == ids[if i < k then i else i + 1] {
        }
        Pigeonhole(rest, n - 1);
      } else {
        assert forall i :: 0 <= i < |ids| ==> ids[i] in ids;
        Pigeonhole(ids, n - 1);
      }
    }
  }

  lemma TableSize(table: seq<Entry>, self: Address, caps: seq<int>, now: int)
    requires TableOk(table, self, caps, now)
    ensures |table| <= |caps|
  {
    var ids := seq(|table|, k requires 0 <= k < |table| => table[k].addr.id);
    forall k | 0 <= k < |ids| ensures 1 <= ids[k] <= |caps| && table[k].addr == NodeAddress(ids[k]) {
      assert Credible(table[k].addr, table[k].heartbeat, caps);
    }
    forall i, j | 0 <= i < j < |ids| ensures ids[i] != ids[j] {
      assert table[i].addr != table[j].addr;
    }
    Pigeonhole(ids, |caps|);
  }

  // ---------------------------------------------------------------- one delivery

  lemma {:induction false} FindOther(table: seq<Entry>, table': seq<Entry>, a: Address, b: Address)
    requires a != b
    requires |table| <= |table'|
    requires forall k :: 0 <= k < |table'| ==> (k < |table| && table'[k] == table[k]) || (table'[k].addr == a && (k < |table| ==> table[k].addr == a))
    ensures Known(table', b) == Known(table, b)
  {
    var k := IndexOf(table, b);
    var k' := IndexOf(table', b);
    if k' < |table'| {
      assert k' < |table| && table[k'] == table'[k'];
    }
    if k < |table| {
      assert table'[k] == table[k];
    }
  }

  /** Either nothing is learned and nothing passed on, or something is learned and passed on to the members. */
  lemma Learned(n: Node, now: int, a: Address, h: int, caps: seq<int>)
    requires NodeOk(n, caps, now + 1) && Credible(a, h, caps)
    ensures var o := UpdateMembership(n, now, a, h);
      && (forall b :: b != a ==> Known(o.node.table, b) == Known(n.table, b))
      && (Known(o.node.table, a) > Known(n.table, a) || (o.node == n && o.sends == []))
      && |o.sends| <= |caps| && forall x :: x in o.sends ==> x.msg.kind == Heartbeat
  {
    var o := UpdateMembership(n, now, a, h);
    TableSize(n.table, n.addr, caps, now + 1);
    forall b | b != a ensures Known(o.node.table, b) == Known(n.table, b) {
      FindOther(n.table, o.node.table, a, b);
    }
    KnownAfter(n, now, a, h);
  }

  lemma KnownAfter(n: Node, now: int, a: Address, h: int)
    requires h >= 0
    ensures var o := UpdateMembership(n, now, a, h);
      Known(o.node.table, a) > Known(n.table, a) || (o.node == n && o.sends == [])
  {
    var o := UpdateMembership(n, now, a, h);
    var k := IndexOf(n.table, a);
    var k' := IndexOf(o.node.table, a);
    if k < |n.table| && h > n.table[k].heartbeat {
      assert o.node.table[k].addr == a;
      assert k' == k;
    } else if k == |n.table| {
      assert o.node.table[k].addr == a;
      assert k' == k;
    }
  }

  lemma Replies(n: Node, now: int, m: Msg, caps: seq<int>)
    requires NodeOk(n, caps, now + 1) && MsgOk(m, caps)
    ensures var o := RecvCallBack(n, now, m);
      var gain := Known(o.node.table, m.source) - Known(n.table, m.source);
      && (forall b :: b != m.source ==> Known(o.node.table, b) == Known(n.table, b))
      && gain >= 0 && |o.sends| <= (if gain > 0 then |caps| else 0) + (if m.kind == JoinReq then 1 else 0)
      && forall x :: x in o.sends ==> x.msg.kind != JoinReq
  {
    Learned(n, now, m.source, m.heartbeat, caps);
    Learned(n.(inGroup := true), now, m.source, m.heartbeat, caps);
  }

  lemma DeliverKeepsOk(f: Flood, k: nat, i: nat, kept: seq<Send>, g: Flood)
    requires FloodOk(f) && Deliver(f, k, i, kept, g)
    ensures FloodOk(g) && Counters(g.nodes) == Counters(f.nodes)
    ensures NodeOk(f.nodes[i], Counters(f.nodes), g.now + 1) && MsgOk(f.pending[k].msg, Counters(f.nodes))
  {
    var caps := Counters(f.nodes);
    forall j | 0 <= j < |f.nodes| && f.nodes[j].table != [] ensures NodeOk(f.nodes[j], caps, g.now + 1) {
      NodeUntil(f.nodes[j], caps, f.now + 1, g.now + 1);
    }
    assert SendOk(f.pending[k], caps);
    RecvOk(f.nodes[i], g.now, f.pending[k].msg, caps);
    assert Counters(g.nodes) == caps;
    KeptSmaller(kept, RecvCallBack(f.nodes[i], g.now, f.pending[k].msg).sends);
    SendsKept(f.pending, k, RecvCallBack(f.nodes[i], g.now, f.pending[k].msg).sends, kept, caps);
  }

  lemma NodeUntil(n: Node, caps: seq<int>, now: int, later: int)
    requires NodeOk(n, caps, now) && now <= later
    ensures NodeOk(n, caps, later)
  {
  }

  lemma SendsKept(pending: seq<Send>, k: nat, sends: seq<Send>, kept: seq<Send>, caps: seq<int>)
    requires k < |pending| && SendsOk(pending, caps) && SendsOk(sends, caps) && forall x :: x in kept ==> x in sends
    ensures SendsOk(Without(pending, k) + kept, caps)
  {
    forall j | 0 <= j < |kept| ensures SendOk(kept[j], caps) {
      assert kept[j] in sends;
    }
  }

  lemma TimesAtLeast(x: int, y: int, z: nat)
    requires x + 1 <= y
    ensures x * z + z <= y * z
  {
    var d := y - x - 1;
    assert y * z == (x + 1 + d) * z == x * z + z + d * z;
    assert d * z >= 0;
  }

  lemma Product(gap: int, gap': int, size: nat, w: int, w': int)
    requires gap' <= gap && (if gap' == gap then w' < w else w' < w + size + 1)
    ensures gap' * (size + 1) + w' < gap * (size + 1) + w
  {
    var z: nat := size + 1;
    if gap' < gap {
      TimesAtLeast(gap', gap, z);
    }
  }

  lemma DeliverGap(f: Flood, k: nat, i: nat, kept: seq<Send>, g: Flood, caps: seq<int>)
    requires FloodOk(f) && Deliver(f, k, i, kept, g) && caps == Counters(f.nodes)
    requires NodeOk(f.nodes[i], caps, g.now + 1) && MsgOk(f.pending[k].msg, caps)
    ensures var m := f.pending[k].msg;
      var o := RecvCallBack(f.nodes[i], g.now, m);
      var gain := TotalGap(f.nodes, caps, |caps|) - TotalGap(g.nodes, caps, |caps|);
      && gain >= 0 && |o.sends| <= (if gain > 0 then |caps| else 0) + (if m.kind == JoinReq then 1 else 0)
      && forall x :: x in o.sends ==> x.msg.kind != JoinReq
  {
    var m := f.pending[k].msg;
    Replies(f.nodes[i], g.now, m, caps);
    NodeGapSmaller(f.nodes[i].table, g.nodes[i].table, caps, m.source, |caps|);
    TotalGapAt(f.nodes, g.nodes, caps, i, |caps|);
  }

  lemma DeliverWeight(pending: seq<Send>, k: nat, sends: seq<Send>, kept: seq<Send>)
    requires k < |pending| && multiset(kept) <= multiset(sends) && forall x :: x in sends ==> x.msg.kind != JoinReq
    ensures Weight(Without(pending, k) + kept) <= Weight(pending) + |sends| - if pending[k].msg.kind == JoinReq then 2 else 1
  {
    KeptSmaller(kept, sends);
    WeightOfReplies(kept);
    WeightWithout(pending, k);
    WeightAppend(Without(pending, k), kept);
  }

  lemma MeasureDrops(f: Flood, g: Flood, caps: seq<int>, sends: nat, request: bool)
    requires caps == Counters(f.nodes) == Counters(g.nodes)
    requires var gain := TotalGap(f.nodes, caps, |caps|) - TotalGap(g.nodes, caps, |caps|);
      gain >= 0 && sends <= (if gain > 0 then |caps| else 0) + (if request then 1 else 0)
    requires Weight(g.pending) <= Weight(f.pending) + sends - if request then 2 else 1
    ensures Measure(g) < Measure(f)
  {
    Product(TotalGap(f.nodes, caps, |caps|), TotalGap(g.nodes, caps, |caps|), |caps|, Weight(f.pending), Weight(g.pending));
  }

  lemma DeliverDecreases(f: Flood, k: nat, i: nat, kept: seq<Send>, g: Flood, caps: seq<int>)
    requires FloodOk(f) && Deliver(f, k, i, kept, g) && caps == Counters(f.nodes) == Counters(g.nodes)
    requires NodeOk(f.nodes[i], caps, g.now + 1) && MsgOk(f.pending[k].msg, caps)
    ensures Measure(g) < Measure(f)
  {
    var sends := RecvCallBack(f.nodes[i], g.now, f.pending[k].msg).sends;
    DeliverGap(f, k, i, kept, g, caps);
    DeliverWeight(f.pending, k, sends, kept);
    MeasureDrops(f, g, caps, |sends|, f.pending[k].msg.kind == JoinReq);
  }

  lemma StepDecreases(f: Flood, g: Flood)
    requires FloodOk(f) && FloodStep(f, g)
    ensures FloodOk(g) && Measure(g) < Measure(f)
  {
    if k, i, kept :| Deliver(f, k, i, kept, g) {
      hide *;
      DeliverKeepsOk(f, k, i, kept, g);
      DeliverDecreases(f, k, i, kept, g, Counters(f.nodes));
    } else {
      var k :| Lose(f, k, g);
      LoseDecreases(f, k, g);
    }
  }

  lemma LoseDecreases(f: Flood, k: nat, g: Flood)
    requires FloodOk(f) && Lose(f, k, g)
    ensures FloodOk(g) && Measure(g) < Measure(f)
  {
    WeightWithout(f.pending, k);
    SendsKept(f.pending, k, [], [], Counters(f.nodes));
    assert Without(f.pending, k) + [] == Without(f.pending, k);
    forall j | 0 <= j < |f.nodes| && f.nodes[j].table != [] ensures NodeOk(f.nodes[j], Counters(f.nodes), g.now + 1) {
      NodeUntil(f.nodes[j], Counters(f.nodes), f.now + 1, g.now + 1);
    }
  }

  ghost predicate FloodsAt(run: seq<Flood>, k: nat)
    requires k + 1 < |run|
  {
    FloodStep(run[k], run[k + 1])
  }

  ghost predicate FloodRun(run: seq<Flood>)
  {
    run != [] && FloodOk(run[0]) && forall k: nat :: k + 1 < |run| ==> FloodsAt(run, k)
  }

  lemma FloodRunTail(run: seq<Flood>)
    requires FloodRun(run) && |run| > 1
    ensures FloodRun(run[1..]) && Measure(run[1]) < Measure(run[0])
  {
    assert FloodsAt(run, 0);
    StepDecreases(run[0], run[1]);
    forall k: nat | k + 1 < |run[1..]| ensures FloodsAt(run[1..], k) {
      assert FloodsAt(run, k + 1);
    }
  }

  /** Every sequence of deliveries and losses from a good state is at most as long as its measure. */
  lemma {:induction false} FloodingTerminates(run: seq<Flood>)
    requires FloodRun(run)
    ensures |run| - 1 <= Measure(run[0])
    decreases |run|
  {
    if |run| == 1 {
      TotalGapPositive(run[0], |run[0].nodes|);
      assert TotalGap(run[0].nodes, Counters(run[0].nodes), |run[0].nodes|) * (|run[0].nodes| + 1) >= 0;
    } else {
      FloodRunTail(run);
      FloodingTerminates(run[1..]);
    }
  }

  /** Every reachable state of the group, with any number of copies of its messages, is a good state. */
  lemma ReachableFloodOk(run: seq<System>, k: nat, pending: seq<Send>)
    requires Run(run) && k < |run| && forall p :: p in pending ==> p in run[k].net
    ensures FloodOk(Flood(k, run[k].nodes, pending))
  {
    var s := run[k];
    RunInv(run, k);
    assert Counters(s.nodes) == Caps(s);
    forall i: nat | i < |s.nodes|
      ensures s.nodes[i].addr == NodeAddress(i + 1) && s.nodes[i].heartbeat >= 0
      ensures s.nodes[i].table != [] ==> NodeOk(s.nodes[i], Caps(s), k + 1)
    {
      assert MemberOk(s, i);
      if s.nodes[i].table != [] {
        NodeLater(s.nodes[i], Caps(s), k);
      }
    }
    forall j | 0 <= j < |pending| ensures SendOk(pending[j], Caps(s)) {
      assert pending[j] in pending;
    }
  }
}
