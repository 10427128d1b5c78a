/**
 The heartbeat membership protocol as functions (membership-protocol/MP1Node.cpp): what one node makes
 of a message, of a round, and what it sends meanwhile.
 */
module Membership {
  import opened Addresses

  const TREMOVE := 20
  const TFAIL := 5

  datatype Kind = JoinReq | JoinRep | Heartbeat

  /** Every message names a source and credits it with a heartbeat. */
  datatype Msg = Msg(kind: Kind, source: Address, heartbeat: int)

  datatype Send = Send(to: Address, msg: Msg)

  datatype Entry = Entry(addr: Address, heartbeat: int, timestamp: int)

  datatype Node = Node(addr: Address, inited: bool, inGroup: bool, failed: bool,
                       heartbeat: int, pingCounter: int, table: seq<Entry>)

  /** A node afterwards, and what it handed to the network, in order. */
  datatype Outcome = Outcome(node: Node, sends: seq<Send>)

  const JOIN_ADDRESS := NodeAddress(1)

  /** The same message to every member of the list, in order. */
  function Broadcast(table: seq<Entry>, msg: Msg): (sends: seq<Send>)
    ensures |sends| == |table|
  {
    seq(|table|, k requires 0 <= k < |table| => Send(table[k].addr, msg))
  }

  /** The position of the first entry for `a`, or the length of the list. */
  function IndexOf(table: seq<Entry>, a: Address): (k: nat)
    ensures k <= |table| && (k < |table| ==> table[k].addr == a)
    ensures forall j :: 0 <= j < k ==> table[j].addr != a
  {
    if table == [] || table[0].addr == a then 0 else 1 + IndexOf(table[1..], a)
  }

  function UpdateMembership(n: Node, now: int, source: Address, heartbeat: int): Outcome
  {
    var k := IndexOf(n.table, source);
    if k == |n.table| then
      Outcome(n.(table := n.table + [Entry(source, heartbeat, now)]), [])
    else if heartbeat > n.table[k].heartbeat then
      var table := n.table[k := Entry(source, heartbeat, now)];
      Outcome(n.(table := table), Broadcast(table, Msg(Heartbeat, source, heartbeat)))
    else
      Outcome(n, [])
  }

  function RecvCallBack(n: Node, now: int, m: Msg): Outcome
  {
    match m.kind
    case JoinReq =>
      var o := UpdateMembership(n, now, m.source, m.heartbeat);
      Outcome(o.node, [Send(m.source, Msg(JoinRep, n.addr, n.heartbeat))] + o.sends)
    case JoinRep => UpdateMembership(n.(inGroup := true), now, m.source, m.heartbeat)
    case Heartbeat => UpdateMembership(n, now, m.source, m.heartbeat)
  }

  /** The queue is emptied from the front. */
  function CheckMessages(n: Node, now: int, queue: seq<Msg>): Outcome
  {
    if queue == [] then Outcome(n, [])
    else
      var last := |queue| - 1;
      var o := CheckMessages(n, now, queue[..last]);
      var p := RecvCallBack(o.node, now, queue[last]);
      Outcome(p.node, o.sends + p.sends)
  }

  function Ping(n: Node): Outcome
  {
    if n.pingCounter == 0 then
      Outcome(n.(heartbeat := n.heartbeat + 1, pingCounter := TFAIL),
              Broadcast(n.table, Msg(Heartbeat, n.addr, n.heartbeat + 1)))
    else
      Outcome(n.(pingCounter := n.pingCounter - 1), [])
  }

  predicate Stale(e: Entry, now: int)
  {
    now - e.timestamp > TREMOVE
  }

  function Fresh(table: seq<Entry>, now: int): seq<Entry>
  {
    if table == [] then []
    else
      var n := |table| - 1;
      Fresh(table[..n], now) + if Stale(table[n], now) then [] else [table[n]]
  }

  /** The first entry, the node itself, is never removed. */
  function RemoveStale(n: Node, now: int): Node
    requires n.table != []
  {
    n.(table := [n.table[0]] + Fresh(n.table[1..], now))
  }

  function NodeLoopOps(n: Node, now: int): Outcome
    requires n.table != []
  {
    var o := Ping(n);
    Outcome(RemoveStale(o.node, now), o.sends)
  }

  function NodeLoop(n: Node, now: int, queue: seq<Msg>): Outcome
    requires n.table != []
  {
    if n.failed then Outcome(n, [])
    else
      var o := CheckMessages(n, now, queue);
      TableKept(n, now, queue);
      if !o.node.inGroup then o
      else
        var p := NodeLoopOps(o.node, now);
        Outcome(p.node, o.sends + p.sends)
  }

  lemma RecvKeepsTable(n: Node, now: int, m: Msg)
    requires n.table != []
    ensures RecvCallBack(n, now, m).node.table != []
  {
  }

  lemma {:induction false} TableKept(n: Node, now: int, queue: seq<Msg>)
    requires n.table != []
    ensures CheckMessages(n, now, queue).node.table != []
  {
    if queue != [] {
      var last := |queue| - 1;
      TableKept(n, now, queue[..last]);
      RecvKeepsTable(CheckMessages(n, now, queue[..last]).node, now, queue[last]);
    }
  }

  function NodeStart(n: Node, now: int): Outcome
  {
    var m := n.(failed := false, inited := true, inGroup := n.addr == JOIN_ADDRESS, heartbeat := 0,
                pingCounter := TFAIL, table := [Entry(n.addr, 0, now)]);
    Outcome(m, if n.addr == JOIN_ADDRESS then [] else [Send(JOIN_ADDRESS, Msg(JoinReq, n.addr, 0))])
  }

  // ---------------------------------------------------------------- how often, and how long

  lemma {:induction false} FreshExactly(table: seq<Entry>, now: int, e: Entry)
    ensures e in Fresh(table, now) <==> e in table && now - e.timestamp <= 20
  {
    if table != [] {
      var n := |table| - 1;
      FreshExactly(table[..n], now, e);
      assert table == table[..n] + [table[n]];
    }
  }

  /** Of the others exactly those are kept that are at most 20 ticks old. */
  lemma KeptIfYoung(n: Node, now: int, e: Entry)
    requires n.table != []
    ensures RemoveStale(n, now).table[0] == n.table[0]
    ensures e in RemoveStale(n, now).table[1..] <==> e in n.table[1..] && now - e.timestamp <= 20
  {
    FreshExactly(n.table[1..], now, e);
  }

  function AfterPings(n: Node, k: nat): Node
  {
    if k == 0 then n else Ping(AfterPings(n, k - 1)).node
  }

  lemma {:induction false} PingCounterAfter(n: Node, k: nat)
    requires n.pingCounter >= 0
    ensures var m := AfterPings(n, k);
      m.table == n.table && m.pingCounter == if k <= n.pingCounter then n.pingCounter - k else 5 - (k - n.pingCounter - 1) % 6
  {
    if k > 0 {
      PingCounterAfter(n, k - 1);
    }
  }

  /** A member sends its next heartbeat to all it lists in every sixth round, counted from when its counter is down. */
  lemma PingEverySixth(n: Node, k: nat)
    requires n.pingCounter >= 0 && n.table != []
    ensures Ping(AfterPings(n, k)).sends != [] <==> k >= n.pingCounter && (k - n.pingCounter) % 6 == 0
    ensures var before, after, sends := AfterPings(n, k), AfterPings(n, k + 1), Ping(AfterPings(n, k)).sends;
      && after.heartbeat == before.heartbeat + (if sends != [] then 1 else 0)
      && (sends != [] ==> |sends| == |n.table| && forall j :: 0 <= j < |sends| ==>
            sends[j] == Send(n.table[j].addr, Msg(Heartbeat, before.addr, after.heartbeat)))
  {
    PingCounterAfter(n, k);
  }

  // ---------------------------------------------------------------- what a table may hold

  /** The node with index `i` of the system; `caps` holds the heartbeat counter of each node. */
  predicate IsNode(a: Address, size: nat)
  {
    a == NodeAddress(a.id) && 1 <= a.id <= size
  }

  predicate Credible(a: Address, heartbeat: int, caps: seq<int>)
  {
    IsNode(a, |caps|) && 0 <= heartbeat <= caps[a.id - 1]
  }

  ghost predicate DistinctAddresses(table: seq<Entry>)
  {
    forall i, j :: 0 <= i < j < |table| ==> table[i].addr != table[j].addr
  }

  /**
   The list begins with the node itself, names nobody twice, and credits nobody with more than it has
   counted; times lie before `now`.
   */
  ghost predicate TableOk(table: seq<Entry>, self: Address, caps: seq<int>, now: int)
  {
    && table != [] && table[0].addr == self && DistinctAddresses(table)
    && (forall k :: 0 <= k < |table| ==> Credible(table[k].addr, table[k].heartbeat, caps) && table[k].timestamp < now)
  }

  predicate MsgOk(m: Msg, caps: seq<int>)
  {
    Credible(m.source, m.heartbeat, caps)
  }

  predicate SendOk(s: Send, caps: seq<int>)
  {
    IsNode(s.to, |caps|) && MsgOk(s.msg, caps)
  }

  ghost predicate SendsOk(sends: seq<Send>, caps: seq<int>)
  {
    forall k :: 0 <= k < |sends| ==> SendOk(sends[k], caps)
  }

  ghost predicate MsgsOk(queue: seq<Msg>, caps: seq<int>)
  {
    forall k :: 0 <= k < |queue| ==> MsgOk(queue[k], caps)
  }

  /** A started node, in a system whose counters are `caps`, before time `now`. */
  ghost predicate NodeOk(n: Node, caps: seq<int>, now: int)
  {
    && IsNode(n.addr, |caps|) && caps[n.addr.id - 1] == n.heartbeat && n.heartbeat >= 0 && 0 <= n.pingCounter <= TFAIL
    && TableOk(n.table, n.addr, caps, now)
  }

  ghost predicate Grown(caps: seq<int>, caps': seq<int>)
  {
    |caps| == |caps'| && forall k :: 0 <= k < |caps| ==> caps[k] <= caps'[k]
  }

  lemma UpdateOk(n: Node, now: int, m: Msg, caps: seq<int>)
    requires NodeOk(n, caps, now + 1) && MsgOk(m, caps)
    ensures var o := UpdateMembership(n, now, m.source, m.heartbeat);
      NodeOk(o.node, caps, now + 1) && SendsOk(o.sends, caps) && o.node == n.(table := o.node.table)
  {
    var k := IndexOf(n.table, m.source);
    var o := UpdateMembership(n, now, m.source, m.heartbeat);
    assert TableOk(o.node.table, n.addr, caps, now + 1);
  }

  lemma RecvOk(n: Node, now: int, m: Msg, caps: seq<int>)
    requires NodeOk(n, caps, now + 1) && MsgOk(m, caps)
    ensures var o := RecvCallBack(n, now, m);
      && NodeOk(o.node, caps, now + 1) && SendsOk(o.sends, caps)
      && o.node == n.(table := o.node.table, inGroup := n.inGroup || m.kind == JoinRep)
  {
    UpdateOk(n, now, m, caps);
    UpdateOk(n.(inGroup := true), now, m, caps);
  }

  lemma {:induction false} CheckOk(n: Node, now: int, queue: seq<Msg>, caps: seq<int>)
    requires NodeOk(n, caps, now + 1) && MsgsOk(queue, caps)
    ensures var o := CheckMessages(n, now, queue);
      && NodeOk(o.node, caps, now + 1) && SendsOk(o.sends, caps)
      && o.node == n.(table := o.node.table, inGroup := o.node.inGroup) && (n.inGroup ==> o.node.inGroup)
  {
    if queue != [] {
      var last := |queue| - 1;
      CheckOk(n, now, queue[..last], caps);
      RecvOk(CheckMessages(n, now, queue[..last]).node, now, queue[last], caps);
    }
  }

  lemma {:induction false} FreshOk(table: seq<Entry>, now: int)
    ensures forall e :: e in Fresh(table, now) <==> e in table && !Stale(e, now)
    ensures DistinctAddresses(table) ==> DistinctAddresses(Fresh(table, now))
  {
    if table != [] {
      var n := |table| - 1;
      FreshOk(table[..n], now);
      assert table == table[..n] + [table[n]];
      if DistinctAddresses(table) {
        AppendDistinct(table[..n], Fresh(table[..n], now), table[n]);
      }
    }
  }

  lemma AppendDistinct(others: seq<Entry>, kept: seq<Entry>, e: Entry)
    requires DistinctAddresses(others + [e]) && DistinctAddresses(kept) && forall x :: x in kept ==> x in others
    ensures DistinctAddresses(kept + [e])
  {
    forall i | 0 <= i < |kept| ensures kept[i].addr != e.addr {
      assert kept[i] in others;
      var j :| 0 <= j < |others| && others[j] == kept[i];
      assert (others + [e])[j] == kept[i] && (others + [e])[|others|] == e;
    }
  }

  lemma PrependDistinct(e: Entry, others: seq<Entry>, kept: seq<Entry>)
    requires DistinctAddresses([e] + others) && DistinctAddresses(kept) && forall x :: x in kept ==> x in others
    ensures DistinctAddresses([e] + kept)
  {
    forall i | 0 <= i < |kept| ensures kept[i].addr != e.addr {
      assert kept[i] in others;
      var j :| 0 <= j < |others| && others[j] == kept[i];
      assert ([e] + others)[j + 1] == kept[i] && ([e] + others)[0] == e;
    }
  }

  lemma RemoveOk(n: Node, now: int, self: Address, caps: seq<int>)
    requires TableOk(n.table, self, caps, now + 1)
    ensures TableOk(RemoveStale(n, now).table, self, caps, now + 1)
  {
    var rest := n.table[1..];
    var kept := Fresh(rest, now);
    FreshOk(rest, now);
    assert n.table == [n.table[0]] + rest;
    assert DistinctAddresses(rest) by {
      forall i, j | 0 <= i < j < |rest| ensures rest[i].addr != rest[j].addr {
        assert n.table[i + 1].addr != n.table[j + 1].addr;
      }
    }
    PrependDistinct(n.table[0], rest, kept);
    forall k | 0 <= k < |kept| ensures Credible(kept[k].addr, kept[k].heartbeat, caps) && kept[k].timestamp < now + 1 {
      assert kept[k] in rest;
      var j :| 0 <= j < |rest| && rest[j] == kept[k];
      assert n.table[j + 1] == kept[k];
    }
  }

  lemma GrownOk(table: seq<Entry>, self: Address, caps: seq<int>, caps': seq<int>, now: int)
    requires TableOk(table, self, caps, now) && Grown(caps, caps')
    ensures TableOk(table, self, caps', now)
  {
  }

  /** The counters once this node has gone through its round. */
  function CapsAfter(n: Node, caps: seq<int>): seq<int>
    requires IsNode(n.addr, |caps|)
  {
    caps[n.addr.id - 1 := n.heartbeat]
  }

  lemma OpsOk(n: Node, now: int, caps: seq<int>)
    requires NodeOk(n, caps, now + 1)
    ensures var o := NodeLoopOps(n, now);
      && n.heartbeat <= o.node.heartbeat && o.node.addr == n.addr
      && NodeOk(o.node, CapsAfter(o.node, caps), now + 1) && SendsOk(o.sends, CapsAfter(o.node, caps))
  {
    var o := Ping(n);
    var caps' := CapsAfter(o.node, caps);
    assert Grown(caps, caps');
    GrownOk(n.table, n.addr, caps, caps', now + 1);
    RemoveOk(o.node, now, n.addr, caps');
  }

  lemma LoopOk(n: Node, now: int, queue: seq<Msg>, caps: seq<int>)
    requires NodeOk(n, caps, now + 1) && MsgsOk(queue, caps)
    ensures var o := NodeLoop(n, now, queue);
      && n.heartbeat <= o.node.heartbeat && o.node.addr == n.addr && o.node.failed == n.failed && o.node.inited == n.inited
      && NodeOk(o.node, CapsAfter(o.node, caps), now + 1) && SendsOk(o.sends, CapsAfter(o.node, caps))
  {
    if n.failed {
      assert CapsAfter(n, caps) == caps;
    } else {
      CheckOk(n, now, queue, caps);
      var o := CheckMessages(n, now, queue);
      assert CapsAfter(o.node, caps) == caps;
      if o.node.inGroup {
        OpsOk(o.node, now, caps);
        SendsGrown(o.sends, caps, CapsAfter(NodeLoop(n, now, queue).node, caps));
      }
    }
  }

  lemma SendsGrown(sends: seq<Send>, caps: seq<int>, caps': seq<int>)
    requires SendsOk(sends, caps) && Grown(caps, caps')
    ensures SendsOk(sends, caps')
  {
  }
}
