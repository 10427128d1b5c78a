/**
 How the group forms (membership-protocol/MP1Node.cpp, membership-protocol/Application.cpp): without loss
 and crashes every started node is soon in the group, everybody lists everybody, and that stays so.
 */
module Joining {
  import opened Accuracy
  import opened Addresses
  import opened Completeness
  import opened Membership
  import opened Rounds

  // ---------------------------------------------------------------- before a node starts

  ghost predicate NoEntry(table: seq<Entry>, a: Address)
  {
    forall e :: e in table ==> e.addr != a
  }

  /** Nobody else lists node `x`. */
  ghost predicate Unlisted(s: System, x: nat)
  {
    forall j: nat :: j < |s.nodes| && j != x ==> NoEntry(s.nodes[j].table, NodeAddress(x + 1))
  }

  ghost predicate Unheard(s: System, x: nat)
  {
    Unlisted(s, x) && forall p :: p in s.net ==> p.msg.source != NodeAddress(x + 1)
  }

  ghost predicate Ignores(o: Outcome, a: Address)
  {
    NoEntry(o.node.table, a) && forall p :: p in o.sends ==> p.msg.source != a
  }

  lemma PartIgnores(s: System, j: nat, queue: seq<Msg>, x: nat)
    requires Inv(s) && Started(s) && j < |s.nodes| && Received(s, j, queue) && Unheard(s, x) && j != x
    ensures Ignores(NodeStep(s, j, queue), NodeAddress(x + 1))
  {
    assert MemberOk(s, j);
    if s.now != StartTime(j) && Live(s, j) {
      forall m | m in queue ensures m.source != NodeAddress(x + 1) {
        assert Pending(s, j, m);
      }
      QueueOk(s, j, queue);
      NodeLater(s.nodes[j], Caps(s), s.now);
      LoopUntouched(s.nodes[j], s.now, queue, Caps(s), NodeAddress(x + 1));
    }
  }

  lemma UnheardStep(s: System, t: System, x: nat)
    requires Inv(s) && Step(s, t) && x < |s.nodes| && Unheard(s, x) && s.now <= StartTime(x)
    ensures Unlisted(t, x) && (s.now < StartTime(x) ==> Unheard(t, x))
  {
    var inbox, crash :| Round(s, inbox, crash, t);
    forall j: nat | j < |s.nodes| && j != x
      ensures Ignores(NodeStep(s, j, inbox[j]), NodeAddress(x + 1)) && t.nodes[j] == Crash(NodeStep(s, j, inbox[j]).node, j in crash)
    {
      PartIgnores(s, j, inbox[j], x);
    }
    if s.now < StartTime(x) {
      assert NodeStep(s, x, inbox[x]).sends == [];
      forall p | p in t.net ensures p.msg.source != NodeAddress(x + 1) {
        if p !in s.net {
          assert Sent(s, inbox, p);
        }
      }
    }
  }

  lemma {:induction false} UnheardBefore(run: seq<System>, k: nat, x: nat)
    requires Run(run) && k < |run| && x < |run[0].nodes| && k <= StartTime(x)
    ensures Unheard(run[k], x)
  {
    if k > 0 {
      UnheardBefore(run, k - 1, x);
      RunStep(run, k - 1);
      UnheardStep(run[k - 1], run[k], x);
    }
  }

  // ---------------------------------------------------------------- the three rounds in which a node joins

  /** All entries are from this time or later. */
  ghost predicate Since(table: seq<Entry>, time: int)
  {
    forall e :: e in table ==> e.timestamp >= time
  }

  lemma StartStep(s: System, t: System, i: nat)
    requires Inv(s) && LosslessStep(s, t) && i < |s.nodes| && s.now == StartTime(i)
    ensures |t.nodes| == |s.nodes| && t.nodes[i].pingCounter == TFAIL && Since(t.nodes[i].table, s.now)
    ensures if i == 0 then t.nodes[i].inGroup else Send(JOIN_ADDRESS, Msg(JoinReq, NodeAddress(i + 1), 0)) in t.net
  {
    var inbox, crash :| Round(s, inbox, crash, t) && Lossless(s, inbox, t);
    assert MemberOk(s, i);
    assert t.nodes[i] == Crash(NodeStep(s, i, inbox[i]).node, i in crash);
    if i > 0 {
      var o := NodeStart(s.nodes[i], s.now);
      assert o.sends[0] == Send(JOIN_ADDRESS, Msg(JoinReq, NodeAddress(i + 1), 0));
      SentArrives(s, inbox, t, i, o.sends[0]);
    }
  }

  lemma {:induction false} CheckAnswers(n: Node, now: int, queue: seq<Msg>, caps: seq<int>, m: Msg)
    requires NodeOk(n, caps, now + 1) && MsgsOk(queue, caps) && m in queue
    ensures var o := CheckMessages(n, now, queue);
      && (m.kind == JoinReq ==> Send(m.source, Msg(JoinRep, n.addr, n.heartbeat)) in o.sends)
      && (m.kind == JoinRep ==> o.node.inGroup)
  {
    var last := |queue| - 1;
    CheckOk(n, now, queue[..last], caps);
    var o := CheckMessages(n, now, queue[..last]);
    RecvOk(o.node, now, queue[last], caps);
    if queue[last] == m {
      var p := RecvCallBack(o.node, now, m);
      if m.kind == JoinReq {
        assert p.sends[0] == Send(m.source, Msg(JoinRep, n.addr, n.heartbeat));
      }
    } else {
      assert queue == queue[..last] + [queue[last]];
      CheckAnswers(n, now, queue[..last], caps, m);
    }
  }

  lemma LoopAnswers(n: Node, now: int, queue: seq<Msg>, caps: seq<int>, m: Msg)
    requires NodeOk(n, caps, now + 1) && MsgsOk(queue, caps) && m in queue && !n.failed
    ensures var o := NodeLoop(n, now, queue);
      && (m.kind == JoinReq ==> Send(m.source, Msg(JoinRep, n.addr, n.heartbeat)) in o.sends)
      && (m.kind == JoinRep ==> o.node.inGroup)
  {
    CheckAnswers(n, now, queue, caps, m);
    CheckOk(n, now, queue, caps);
  }

  /** Every entry afterwards is as of now, or was there before. */
  lemma LoopChanges(n: Node, now: int, queue: seq<Msg>, caps: seq<int>)
    requires NodeOk(n, caps, now + 1) && MsgsOk(queue, caps)
    ensures forall e :: e in NodeLoop(n, now, queue).node.table ==> e.timestamp == now || e in n.table
  {
    if !n.failed {
      EntriesNotLater(n, caps, now + 1);
      CheckKeeps(n, now, queue);
      CheckOk(n, now, queue, caps);
      var y := CheckMessages(n, now, queue).node;
      if y.inGroup {
        FreshOk(y.table[1..], now);
        assert y.table == [y.table[0]] + y.table[1..];
      }
    }
  }

  lemma LoopSince(n: Node, now: int, queue: seq<Msg>, caps: seq<int>, time: int)
    requires NodeOk(n, caps, now + 1) && MsgsOk(queue, caps) && Since(n.table, time) && time <= now
    ensures Since(NodeLoop(n, now, queue).node.table, time)
  {
    LoopChanges(n, now, queue, caps);
  }

  /** Whatever a message tells, the list afterwards has an entry about its source. */
  lemma LoopLists(n: Node, now: int, queue: seq<Msg>, caps: seq<int>, m: Msg, time: int)
    requires NodeOk(n, caps, now + 1) && MsgsOk(queue, caps) && m in queue && !n.failed
    requires time <= now <= time + TREMOVE
    requires forall e :: e in n.table && e.addr == m.source && e.heartbeat >= m.heartbeat ==> e.timestamp >= time
    ensures Has(NodeLoop(n, now, queue).node.table, m.source, m.heartbeat, time)
  {
    if e :| e in n.table && e.addr == m.source && e.heartbeat >= m.heartbeat {
      LoopKeeps(n, now, queue, caps, e);
    } else {
      LoopHears(n, now, queue, caps, m);
    }
  }

  /** What happens to node `i`, live in this round. */
  lemma LivePart(s: System, inbox: seq<seq<Msg>>, crash: set<nat>, t: System, i: nat)
    requires Inv(s) && Started(s) && Round(s, inbox, crash, t) && i < |s.nodes| && Live(s, i)
    ensures NodeOk(s.nodes[i], Caps(s), s.now + 1) && MsgsOk(inbox[i], Caps(s))
    ensures t.nodes[i] == Crash(NodeLoop(s.nodes[i], s.now, inbox[i]).node, i in crash)
    ensures NodeStep(s, i, inbox[i]) == NodeLoop(s.nodes[i], s.now, inbox[i])
    ensures s.nodes[i].addr == NodeAddress(i + 1) && forall m :: m in inbox[i] <==> Send(NodeAddress(i + 1), m) in s.net
  {
    assert MemberOk(s, i);
    QueueOk(s, i, inbox[i]);
    NodeLater(s.nodes[i], Caps(s), s.now);
    assert t.nodes[i] == Crash(NodeStep(s, i, inbox[i]).node, i in crash);
  }

  /** The introducer hears the request, lists the node and answers. */
  lemma RequestStep(s: System, t: System, i: nat)
    requires Inv(s) && LosslessStep(s, t) && 0 < i < |s.nodes| && Live(s, 0) && Unlisted(s, i)
    requires Send(JOIN_ADDRESS, Msg(JoinReq, NodeAddress(i + 1), 0)) in s.net
    ensures |t.nodes| == |s.nodes| && Has(t.nodes[0].table, NodeAddress(i + 1), 0, s.now)
    ensures Send(NodeAddress(i + 1), Msg(JoinRep, JOIN_ADDRESS, s.nodes[0].heartbeat)) in t.net
  {
    var inbox, crash :| Round(s, inbox, crash, t) && Lossless(s, inbox, t);
    var m := Msg(JoinReq, NodeAddress(i + 1), 0);
    LivePart(s, inbox, crash, t, 0);
    assert m in inbox[0];
    LoopLists(s.nodes[0], s.now, inbox[0], Caps(s), m, s.now);
    LoopAnswers(s.nodes[0], s.now, inbox[0], Caps(s), m);
    SentArrives(s, inbox, t, 0, Send(NodeAddress(i + 1), Msg(JoinRep, JOIN_ADDRESS, s.nodes[0].heartbeat)));
  }

  /** The answer brings the node into the group, and the introducer into its list. */
  lemma AnswerStep(s: System, t: System, i: nat, heartbeat: int, time: int)
    requires Inv(s) && LosslessStep(s, t) && 0 < i < |s.nodes| && Live(s, i)
    requires Since(s.nodes[i].table, time) && time <= s.now <= time + TREMOVE
    requires Send(NodeAddress(i + 1), Msg(JoinRep, JOIN_ADDRESS, heartbeat)) in s.net
    ensures |t.nodes| == |s.nodes| && t.nodes[i].inGroup && Has(t.nodes[i].table, JOIN_ADDRESS, heartbeat, time)
  {
    var inbox, crash :| Round(s, inbox, crash, t) && Lossless(s, inbox, t);
    var m := Msg(JoinRep, JOIN_ADDRESS, heartbeat);
    LivePart(s, inbox, crash, t, i);
    assert m in inbox[i];
    LoopAnswers(s.nodes[i], s.now, inbox[i], Caps(s), m);
    LoopLists(s.nodes[i], s.now, inbox[i], Caps(s), m, time);
  }

  /** The counter of a node that has just started, and its entries. */
  lemma NewcomerStep(s: System, t: System, i: nat, time: int)
    requires Inv(s) && Step(s, t) && i < |s.nodes| && Live(s, i)
    requires Since(s.nodes[i].table, time) && time <= s.now && 0 < s.nodes[i].pingCounter
    ensures |t.nodes| == |s.nodes| && Since(t.nodes[i].table, time)
    ensures s.nodes[i].pingCounter - 1 <= t.nodes[i].pingCounter <= s.nodes[i].pingCounter
    ensures t.nodes[i].inGroup ==> t.nodes[i].pingCounter == s.nodes[i].pingCounter - 1
  {
    var inbox, crash :| Round(s, inbox, crash, t);
    LivePart(s, inbox, crash, t, i);
    LoopSince(s.nodes[i], s.now, inbox[i], Caps(s), time);
    CheckOk(s.nodes[i], s.now, inbox[i], Caps(s));
  }

  /** An entry that is not too old is still there after the round. */
  lemma EntryStep(s: System, t: System, j: nat, a: Address, heartbeat: int, since: int)
    requires Inv(s) && Step(s, t) && j < |s.nodes| && Live(s, j) && Has(s.nodes[j].table, a, heartbeat, since)
    requires s.now - since <= TREMOVE
    ensures |t.nodes| == |s.nodes| && Has(t.nodes[j].table, a, heartbeat, since)
  {
    var inbox, crash :| Round(s, inbox, crash, t);
    LivePart(s, inbox, crash, t, j);
    var e :| e in s.nodes[j].table && e.addr == a && e.heartbeat >= heartbeat && e.timestamp >= since;
    LoopKeeps(s.nodes[j], s.now, inbox[j], Caps(s), e);
  }

  // ---------------------------------------------------------------- the introducer and a member

  /** `i` is in the group and `j` lists it, and has heard its last heartbeats or is about to. */
  ghost predicate Within(s: System, i: nat, j: nat)
    requires i < |s.nodes| && j < |s.nodes|
  {
    && s.nodes[i].inGroup && Behind(s, i, j)
    && (s.nodes[i].pingCounter == TFAIL ==> PingUnderway(s, i, j))
    && Timely(s, i, j, 2)
  }

  lemma WithinRound(s: System, inbox: seq<seq<Msg>>, crash: set<nat>, t: System, i: nat, j: nat)
    requires Inv(s) && Started(s) && Round(s, inbox, crash, t) && Lossless(s, inbox, t)
    requires i < |s.nodes| && j < |s.nodes| && i != j && Live(s, i) && Live(s, j) && Lists(s, i, j)
    requires Within(s, i, j)
    ensures Within(t, i, j)
  {
    Beat(s, inbox, crash, t, i);
    assert MemberOk(s, i);
    TimelyRound(s, inbox, crash, t, i, j, 2);
    if s.nodes[i].pingCounter == 0 {
      PingArrives(s, inbox, crash, t, i, j);
    }
  }

  /** Two nodes that are within each other's reach stay so. */
  lemma WithinStep(s: System, t: System, i: nat, j: nat)
    requires Inv(s) && LosslessStep(s, t) && i < |s.nodes| && j < |s.nodes| && i != j && Live(s, i) && Live(s, j)
    requires Within(s, i, j) && Within(s, j, i)
    ensures |t.nodes| == |s.nodes| && Within(t, i, j) && Within(t, j, i)
  {
    var inbox, crash :| Round(s, inbox, crash, t) && Lossless(s, inbox, t);
    assert Lists(s, i, j) && Lists(s, j, i);
    WithinRound(s, inbox, crash, t, i, j);
    WithinRound(s, inbox, crash, t, j, i);
  }

  /** A young entry is timely. */
  lemma YoungIsTimely(s: System, i: nat, j: nat, heartbeat: int, since: int)
    requires Inv(s) && i < |s.nodes| && j < |s.nodes| && s.now > StartTime(i)
    requires Has(s.nodes[j].table, NodeAddress(i + 1), heartbeat, since) && s.now - 1 - since <= 2
    ensures Timely(s, i, j, 2)
  {
    assert MemberOk(s, i);
    var e :| e in s.nodes[j].table && e.addr == NodeAddress(i + 1) && e.heartbeat >= heartbeat && e.timestamp >= since;
  }

  /** What the introducer, in the group all along, has sent a node that it lists. */
  lemma IntroducerStep(s: System, t: System, i: nat)
    requires Inv(s) && LosslessStep(s, t) && 0 < i < |s.nodes| && Beating(s, 0) && Live(s, i) && Lists(s, 0, i)
    ensures |t.nodes| == |s.nodes| && t.nodes[0].inGroup && Behind(t, 0, i)
    ensures t.nodes[0].pingCounter == TFAIL ==> PingUnderway(t, 0, i)
  {
    var inbox, crash :| Round(s, inbox, crash, t) && Lossless(s, inbox, t);
    assert MemberOk(s, 0);
    Beat(s, inbox, crash, t, 0);
    BehindAfterPing(s, inbox, crash, t, 0, i);
    if s.nodes[0].pingCounter == 0 {
      PingArrives(s, inbox, crash, t, 0, i);
    }
  }

  // ---------------------------------------------------------------- runs without loss and crashes

  ghost predicate CalmAt(run: seq<System>, k: nat)
    requires k < |run|
  {
    && (k + 1 < |run| ==> LosslessAt(run, k))
    && forall i: nat :: i < |run[k].nodes| && k > StartTime(i) ==> !run[k].nodes[i].failed
  }

  ghost predicate Calm(run: seq<System>)
  {
    Run(run) && forall k: nat :: k < |run| ==> CalmAt(run, k)
  }

  lemma CalmStep(run: seq<System>, k: nat)
    requires Calm(run) && k + 1 < |run|
    ensures Inv(run[k]) && Inv(run[k + 1]) && LosslessStep(run[k], run[k + 1]) && Step(run[k], run[k + 1])
    ensures run[k].now == k && run[k + 1].now == k + 1 && |run[k].nodes| == |run[k + 1].nodes| == |run[0].nodes|
    ensures forall i: nat :: i < |run[0].nodes| && k > StartTime(i) ==> Live(run[k], i)
  {
    RunStep(run, k);
    assert CalmAt(run, k);
    assert LosslessAt(run, k);
  }

  lemma CalmState(run: seq<System>, k: nat)
    requires Calm(run) && k < |run|
    ensures Inv(run[k]) && run[k].now == k && |run[k].nodes| == |run[0].nodes|
    ensures forall i: nat :: i < |run[0].nodes| && k > StartTime(i) ==> Live(run[k], i)
  {
    RunInv(run, k);
    assert CalmAt(run, k);
  }

  lemma InGroupStep(s: System, t: System, i: nat)
    requires Inv(s) && Step(s, t) && i < |s.nodes| && Beating(s, i)
    ensures |t.nodes| == |s.nodes| && t.nodes[i].inGroup
    ensures t.nodes[i].pingCounter == if s.nodes[i].pingCounter == 0 then TFAIL else s.nodes[i].pingCounter - 1
  {
    var inbox, crash :| Round(s, inbox, crash, t);
    Beat(s, inbox, crash, t, i);
  }

  /** The introducer is in the group from its start. */
  lemma {:induction false} IntroducerIn(run: seq<System>, k: nat)
    requires Calm(run) && 0 < k < |run| && 0 < |run[0].nodes|
    ensures |run[k].nodes| == |run[0].nodes| && run[k].nodes[0].inGroup
  {
    CalmStep(run, k - 1);
    if k == 1 {
      StartStep(run[0], run[1], 0);
    } else {
      IntroducerIn(run, k - 1);
      InGroupStep(run[k - 1], run[k], 0);
    }
  }

  /** One round after the start the request is under way. */
  lemma JoinAfterOne(run: seq<System>, i: nat, k: nat)
    requires Calm(run) && 0 < i < |run[0].nodes| && k == StartTime(i) + 1 < |run|
    ensures |run[k].nodes| == |run[0].nodes| && Unlisted(run[k], i)
    ensures Send(JOIN_ADDRESS, Msg(JoinReq, NodeAddress(i + 1), 0)) in run[k].net
    ensures Since(run[k].nodes[i].table, k - 1) && run[k].nodes[i].pingCounter == TFAIL
  {
    CalmStep(run, k - 1);
    UnheardBefore(run, k - 1, i);
    UnheardStep(run[k - 1], run[k], i);
    StartStep(run[k - 1], run[k], i);
  }

  /** Two rounds after it the introducer lists the node, and its answer is under way. */
  lemma JoinAfterTwo(run: seq<System>, i: nat, k: nat) returns (heartbeat: int)
    requires Calm(run) && 0 < i < |run[0].nodes| && k == StartTime(i) + 2 < |run|
    ensures |run[k].nodes| == |run[0].nodes| && Has(run[k].nodes[0].table, NodeAddress(i + 1), 0, k - 1)
    ensures Send(NodeAddress(i + 1), Msg(JoinRep, JOIN_ADDRESS, heartbeat)) in run[k].net
    ensures Since(run[k].nodes[i].table, k - 2) && TFAIL - 1 <= run[k].nodes[i].pingCounter <= TFAIL
  {
    JoinAfterOne(run, i, k - 1);
    CalmStep(run, k - 1);
    heartbeat := run[k - 1].nodes[0].heartbeat;
    RequestStep(run[k - 1], run[k], i);
    NewcomerStep(run[k - 1], run[k], i, k - 2);
  }

  /** Three rounds after it the two are within each other's reach. */
  lemma JoinAfterThree(run: seq<System>, i: nat, k: nat)
    requires Calm(run) && 0 < i < |run[0].nodes| && k == StartTime(i) + 3 < |run|
    ensures |run[k].nodes| == |run[0].nodes| && Within(run[k], i, 0) && Within(run[k], 0, i)
  {
    var heartbeat := JoinAfterTwo(run, i, k - 1);
    CalmStep(run, k - 1);
    AnswerStep(run[k - 1], run[k], i, heartbeat, k - 3);
    NewcomerStep(run[k - 1], run[k], i, k - 3);
    EntryStep(run[k - 1], run[k], 0, NodeAddress(i + 1), 0, k - 2);
    IntroducerIn(run, k - 1);
    assert Lists(run[k - 1], 0, i);
    IntroducerStep(run[k - 1], run[k], i);
    YoungIsTimely(run[k], i, 0, 0, k - 2);
    YoungIsTimely(run[k], 0, i, heartbeat, k - 3);
  }

  /** And from then on. */
  lemma {:induction false} JoinedStays(run: seq<System>, i: nat, k: nat)
    requires Calm(run) && 0 < i < |run[0].nodes| && StartTime(i) + 3 <= k < |run|
    ensures |run[k].nodes| == |run[0].nodes| && Within(run[k], i, 0) && Within(run[k], 0, i)
  {
    if k == StartTime(i) + 3 {
      JoinAfterThree(run, i, k);
    } else {
      JoinedStays(run, i, k - 1);
      CalmStep(run, k - 1);
      WithinStep(run[k - 1], run[k], i, 0);
    }
  }

  lemma InGroup(run: seq<System>, i: nat, k: nat)
    requires Calm(run) && i < |run[0].nodes| && StartTime(i) + 3 <= k < |run|
    ensures |run[k].nodes| == |run[0].nodes| && Beating(run[k], i)
  {
    CalmState(run, k);
    if i == 0 {
      IntroducerIn(run, k);
    } else {
      JoinedStays(run, i, k);
    }
  }

  // ---------------------------------------------------------------- the introducer passes news on

  /** The list's heartbeat for the address, or -1. */
  function Level(table: seq<Entry>, a: Address): int
  {
    var k := IndexOf(table, a);
    if k < |table| then table[k].heartbeat else -1
  }

  ghost predicate PassesOn(n: Node, o: Outcome, to: Address, a: Address)
  {
    Level(o.node.table, a) == Level(n.table, a) || Send(to, Msg(Heartbeat, a, Level(o.node.table, a))) in o.sends
  }

  ghost predicate ListsAddress(table: seq<Entry>, a: Address)
  {
    exists e :: e in table && e.addr == a
  }

  lemma ListedIndex(table: seq<Entry>, a: Address)
    ensures ListsAddress(table, a) <==> IndexOf(table, a) < |table|
  {
    if e :| e in table && e.addr == a {
      var j :| 0 <= j < |table| && table[j] == e;
    }
    if IndexOf(table, a) < |table| {
      assert table[IndexOf(table, a)] in table;
    }
  }

  lemma IndexSame(x: seq<Entry>, y: seq<Entry>, a: Address)
    requires |x| <= |y| && (forall j :: 0 <= j < |x| ==> x[j].addr == y[j].addr) && IndexOf(x, a) < |x|
    ensures IndexOf(y, a) == IndexOf(x, a)
  {
  }

  lemma UpdatePassesOn(n: Node, now: int, source: Address, heartbeat: int, to: Address, a: Address)
    requires ListsAddress(n.table, to) && ListsAddress(n.table, a)
    ensures var o := UpdateMembership(n, now, source, heartbeat);
      PassesOn(n, o, to, a) && ListsAddress(o.node.table, to) && ListsAddress(o.node.table, a)
  {
    var o := UpdateMembership(n, now, source, heartbeat);
    ListedIndex(n.table, a);
    ListedIndex(n.table, to);
    IndexSame(n.table, o.node.table, a);
    IndexSame(n.table, o.node.table, to);
    ListedIndex(o.node.table, a);
    ListedIndex(o.node.table, to);
    var k := IndexOf(n.table, source);
    if k < |n.table| && heartbeat > n.table[k].heartbeat && source == a {
      InBroadcast(o.node.table, o.node.table[IndexOf(o.node.table, to)], Msg(Heartbeat, source, heartbeat));
    }
  }

  lemma RecvPassesOn(n: Node, now: int, m: Msg, to: Address, a: Address)
    requires ListsAddress(n.table, to) && ListsAddress(n.table, a)
    ensures var o := RecvCallBack(n, now, m);
      PassesOn(n, o, to, a) && ListsAddress(o.node.table, to) && ListsAddress(o.node.table, a)
  {
    UpdatePassesOn(n, now, m.source, m.heartbeat, to, a);
    UpdatePassesOn(n.(inGroup := true), now, m.source, m.heartbeat, to, a);
  }

  lemma PassesOnTwice(n: Node, o: Outcome, p: Outcome, q: Outcome, to: Address, a: Address)
    requires PassesOn(n, o, to, a) && PassesOn(o.node, p, to, a) && q == Outcome(p.node, o.sends + p.sends)
    ensures PassesOn(n, q, to, a)
  {
  }

  lemma {:induction false} CheckPassesOn(n: Node, now: int, queue: seq<Msg>, to: Address, a: Address)
    requires ListsAddress(n.table, to) && ListsAddress(n.table, a)
    ensures var o := CheckMessages(n, now, queue);
      PassesOn(n, o, to, a) && ListsAddress(o.node.table, to) && ListsAddress(o.node.table, a)
  {
    if queue != [] {
      var last := |queue| - 1;
      CheckPassesOn(n, now, queue[..last], to, a);
      var o := CheckMessages(n, now, queue[..last]);
      RecvPassesOn(o.node, now, queue[last], to, a);
      PassesOnTwice(n, o, RecvCallBack(o.node, now, queue[last]), CheckMessages(n, now, queue), to, a);
    }
  }

  lemma LevelIs(table: seq<Entry>, e: Entry)
    requires DistinctAddresses(table) && e in table
    ensures Level(table, e.addr) == e.heartbeat
  {
    var j :| 0 <= j < |table| && table[j] == e;
  }

  /** News about `a` is passed on to everybody listed. */
  lemma LoopForwards(n: Node, now: int, queue: seq<Msg>, caps: seq<int>, m: Msg, to: Address) returns (heartbeat: int)
    requires NodeOk(n, caps, now + 1) && MsgsOk(queue, caps) && m in queue && !n.failed
    requires ListsAddress(n.table, to) && ListsAddress(n.table, m.source) && Level(n.table, m.source) < m.heartbeat
    ensures heartbeat >= m.heartbeat && Send(to, Msg(Heartbeat, m.source, heartbeat)) in NodeLoop(n, now, queue).sends
  {
    EntriesNotLater(n, caps, now + 1);
    CheckKeeps(n, now, queue);
    CheckOk(n, now, queue, caps);
    CheckPassesOn(n, now, queue, to, m.source);
    var y := CheckMessages(n, now, queue).node;
    assert HeardOne(m, y.table);
    var f :| f in y.table && f.addr == m.source && f.heartbeat >= m.heartbeat;
    LevelIs(y.table, f);
    heartbeat := f.heartbeat;
  }

  /** What `j` has heard of `i` up to this heartbeat, it has heard since this time. */
  ghost predicate NewsSince(s: System, i: nat, j: nat, heartbeat: int, time: int)
    requires j < |s.nodes|
  {
    forall e :: e in s.nodes[j].table && e.addr == NodeAddress(i + 1) && e.heartbeat >= heartbeat ==> e.timestamp >= time
  }

  lemma BehindLevel(s: System, i: nat, j: nat)
    requires i < |s.nodes| && j < |s.nodes| && Behind(s, i, j) && s.nodes[i].pingCounter == TFAIL
    requires ListsAddress(s.nodes[j].table, NodeAddress(i + 1))
    ensures Level(s.nodes[j].table, NodeAddress(i + 1)) < s.nodes[i].heartbeat
  {
    ListedIndex(s.nodes[j].table, NodeAddress(i + 1));
    var k := IndexOf(s.nodes[j].table, NodeAddress(i + 1));
    assert s.nodes[j].table[k] in s.nodes[j].table;
  }

  /** A heartbeat of `i` reaches the introducer, which passes it on to `j`. */
  lemma ForwardStep(s: System, t: System, i: nat, j: nat) returns (heartbeat: int)
    requires Inv(s) && LosslessStep(s, t) && 0 < i < |s.nodes| && j < |s.nodes| && i != j && Live(s, 0) && Live(s, j)
    requires s.nodes[i].pingCounter == TFAIL && PingUnderway(s, i, 0) && Behind(s, i, 0) && Behind(s, i, j)
    requires Lists(s, 0, i) && Lists(s, 0, j)
    ensures |t.nodes| == |s.nodes| && NewsSince(t, i, j, s.nodes[i].heartbeat, s.now)
    ensures heartbeat >= s.nodes[i].heartbeat && Send(NodeAddress(j + 1), Msg(Heartbeat, NodeAddress(i + 1), heartbeat)) in t.net
  {
    var inbox, crash :| Round(s, inbox, crash, t) && Lossless(s, inbox, t);
    var m := Msg(Heartbeat, NodeAddress(i + 1), s.nodes[i].heartbeat);
    hide Inv, Lossless, Behind;
    LivePart(s, inbox, crash, t, 0);
    assert m in inbox[0];
    BehindLevel(s, i, 0);
    heartbeat := LoopForwards(s.nodes[0], s.now, inbox[0], Caps(s), m, NodeAddress(j + 1));
    SentArrives(s, inbox, t, 0, Send(NodeAddress(j + 1), Msg(Heartbeat, NodeAddress(i + 1), heartbeat)));
    LivePart(s, inbox, crash, t, j);
    LoopChanges(s.nodes[j], s.now, inbox[j], Caps(s));
  }

  lemma HearStep(s: System, t: System, i: nat, j: nat, known: int, heartbeat: int, time: int)
    requires Inv(s) && LosslessStep(s, t) && j < |s.nodes| && Live(s, j) && NewsSince(s, i, j, known, time) && known <= heartbeat
    requires time <= s.now <= time + TREMOVE
    requires Send(NodeAddress(j + 1), Msg(Heartbeat, NodeAddress(i + 1), heartbeat)) in s.net
    ensures |t.nodes| == |s.nodes| && Has(t.nodes[j].table, NodeAddress(i + 1), heartbeat, time)
  {
    hide Inv, Lossless;
    var inbox, crash :| Round(s, inbox, crash, t) && Lossless(s, inbox, t);
    var m := Msg(Heartbeat, NodeAddress(i + 1), heartbeat);
    LivePart(s, inbox, crash, t, j);
    assert m in inbox[j];
    LoopLists(s.nodes[j], s.now, inbox[j], Caps(s), m, time);
  }

  // ---------------------------------------------------------------- everybody lists everybody

  /** A member pings at least every TFAIL + 1 rounds. */
  lemma {:induction false} Counting(run: seq<System>, i: nat, k: nat, l: nat)
    requires Calm(run) && i < |run[0].nodes| && StartTime(i) + 3 <= k <= l < |run|
    requires |run[k].nodes| == |run[0].nodes| && l <= k + run[k].nodes[i].pingCounter
    ensures |run[l].nodes| == |run[0].nodes| && run[l].nodes[i].pingCounter == run[k].nodes[i].pingCounter - (l - k)
    decreases l
  {
    if k < l {
      Counting(run, i, k, l - 1);
      CalmStep(run, l - 1);
      InGroup(run, i, l - 1);
      InGroupStep(run[l - 1], run[l], i);
    }
  }

  lemma NextPing(run: seq<System>, i: nat, k: nat) returns (p: nat)
    requires Calm(run) && i < |run[0].nodes| && StartTime(i) + 3 <= k && k + TFAIL < |run|
    ensures k <= p <= k + TFAIL && |run[p].nodes| == |run[0].nodes| && Beating(run[p], i) && run[p].nodes[i].pingCounter == 0
  {
    CalmState(run, k);
    assert MemberOk(run[k], i);
    p := k + run[k].nodes[i].pingCounter;
    Counting(run, i, k, p);
    InGroup(run, i, p);
  }

  lemma TimelyLists(s: System, i: nat, j: nat)
    requires i < |s.nodes| && j < |s.nodes| && Timely(s, i, j, 2)
    ensures Lists(s, j, i)
  {
  }

  /** What a ping of a member does. */
  lemma PingStep(s: System, t: System, i: nat, j: nat)
    requires Inv(s) && LosslessStep(s, t) && i < |s.nodes| && j < |s.nodes| && i != j && Beating(s, i) && Live(s, j)
    requires s.nodes[i].pingCounter == 0
    ensures |t.nodes| == |s.nodes| && t.nodes[i].pingCounter == TFAIL && Behind(t, i, j)
    ensures Lists(s, i, j) ==> PingUnderway(t, i, j)
  {
    var inbox, crash :| Round(s, inbox, crash, t) && Lossless(s, inbox, t);
    Beat(s, inbox, crash, t, i);
    BehindAfterPing(s, inbox, crash, t, i, j);
    if Lists(s, i, j) {
      PingArrives(s, inbox, crash, t, i, j);
    }
  }

  /** The introducer lists a node from two rounds after its start. */
  lemma IntroducerLists(run: seq<System>, i: nat, k: nat)
    requires Calm(run) && 0 < i < |run[0].nodes| && StartTime(i) + 2 <= k < |run|
    ensures |run[k].nodes| == |run[0].nodes| && Lists(run[k], 0, i)
  {
    if k == StartTime(i) + 2 {
      var heartbeat := JoinAfterTwo(run, i, k);
    } else {
      JoinedStays(run, i, k);
    }
  }

  /** A ping of `i` puts `i` on the list of `j` three rounds later, by way of the introducer. */
  lemma Spreads(run: seq<System>, i: nat, j: nat, p: nat)
    requires Calm(run) && 0 < i < |run[0].nodes| && 0 < j < |run[0].nodes| && i != j
    requires StartTime(i) + 3 <= p && StartTime(j) + 1 <= p && p + 3 < |run|
    requires |run[p].nodes| == |run[0].nodes| && run[p].nodes[i].pingCounter == 0
    ensures |run[p + 3].nodes| == |run[0].nodes| && Has(run[p + 3].nodes[j].table, NodeAddress(i + 1), 0, p + 1)
  {
    hide Calm, Inv, LosslessStep, Step, Behind, Lists, Timely, Has, Run;
    CalmStep(run, p);
    CalmStep(run, p + 1);
    CalmStep(run, p + 2);
    JoinedStays(run, i, p);
    TimelyLists(run[p], 0, i);
    PingStep(run[p], run[p + 1], i, 0);
    PingStep(run[p], run[p + 1], i, j);
    IntroducerLists(run, i, p + 1);
    IntroducerLists(run, j, p + 1);
    var heartbeat := ForwardStep(run[p + 1], run[p + 2], i, j);
    HearStep(run[p + 2], run[p + 3], i, j, run[p + 1].nodes[i].heartbeat, heartbeat, p + 1);
    Counted(run[p + 1], i);
    AnyHeartbeat(run[p + 3].nodes[j].table, NodeAddress(i + 1), heartbeat, p + 1);
  }

  lemma Counted(s: System, i: nat)
    requires Inv(s) && i < |s.nodes|
    ensures s.nodes[i].heartbeat >= 0
  {
    assert MemberOk(s, i);
  }

  lemma AnyHeartbeat(table: seq<Entry>, a: Address, heartbeat: int, since: int)
    requires Has(table, a, heartbeat, since) && heartbeat >= 0
    ensures Has(table, a, 0, since)
  {
  }

  lemma {:induction false} EntryStays(run: seq<System>, j: nat, a: Address, since: int, k: nat, l: nat)
    requires Calm(run) && j < |run[0].nodes| && StartTime(j) < k <= l < |run| && l - 1 - since <= TREMOVE
    requires |run[k].nodes| == |run[0].nodes| && Has(run[k].nodes[j].table, a, 0, since)
    ensures |run[l].nodes| == |run[0].nodes| && Has(run[l].nodes[j].table, a, 0, since)
    decreases l
  {
    if k < l {
      EntryStays(run, j, a, since, k, l - 1);
      CalmStep(run, l - 1);
      EntryStep(run[l - 1], run[l], j, a, 0, since);
    }
  }

  /** When the last node starts. */
  function LastStart(run: seq<System>): nat
    requires run != [] && run[0].nodes != []
  {
    StartTime(|run[0].nodes| - 1)
  }

  /** From eleven rounds after the last start on everybody is in the group and lists everybody. */
  lemma EverybodyJoins(run: seq<System>, k: nat, i: nat, j: nat)
    requires Calm(run) && i < |run[0].nodes| && j < |run[0].nodes| && LastStart(run) + 11 <= k < |run|
    ensures |run[k].nodes| == |run[0].nodes| && run[k].nodes[i].inGroup && Lists(run[k], j, i)
  {
    InGroup(run, i, k);
    CalmState(run, k);
    if i == j {
      assert MemberOk(run[k], i);
      assert run[k].nodes[i].table[0] in run[k].nodes[i].table;
    } else if i == 0 {
      JoinedStays(run, j, k);
    } else if j == 0 {
      JoinedStays(run, i, k);
    } else {
      var p := NextPing(run, i, k - 8);
      Spreads(run, i, j, p);
      EntryStays(run, j, NodeAddress(i + 1), p + 1, p + 3, k);
    }
  }

  /** The addresses of all nodes. */
  function Everybody(size: nat): (all: set<Address>)
    ensures |all| == size && forall a :: a in all <==> IsNode(a, size)
  {
    if size == 0 then {} else Everybody(size - 1) + {NodeAddress(size)}
  }

  function AddressesOf(table: seq<Entry>): set<Address>
  {
    set e | e in table :: e.addr
  }

  lemma {:induction false} DistinctCount(table: seq<Entry>)
    requires DistinctAddresses(table)
    ensures |AddressesOf(table)| == |table|
  {
    if table != [] {
      var n := |table| - 1;
      DistinctCount(table[..n]);
      assert table == table[..n] + [table[n]];
      assert AddressesOf(table) == AddressesOf(table[..n]) + {table[n].addr};
    }
  }

  lemma AllListed(table: seq<Entry>, size: nat)
    requires DistinctAddresses(table) && forall a :: IsNode(a, size) <==> ListsAddress(table, a)
    ensures |table| == size
  {
    DistinctCount(table);
    forall a ensures a in AddressesOf(table) <==> a in Everybody(size) {
      assert a in AddressesOf(table) <==> ListsAddress(table, a);
    }
    assert AddressesOf(table) == Everybody(size);
  }

  /** So each list then holds each node once, and nothing else. */
  lemma GroupForms(run: seq<System>, k: nat, j: nat)
    requires Calm(run) && j < |run[0].nodes| && LastStart(run) + 11 <= k < |run|
    ensures |run[k].nodes| == |run[0].nodes| == |run[k].nodes[j].table|
    ensures DistinctAddresses(run[k].nodes[j].table) && forall i: nat :: i < |run[0].nodes| ==> Lists(run[k], j, i)
  {
    CalmState(run, k);
    assert MemberOk(run[k], j);
    var table := run[k].nodes[j].table;
    forall i: nat | i < |run[0].nodes| ensures Lists(run[k], j, i) {
      EverybodyJoins(run, k, i, j);
    }
    forall a ensures IsNode(a, |run[0].nodes|) <==> ListsAddress(table, a) {
      if IsNode(a, |run[0].nodes|) {
        assert Lists(run[k], j, a.id - 1);
      }
      if e :| e in table && e.addr == a {
        var x :| 0 <= x < |table| && table[x] == e;
      }
    }
    AllListed(table, |run[0].nodes|);
  }

  /** And seven rounds later everybody is up to date about everybody: no entry is ever older than TFAIL at a check. */
  lemma EverybodyUpToDate(run: seq<System>, k: nat, i: nat, j: nat)
    requires Calm(run) && i < |run[0].nodes| && j < |run[0].nodes| && i != j && LastStart(run) + 18 <= k < |run|
    ensures |run[k].nodes| == |run[0].nodes| && UpToDate(run[k], i, j)
  {
    hide Inv, LosslessStep, Step, Behind, Lists, UpToDate, Initial, StepAt, CalmAt;
    var p := NextPing(run, i, LastStart(run) + 11);
    EverybodyJoins(run, p, j, i);
    CalmStep(run, p);
    PingStep(run[p], run[p + 1], i, j);
    forall l: nat | p + 1 <= l < k ensures ListedAt(run, l, i, j) {
      EverybodyJoins(run, l, j, i);
      CalmStep(run, l);
    }
    forall l: nat | p + 1 <= l <= k ensures LiveAt(run, l, i, j) {
      CalmState(run, l);
    }
    CalmState(run, k);
    ListedIsUpToDate(run, p + 1, k, i, j);
  }
}
