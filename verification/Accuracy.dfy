/**
 Accuracy of failure detection (membership-protocol/MP1Node.cpp): a live node that is heard of in time is
 not removed. A heartbeat is sent every TFAIL + 1 rounds and removal waits for more than TREMOVE.
 */
module Accuracy {
  import opened Addresses
  import opened Membership
  import opened Rounds

  /** The list holds an entry for `a` with at least this heartbeat and time. */
  ghost predicate Has(table: seq<Entry>, a: Address, heartbeat: int, since: int)
  {
    exists e :: e in table && e.addr == a && e.heartbeat >= heartbeat && e.timestamp >= since
  }

  /** What handling messages does to entries: none is lost or set back, and what changes is as of now. */
  ghost predicate Updated(before: seq<Entry>, after: seq<Entry>, now: int)
  {
    && (forall e :: e in before ==> Has(after, e.addr, e.heartbeat, e.timestamp))
    && (forall e :: e in after ==> e.timestamp == now || e in before)
  }

  ghost predicate NotLater(table: seq<Entry>, now: int)
  {
    forall e :: e in table ==> e.timestamp <= now
  }

  ghost predicate HeardOne(m: Msg, table: seq<Entry>)
  {
    exists e :: e in table && e.addr == m.source && e.heartbeat >= m.heartbeat
  }

  lemma UpdateKeeps(n: Node, now: int, m: Msg)
    requires NotLater(n.table, now)
    ensures var o := UpdateMembership(n, now, m.source, m.heartbeat);
      && Updated(n.table, o.node.table, now) && NotLater(o.node.table, now)
      && HeardOne(m, o.node.table)
  {
    var k := IndexOf(n.table, m.source);
    var o := UpdateMembership(n, now, m.source, m.heartbeat);
    var news := Entry(m.source, m.heartbeat, now);
    if k == |n.table| {
      assert o.node.table == n.table + [news];
      assert news in o.node.table;
    } else if m.heartbeat > n.table[k].heartbeat {
      ReplacedKeeps(n.table, k, news, now);
    } else {
      assert n.table[k] in n.table;
    }
  }

  lemma ReplacedKeeps(table: seq<Entry>, k: nat, news: Entry, now: int)
    requires k < |table| && NotLater(table, now) && news.timestamp == now
    requires table[k].addr == news.addr && table[k].heartbeat < news.heartbeat
    ensures Updated(table, table[k := news], now) && NotLater(table[k := news], now) && news in table[k := news]
  {
    var after := table[k := news];
    assert after[k] == news;
    forall e | e in table ensures Has(after, e.addr, e.heartbeat, e.timestamp) {
      var j :| 0 <= j < |table| && table[j] == e;
      assert after[j] in after;
    }
    forall e | e in after ensures e.timestamp == now || e in table {
      var j :| 0 <= j < |after| && after[j] == e;
      assert j == k || table[j] == e;
    }
  }

  lemma RecvKeeps(n: Node, now: int, m: Msg)
    requires NotLater(n.table, now)
    ensures var o := RecvCallBack(n, now, m);
      && Updated(n.table, o.node.table, now) && NotLater(o.node.table, now)
      && HeardOne(m, o.node.table)
  {
    UpdateKeeps(n, now, m);
    UpdateKeeps(n.(inGroup := true), now, m);
  }

  lemma UpdatedCompose(x: seq<Entry>, y: seq<Entry>, z: seq<Entry>, now: int)
    requires Updated(x, y, now) && Updated(y, z, now)
    ensures Updated(x, z, now)
  {
    forall e | e in x ensures Has(z, e.addr, e.heartbeat, e.timestamp) {
      var f :| f in y && f.addr == e.addr && f.heartbeat >= e.heartbeat && f.timestamp >= e.timestamp;
      assert Has(z, f.addr, f.heartbeat, f.timestamp);
    }
  }

  /** Each message in the queue leaves an entry with at least its heartbeat. */
  ghost predicate Heard(queue: seq<Msg>, table: seq<Entry>)
  {
    forall m :: m in queue ==> HeardOne(m, table)
  }

  lemma HeardLater(queue: seq<Msg>, m: Msg, y: seq<Entry>, z: seq<Entry>, now: int)
    requires Heard(queue, y) && Updated(y, z, now) && HeardOne(m, z)
    ensures Heard(queue + [m], z)
  {
    forall x | x in queue ensures HeardOne(x, z) {
      assert HeardOne(x, y);
      var f :| f in y && f.addr == x.source && f.heartbeat >= x.heartbeat;
      assert Has(z, f.addr, f.heartbeat, f.timestamp);
    }
  }

  lemma KeptSame(table: seq<Entry>, now: int)
    ensures Updated(table, table, now) && Heard([], table)
  {
    forall e | e in table ensures Has(table, e.addr, e.heartbeat, e.timestamp) {
    }
  }

  lemma ThenRecv(before: seq<Entry>, y: Node, now: int, queue: seq<Msg>, m: Msg)
    requires Handled(before, queue, y.table, now)
    ensures Handled(before, queue + [m], RecvCallBack(y, now, m).node.table, now)
  {
    RecvKeeps(y, now, m);
    var z := RecvCallBack(y, now, m).node;
    UpdatedCompose(before, y.table, z.table, now);
    HeardLater(queue, m, y.table, z.table, now);
  }

  ghost predicate Handled(before: seq<Entry>, queue: seq<Msg>, after: seq<Entry>, now: int)
  {
    Updated(before, after, now) && NotLater(after, now) && Heard(queue, after)
  }

  lemma {:induction false} CheckKeeps(n: Node, now: int, queue: seq<Msg>)
    requires NotLater(n.table, now)
    ensures Handled(n.table, queue, CheckMessages(n, now, queue).node.table, now)
  {
    if queue == [] {
      KeptSame(n.table, now);
    } else {
      var last := |queue| - 1;
      CheckKeeps(n, now, queue[..last]);
      ThenRecv(n.table, CheckMessages(n, now, queue[..last]).node, now, queue[..last], queue[last]);
      assert queue == queue[..last] + [queue[last]];
    }
  }

  lemma FreshStays(n: Node, now: int, e: Entry)
    requires e in n.table && now - e.timestamp <= TREMOVE
    ensures e in RemoveStale(n, now).table
  {
    FreshOk(n.table[1..], now);
    assert n.table == [n.table[0]] + n.table[1..];
  }

  lemma EntriesNotLater(n: Node, caps: seq<int>, now: int)
    requires NodeOk(n, caps, now)
    ensures NotLater(n.table, now - 1)
  {
    forall e | e in n.table ensures e.timestamp <= now - 1 {
      var k :| 0 <= k < |n.table| && n.table[k] == e;
    }
  }

  /** An entry that is not too old outlives the round, and does not grow older than by time. */
  lemma LoopKeeps(n: Node, now: int, queue: seq<Msg>, caps: seq<int>, e: Entry)
    requires NodeOk(n, caps, now + 1) && MsgsOk(queue, caps) && e in n.table && now - e.timestamp <= TREMOVE
    ensures Has(NodeLoop(n, now, queue).node.table, e.addr, e.heartbeat, e.timestamp)
  {
    if !n.failed {
      EntriesNotLater(n, caps, now + 1);
      CheckKeeps(n, now, queue);
      CheckOk(n, now, queue, caps);
      var y := CheckMessages(n, now, queue).node;
      assert Has(y.table, e.addr, e.heartbeat, e.timestamp);
      var f :| f in y.table && f.addr == e.addr && f.heartbeat >= e.heartbeat && f.timestamp >= e.timestamp;
      if y.inGroup {
        FreshStays(Ping(y).node, now, f);
      }
    }
  }

  /** A message with news leaves an entry as of now. */
  lemma LoopHears(n: Node, now: int, queue: seq<Msg>, caps: seq<int>, m: Msg)
    requires NodeOk(n, caps, now + 1) && MsgsOk(queue, caps) && m in queue && !n.failed
    requires forall e :: e in n.table && e.addr == m.source ==> e.heartbeat < m.heartbeat
    ensures Has(NodeLoop(n, now, queue).node.table, m.source, m.heartbeat, now)
  {
    EntriesNotLater(n, caps, now + 1);
    CheckKeeps(n, now, queue);
    CheckOk(n, now, queue, caps);
    var y := CheckMessages(n, now, queue).node;
    assert HeardOne(m, y.table);
    var f :| f in y.table && f.addr == m.source && f.heartbeat >= m.heartbeat;
    assert f.timestamp == now;
    if y.inGroup {
      FreshStays(Ping(y).node, now, f);
    }
  }

  // ---------------------------------------------------------------- the heartbeat of node i

  const PERIOD := TFAIL + 1

  ghost predicate Beating(s: System, i: nat)
    requires i < |s.nodes|
  {
    Live(s, i) && s.nodes[i].inGroup
  }

  /** A heartbeat of `i` has just been sent, and what it sent reaches `j` in the next round. */
  predicate PingUnderway(s: System, i: nat, j: nat)
    requires i < |s.nodes| && j < |s.nodes|
  {
    Pending(s, j, Msg(Heartbeat, NodeAddress(i + 1), s.nodes[i].heartbeat))
  }

  lemma Beat(s: System, inbox: seq<seq<Msg>>, crash: set<nat>, t: System, i: nat)
    requires Inv(s) && Started(s) && Round(s, inbox, crash, t) && i < |s.nodes| && Beating(s, i)
    ensures t.nodes[i].inGroup
    ensures var n := s.nodes[i];
      if n.pingCounter == 0 then t.nodes[i].pingCounter == TFAIL && t.nodes[i].heartbeat == n.heartbeat + 1
      else t.nodes[i].pingCounter == n.pingCounter - 1 && t.nodes[i].heartbeat == n.heartbeat
  {
    var n := s.nodes[i];
    assert MemberOk(s, i);
    QueueOk(s, i, inbox[i]);
    NodeLater(n, Caps(s), s.now);
    CheckOk(n, s.now, inbox[i], Caps(s));
    assert t.nodes[i] == Crash(NodeStep(s, i, inbox[i]).node, i in crash);
  }

  lemma InBroadcast(table: seq<Entry>, e: Entry, msg: Msg)
    requires e in table
    ensures Send(e.addr, msg) in Broadcast(table, msg)
  {
    var k :| 0 <= k < |table| && table[k] == e;
    assert Broadcast(table, msg)[k] == Send(e.addr, msg);
  }

  lemma LoopPings(n: Node, now: int, queue: seq<Msg>, caps: seq<int>, e: Entry)
    requires NodeOk(n, caps, now + 1) && MsgsOk(queue, caps) && !n.failed && n.inGroup && n.pingCounter == 0 && e in n.table
    ensures Send(e.addr, Msg(Heartbeat, n.addr, n.heartbeat + 1)) in NodeLoop(n, now, queue).sends
  {
    EntriesNotLater(n, caps, now + 1);
    CheckKeeps(n, now, queue);
    CheckOk(n, now, queue, caps);
    var y := CheckMessages(n, now, queue).node;
    assert Has(y.table, e.addr, e.heartbeat, e.timestamp);
    var f :| f in y.table && f.addr == e.addr && f.heartbeat >= e.heartbeat && f.timestamp >= e.timestamp;
    InBroadcast(y.table, f, Msg(Heartbeat, y.addr, y.heartbeat + 1));
  }

  // ---------------------------------------------------------------- how old the entry for i at j can be

  /** After a round in which nothing was due, or in which the last heartbeat due was heard. */
  function Expected(pingCounter: int): int
  {
    if pingCounter == TFAIL then TFAIL else TFAIL - 1 - pingCounter
  }

  /** `j` lists `i`, and at the last removal check the entry was as old as `missed` lost heartbeats allow. */
  ghost predicate Timely(s: System, i: nat, j: nat, missed: nat)
    requires i < |s.nodes| && j < |s.nodes|
  {
    exists e :: e in s.nodes[j].table && e.addr == NodeAddress(i + 1)
      && s.now - 1 - e.timestamp <= Expected(s.nodes[i].pingCounter) + PERIOD * missed
  }

  /** Right after a heartbeat of `i`, `j` has not heard of it. */
  ghost predicate Behind(s: System, i: nat, j: nat)
    requires i < |s.nodes| && j < |s.nodes|
  {
    s.nodes[i].pingCounter == TFAIL ==>
      forall e :: e in s.nodes[j].table && e.addr == NodeAddress(i + 1) ==> e.heartbeat < s.nodes[i].heartbeat
  }

  /** How many heartbeats in a row have been missed after the round from `s`. */
  function NextMissed(s: System, i: nat, j: nat, missed: nat): nat
    requires i < |s.nodes| && j < |s.nodes|
  {
    if s.nodes[i].pingCounter != TFAIL then missed
    else if PingUnderway(s, i, j) then 0
    else missed + 1
  }

  lemma BehindAfterPing(s: System, inbox: seq<seq<Msg>>, crash: set<nat>, t: System, i: nat, j: nat)
    requires Inv(s) && Started(s) && Round(s, inbox, crash, t) && i < |s.nodes| && j < |s.nodes| && i != j
    requires Beating(s, i) && Live(s, j)
    ensures Behind(t, i, j)
  {
    hide NodeLoop, MsgsOk, SendsOk;
    Beat(s, inbox, crash, t, i);
    assert MemberOk(s, i) && MemberOk(s, j);
    PartKeepsInv(s, j, inbox[j]);
    var o := NodeStep(s, j, inbox[j]);
    assert t.nodes[j] == Crash(o.node, j in crash);
    forall e | e in t.nodes[j].table && e.addr == NodeAddress(i + 1) ensures e.heartbeat <= s.nodes[i].heartbeat {
      var k :| 0 <= k < |o.node.table| && o.node.table[k] == e;
      assert Credible(e.addr, e.heartbeat, CapsAfter(o.node, Caps(s)));
    }
  }

  lemma TimelyIfHeard(s: System, inbox: seq<seq<Msg>>, crash: set<nat>, t: System, i: nat, j: nat)
    requires Inv(s) && Started(s) && Round(s, inbox, crash, t) && i < |s.nodes| && j < |s.nodes| && i != j
    requires Beating(s, i) && Live(s, j) && Behind(s, i, j) && s.nodes[i].pingCounter == TFAIL && PingUnderway(s, i, j)
    ensures Timely(t, i, j, 0)
  {
    Beat(s, inbox, crash, t, i);
    assert MemberOk(s, j);
    QueueOk(s, j, inbox[j]);
    NodeLater(s.nodes[j], Caps(s), s.now);
    var m := Msg(Heartbeat, NodeAddress(i + 1), s.nodes[i].heartbeat);
    assert m in inbox[j];
    LoopHears(s.nodes[j], s.now, inbox[j], Caps(s), m);
    assert t.nodes[j] == Crash(NodeStep(s, j, inbox[j]).node, j in crash);
  }

  lemma TimelyIfNot(s: System, inbox: seq<seq<Msg>>, crash: set<nat>, t: System, i: nat, j: nat, missed: nat)
    requires Inv(s) && Started(s) && Round(s, inbox, crash, t) && i < |s.nodes| && j < |s.nodes| && i != j
    requires Beating(s, i) && Live(s, j) && Timely(s, i, j, missed)
    requires if s.nodes[i].pingCounter == TFAIL then missed <= 1 else missed <= 2
    ensures Timely(t, i, j, if s.nodes[i].pingCounter == TFAIL then missed + 1 else missed)
  {
    hide Received, MsgsOk;
    Beat(s, inbox, crash, t, i);
    assert MemberOk(s, j) && MemberOk(s, i);
    QueueOk(s, j, inbox[j]);
    NodeLater(s.nodes[j], Caps(s), s.now);
    var e :| e in s.nodes[j].table && e.addr == NodeAddress(i + 1)
      && s.now - 1 - e.timestamp <= Expected(s.nodes[i].pingCounter) + PERIOD * missed;
    LoopKeeps(s.nodes[j], s.now, inbox[j], Caps(s), e);
    assert t.nodes[j] == Crash(NodeStep(s, j, inbox[j]).node, j in crash);
  }

  /** One round: as long as no three heartbeats in a row are missed, the entry stays. */
  lemma TimelyRound(s: System, inbox: seq<seq<Msg>>, crash: set<nat>, t: System, i: nat, j: nat, missed: nat)
    requires Inv(s) && Started(s) && Round(s, inbox, crash, t) && i < |s.nodes| && j < |s.nodes| && i != j
    requires Beating(s, i) && Live(s, j) && Behind(s, i, j)
    requires Timely(s, i, j, missed) || (s.nodes[i].pingCounter == TFAIL && PingUnderway(s, i, j))
    requires NextMissed(s, i, j, missed) <= 2
    ensures Timely(t, i, j, NextMissed(s, i, j, missed)) && Behind(t, i, j)
  {
    BehindAfterPing(s, inbox, crash, t, i, j);
    if s.nodes[i].pingCounter == TFAIL && PingUnderway(s, i, j) {
      TimelyIfHeard(s, inbox, crash, t, i, j);
    } else {
      TimelyIfNot(s, inbox, crash, t, i, j, missed);
    }
  }

  lemma TimelyStep(s: System, t: System, i: nat, j: nat, missed: nat)
    requires Inv(s) && Step(s, t) && i < |s.nodes| && j < |s.nodes| && i != j
    requires Beating(s, i) && Live(s, j) && Behind(s, i, j)
    requires Timely(s, i, j, missed) || (s.nodes[i].pingCounter == TFAIL && PingUnderway(s, i, j))
    requires NextMissed(s, i, j, missed) <= 2
    ensures |t.nodes| == |s.nodes| && Timely(t, i, j, NextMissed(s, i, j, missed)) && Behind(t, i, j) && t.nodes[i].inGroup
  {
    var inbox, crash :| Round(s, inbox, crash, t);
    TimelyRound(s, inbox, crash, t, i, j, missed);
    Beat(s, inbox, crash, t, i);
  }

  // ---------------------------------------------------------------- over a run

  predicate LiveAt(run: seq<System>, k: nat, i: nat, j: nat)
    requires k < |run|
  {
    i < |run[k].nodes| && j < |run[k].nodes| && Live(run[k], i) && Live(run[k], j)
  }

  /** Both nodes exist, and are live from `from` to `to`. */
  predicate BothLive(run: seq<System>, i: nat, j: nat, from: nat, to: nat)
  {
    forall k: nat :: from <= k <= to && k < |run| ==> LiveAt(run, k, i, j)
  }

  /** The heartbeats of `i` that `j` has missed in a row at time `k`, counted from time `from`. */
  function Missed(run: seq<System>, from: nat, k: nat, i: nat, j: nat): nat
    requires from <= k < |run| && BothLive(run, i, j, from, k)
    decreases k
  {
    if k == from then 0
    else
      assert LiveAt(run, k - 1, i, j);
      NextMissed(run[k - 1], i, j, Missed(run, from, k - 1, i, j))
  }

  /** `i`, in the group, sent its heartbeat in the round before time `k`, and `j` is about to receive it. */
  ghost predicate DirectlyReached(run: seq<System>, k: nat, i: nat, j: nat)
  {
    && 0 < k < |run| && i < |run[k - 1].nodes| && j < |run[k - 1].nodes| && i < |run[k].nodes| && j < |run[k].nodes|
    && Beating(run[k - 1], i) && Live(run[k - 1], j) && run[k - 1].nodes[i].pingCounter == 0
    && PingUnderway(run[k], i, j)
  }

  lemma ReachedStep(s: System, t: System, i: nat, j: nat)
    requires Inv(s) && Step(s, t) && i < |s.nodes| && j < |s.nodes| && i != j
    requires Beating(s, i) && Live(s, j) && s.nodes[i].pingCounter == 0
    ensures |t.nodes| == |s.nodes| && Behind(t, i, j) && t.nodes[i].pingCounter == TFAIL && t.nodes[i].inGroup
  {
    var inbox, crash :| Round(s, inbox, crash, t);
    BehindAfterPing(s, inbox, crash, t, i, j);
    Beat(s, inbox, crash, t, i);
  }

  /**
   Accuracy under loss: after one heartbeat of `i` has directly reached `j`, and as long as both live and no
   three heartbeats in a row fail to arrive, `j` lists `i`, and no removal check finds the entry older
   than 17 ticks. (TREMOVE is 20.)
   */
  lemma {:induction false} NotRemoved(run: seq<System>, from: nat, k: nat, i: nat, j: nat)
    requires Run(run) && i != j && from < k < |run| && BothLive(run, i, j, from, k)
    requires DirectlyReached(run, from, i, j)
    requires forall l :: from <= l <= k ==> Missed(run, from, l, i, j) <= 2
    ensures LiveAt(run, k, i, j) && Timely(run[k], i, j, Missed(run, from, k, i, j)) && Behind(run[k], i, j)
    ensures run[k].nodes[i].inGroup
    decreases k
  {
    assert LiveAt(run, k, i, j) && LiveAt(run, k - 1, i, j);
    var m := Missed(run, from, k - 1, i, j);
    assert Missed(run, from, k, i, j) <= 2;
    RunStep(run, k - 1);
    if k - 1 == from {
      RunStep(run, from - 1);
      ReachedStep(run[from - 1], run[from], i, j);
    } else {
      NotRemoved(run, from, k - 1, i, j);
    }
    TimelyStep(run[k - 1], run[k], i, j, m);
  }

  lemma TimelyAge(s: System, i: nat, j: nat, missed: nat)
    requires Inv(s) && i < |s.nodes| && j < |s.nodes| && Timely(s, i, j, missed) && missed <= 2 && Live(s, i)
    ensures exists e :: e in s.nodes[j].table && e.addr == NodeAddress(i + 1) && s.now - 1 - e.timestamp <= TFAIL + PERIOD * missed
  {
    assert MemberOk(s, i);
  }

  // ---------------------------------------------------------------- without loss

  ghost predicate LosslessAt(run: seq<System>, k: nat)
    requires k + 1 < |run|
  {
    LosslessStep(run[k], run[k + 1])
  }

  lemma SentArrives(s: System, inbox: seq<seq<Msg>>, t: System, i: nat, p: Send)
    requires Started(s) && |inbox| == |s.nodes| && Lossless(s, inbox, t) && i < |s.nodes|
    requires p in NodeStep(s, i, inbox[i]).sends
    ensures p in t.net
  {
    assert Sent(s, inbox, p);
  }

  lemma LoopPingsListed(n: Node, now: int, queue: seq<Msg>, caps: seq<int>, a: Address)
    requires NodeOk(n, caps, now + 1) && MsgsOk(queue, caps) && !n.failed && n.inGroup && n.pingCounter == 0
    requires exists e :: e in n.table && e.addr == a
    ensures Send(a, Msg(Heartbeat, n.addr, n.heartbeat + 1)) in NodeLoop(n, now, queue).sends
  {
    var e :| e in n.table && e.addr == a;
    LoopPings(n, now, queue, caps, e);
  }

  lemma PingSent(s: System, queue: seq<Msg>, i: nat, j: nat)
    requires Inv(s) && Started(s) && i < |s.nodes| && Received(s, i, queue)
    requires Beating(s, i) && s.nodes[i].pingCounter == 0 && Lists(s, i, j)
    ensures Send(NodeAddress(j + 1), Msg(Heartbeat, NodeAddress(i + 1), s.nodes[i].heartbeat + 1)) in NodeStep(s, i, queue).sends
  {
    assert MemberOk(s, i);
    QueueOk(s, i, queue);
    NodeLater(s.nodes[i], Caps(s), s.now);
    LoopPingsListed(s.nodes[i], s.now, queue, Caps(s), NodeAddress(j + 1));
  }

  lemma AddressKept(s: System, inbox: seq<seq<Msg>>, crash: set<nat>, t: System, j: nat)
    requires Inv(s) && Started(s) && Round(s, inbox, crash, t) && j < |s.nodes|
    ensures t.nodes[j].addr == NodeAddress(j + 1)
  {
    PartKeepsInv(s, j, inbox[j]);
    assert t.nodes[j] == Crash(NodeStep(s, j, inbox[j]).node, j in crash);
  }

  lemma PingArrives(s: System, inbox: seq<seq<Msg>>, crash: set<nat>, t: System, i: nat, j: nat)
    requires Inv(s) && Started(s) && Round(s, inbox, crash, t) && Lossless(s, inbox, t)
    requires i < |s.nodes| && j < |s.nodes| && Beating(s, i) && s.nodes[i].pingCounter == 0 && Lists(s, i, j)
    ensures PingUnderway(t, i, j)
  {
    PingSent(s, inbox[i], i, j);
    Beat(s, inbox, crash, t, i);
    AddressKept(s, inbox, crash, t, j);
    SentArrives(s, inbox, t, i, Send(NodeAddress(j + 1), Msg(Heartbeat, NodeAddress(i + 1), t.nodes[i].heartbeat)));
  }

  /** `j` has heard every heartbeat of `i`, or the last one is under way. */
  ghost predicate UpToDate(s: System, i: nat, j: nat)
    requires i < |s.nodes| && j < |s.nodes|
  {
    && Behind(s, i, j) && s.nodes[i].inGroup
    && (s.nodes[i].pingCounter == TFAIL ==> PingUnderway(s, i, j))
    && Timely(s, i, j, 0)
  }

  lemma UpToDateRound(s: System, inbox: seq<seq<Msg>>, crash: set<nat>, t: System, i: nat, j: nat)
    requires Inv(s) && Started(s) && Round(s, inbox, crash, t) && Lossless(s, inbox, t)
    requires i < |s.nodes| && j < |s.nodes| && i != j && Live(s, i) && Live(s, j) && Lists(s, i, j)
    requires UpToDate(s, i, j)
    ensures UpToDate(t, i, j)
  {
    Beat(s, inbox, crash, t, i);
    assert MemberOk(s, i);
    TimelyRound(s, inbox, crash, t, i, j, 0);
    if s.nodes[i].pingCounter == 0 {
      PingArrives(s, inbox, crash, t, i, j);
    }
  }

  lemma MutualStep(s: System, t: System, i: nat, j: nat)
    requires Inv(s) && LosslessStep(s, t) && i < |s.nodes| && j < |s.nodes| && i != j && Live(s, i) && Live(s, j)
    requires UpToDate(s, i, j) && UpToDate(s, j, i)
    ensures |t.nodes| == |s.nodes| && UpToDate(t, i, j) && UpToDate(t, j, i)
  {
    var inbox, crash :| Round(s, inbox, crash, t) && Lossless(s, inbox, t);
    assert Lists(s, i, j) && Lists(s, j, i);
    UpToDateRound(s, inbox, crash, t, i, j);
    UpToDateRound(s, inbox, crash, t, j, i);
  }

  /**
   Accuracy without loss: two live members up to date about each other stay so for as long as both
   live, so neither is ever removed by the other and no check finds an entry older than TFAIL ticks.
   */
  lemma {:induction false} MembersStay(run: seq<System>, from: nat, k: nat, i: nat, j: nat)
    requires Run(run) && i != j && from <= k < |run| && BothLive(run, i, j, from, k)
    requires forall l: nat :: from <= l < k ==> LosslessAt(run, l)
    requires LiveAt(run, from, i, j) && UpToDate(run[from], i, j) && UpToDate(run[from], j, i)
    ensures LiveAt(run, k, i, j) && UpToDate(run[k], i, j) && UpToDate(run[k], j, i)
    decreases k
  {
    assert LiveAt(run, k, i, j);
    if from < k {
      MembersStay(run, from, k - 1, i, j);
      RunStep(run, k - 1);
      assert LosslessAt(run, k - 1);
      MutualStep(run[k - 1], run[k], i, j);
    }
  }

  lemma UpToDateAge(s: System, i: nat, j: nat)
    requires Inv(s) && i < |s.nodes| && j < |s.nodes| && Live(s, i) && UpToDate(s, i, j)
    ensures exists e :: e in s.nodes[j].table && e.addr == NodeAddress(i + 1) && s.now - 1 - e.timestamp <= TFAIL
  {
    TimelyAge(s, i, j, 0);
  }

  ghost predicate ListedAt(run: seq<System>, k: nat, i: nat, j: nat)
    requires k + 1 < |run|
  {
    LosslessAt(run, k) && i < |run[k].nodes| && Lists(run[k], i, j)
  }

  /** While `i` keeps listing `j`, one heartbeat that directly reached `j` is enough to be up to date. */
  lemma {:induction false} ListedIsUpToDate(run: seq<System>, from: nat, k: nat, i: nat, j: nat)
    requires Run(run) && i != j && from < k < |run| && BothLive(run, i, j, from, k)
    requires DirectlyReached(run, from, i, j)
    requires forall l: nat :: from <= l < k ==> ListedAt(run, l, i, j)
    ensures LiveAt(run, k, i, j) && UpToDate(run[k], i, j)
    decreases k
  {
    assert ListedAt(run, k - 1, i, j) && LiveAt(run, k, i, j);
    assert LiveAt(run, k - 1, i, j);
    if k - 1 == from {
      FirstListed(run, from, i, j);
    } else {
      ListedIsUpToDate(run, from, k - 1, i, j);
      RunStep(run, k - 1);
      ListedStep(run[k - 1], run[k], i, j);
    }
  }

  lemma FirstListed(run: seq<System>, from: nat, i: nat, j: nat)
    requires Run(run) && i != j && from + 1 < |run| && LiveAt(run, from, i, j)
    requires DirectlyReached(run, from, i, j) && LosslessAt(run, from)
    ensures i < |run[from + 1].nodes| && j < |run[from + 1].nodes| && UpToDate(run[from + 1], i, j)
  {
    RunStep(run, from);
    RunStep(run, from - 1);
    ReachedStep(run[from - 1], run[from], i, j);
    FirstUpToDate(run[from], run[from + 1], i, j);
  }

  lemma FirstUpToDate(s: System, t: System, i: nat, j: nat)
    requires Inv(s) && LosslessStep(s, t) && i < |s.nodes| && j < |s.nodes| && i != j
    requires Beating(s, i) && Live(s, j) && Behind(s, i, j) && s.nodes[i].pingCounter == TFAIL && PingUnderway(s, i, j)
    ensures |t.nodes| == |s.nodes| && UpToDate(t, i, j)
  {
    var inbox, crash :| Round(s, inbox, crash, t) && Lossless(s, inbox, t);
    TimelyRound(s, inbox, crash, t, i, j, 0);
    Beat(s, inbox, crash, t, i);
  }

  lemma ListedStep(s: System, t: System, i: nat, j: nat)
    requires Inv(s) && LosslessStep(s, t) && i < |s.nodes| && j < |s.nodes| && i != j && Live(s, i) && Live(s, j)
    requires UpToDate(s, i, j) && Lists(s, i, j)
    ensures |t.nodes| == |s.nodes| && UpToDate(t, i, j)
  {
    var inbox, crash :| Round(s, inbox, crash, t) && Lossless(s, inbox, t);
    UpToDateRound(s, inbox, crash, t, i, j);
  }
}
