/**
 Completeness of failure detection (membership-protocol/MP1Node.cpp): a crashed node is eventually gone from
 every list, and never comes back, whatever the network loses.
 */
module Completeness {
  import opened Addresses
  import opened Membership
  import opened Rounds

  /** The list holds an entry for `a` below `v`. */
  ghost predicate Low(table: seq<Entry>, a: Address, v: int)
  {
    exists e :: e in table && e.addr == a && e.heartbeat < v
  }

  predicate AtLeast(queue: seq<Msg>, a: Address, v: int)
  {
    forall m :: m in queue && m.source == a ==> m.heartbeat >= v
  }

  /** Nobody but `a` itself makes up messages about it: they are passed on, and only by who learns from them. */
  ghost predicate PassedOn(before: seq<Entry>, after: seq<Entry>, sends: seq<Send>, a: Address, v: int)
  {
    && (Low(after, a, v) ==> Low(before, a, v))
    && forall p :: p in sends && p.msg.source == a ==>
      p.msg.heartbeat >= v && (p.msg.heartbeat == v ==> Low(before, a, v) && !Low(after, a, v))
  }

  lemma UpdatePasses(n: Node, now: int, m: Msg, a: Address, v: int)
    requires DistinctAddresses(n.table) && (m.source == a ==> m.heartbeat >= v)
    ensures var o := UpdateMembership(n, now, m.source, m.heartbeat);
      PassedOn(n.table, o.node.table, o.sends, a, v)
  {
    var o := UpdateMembership(n, now, m.source, m.heartbeat);
    var k := IndexOf(n.table, m.source);
    if k < |n.table| && m.heartbeat > n.table[k].heartbeat {
      Raised(n.table, k, Entry(m.source, m.heartbeat, now), a, v);
    }
  }

  lemma Raised(table: seq<Entry>, k: nat, e: Entry, a: Address, v: int)
    requires DistinctAddresses(table) && k < |table| && table[k].addr == e.addr && table[k].heartbeat < e.heartbeat
    requires e.addr == a ==> e.heartbeat >= v
    ensures Low(table[k := e], a, v) ==> Low(table, a, v)
    ensures e.addr == a ==> !Low(table[k := e], a, v) && (e.heartbeat == v ==> Low(table, a, v))
  {
    var after := table[k := e];
    if x :| x in after && x.addr == a && x.heartbeat < v {
      var j :| 0 <= j < |after| && after[j] == x;
      assert j != k && table[j] == x;
      assert x in table;
    }
    assert table[k] in table;
  }

  lemma RecvPasses(n: Node, now: int, m: Msg, a: Address, v: int)
    requires DistinctAddresses(n.table) && (m.source == a ==> m.heartbeat >= v) && n.addr != a
    ensures var o := RecvCallBack(n, now, m);
      PassedOn(n.table, o.node.table, o.sends, a, v)
  {
    UpdatePasses(n, now, m, a, v);
    UpdatePasses(n.(inGroup := true), now, m, a, v);
  }

  lemma {:induction false} CheckPasses(n: Node, now: int, queue: seq<Msg>, caps: seq<int>, a: Address, v: int)
    requires NodeOk(n, caps, now + 1) && MsgsOk(queue, caps) && AtLeast(queue, a, v) && n.addr != a
    ensures var o := CheckMessages(n, now, queue);
      PassedOn(n.table, o.node.table, o.sends, a, v)
  {
    if queue != [] {
      var last := |queue| - 1;
      CheckPasses(n, now, queue[..last], caps, a, v);
      CheckOk(n, now, queue[..last], caps);
      var o := CheckMessages(n, now, queue[..last]);
      assert queue[last] in queue;
      RecvPasses(o.node, now, queue[last], a, v);
      var p := RecvCallBack(o.node, now, queue[last]);
      PassesCompose(n.table, o.node.table, p.node.table, o.sends, p.sends, a, v);
    }
  }

  lemma PassesCompose(x: seq<Entry>, y: seq<Entry>, z: seq<Entry>, p: seq<Send>, q: seq<Send>, a: Address, v: int)
    requires PassedOn(x, y, p, a, v) && PassedOn(y, z, q, a, v)
    ensures PassedOn(x, z, p + q, a, v)
  {
  }

  lemma PingPasses(n: Node, now: int, a: Address, v: int)
    requires n.table != [] && n.addr != a
    ensures var o := NodeLoopOps(n, now);
      PassedOn(n.table, o.node.table, o.sends, a, v)
  {
    var o := NodeLoopOps(n, now);
    FreshOk(n.table[1..], now);
    assert n.table == [n.table[0]] + n.table[1..];
    assert forall e :: e in o.node.table ==> e in n.table;
  }

  lemma LoopPasses(n: Node, now: int, queue: seq<Msg>, caps: seq<int>, a: Address, v: int)
    requires NodeOk(n, caps, now + 1) && MsgsOk(queue, caps) && AtLeast(queue, a, v) && n.addr != a
    ensures var o := NodeLoop(n, now, queue);
      PassedOn(n.table, o.node.table, o.sends, a, v)
  {
    if !n.failed {
      CheckPasses(n, now, queue, caps, a, v);
      CheckOk(n, now, queue, caps);
      var o := CheckMessages(n, now, queue);
      if o.node.inGroup {
        PingPasses(o.node, now, a, v);
        var p := NodeLoopOps(o.node, now);
        PassesCompose(n.table, o.node.table, p.node.table, o.sends, p.sends, a, v);
      }
    }
  }

  // ---------------------------------------------------------------- messages about a crashed node die out

  predicate AllStarted(s: System)
  {
    forall i: nat :: i < |s.nodes| ==> s.now > StartTime(i)
  }

  predicate Down(s: System, x: nat)
  {
    x < |s.nodes| && s.now > StartTime(x) && s.nodes[x].failed
  }

  /** Messages about node `x` that some live node will receive credit it with at least `v`. */
  ghost predicate Quiet(s: System, x: nat, v: int)
  {
    forall i: nat, m :: i < |s.nodes| && Live(s, i) && Pending(s, i, m) && m.source == NodeAddress(x + 1) ==> m.heartbeat >= v
  }

  ghost predicate LowAt(s: System, i: nat, x: nat, v: int)
    requires i < |s.nodes|
  {
    Live(s, i) && Low(s.nodes[i].table, NodeAddress(x + 1), v)
  }

  /** The live nodes, among the first `m`, with an entry for `x` below `v`. */
  ghost function LowCount(s: System, x: nat, v: int, m: nat): (c: nat)
    requires m <= |s.nodes|
    ensures c <= m
  {
    if m == 0 then 0 else LowCount(s, x, v, m - 1) + if LowAt(s, m - 1, x, v) then 1 else 0
  }

  lemma {:induction false} LowCountLess(s: System, t: System, x: nat, v: int, m: nat)
    requires |s.nodes| == |t.nodes| && m <= |s.nodes|
    requires forall i: nat :: i < m ==> LowAt(t, i, x, v) ==> LowAt(s, i, x, v)
    ensures LowCount(t, x, v, m) <= LowCount(s, x, v, m)
    ensures forall i: nat :: i < m && LowAt(s, i, x, v) && !LowAt(t, i, x, v) ==> LowCount(t, x, v, m) < LowCount(s, x, v, m)
  {
    if m > 0 {
      LowCountLess(s, t, x, v, m - 1);
    }
  }

  lemma QuietQueue(s: System, i: nat, queue: seq<Msg>, x: nat, v: int)
    requires i < |s.nodes| && Live(s, i) && Received(s, i, queue) && Quiet(s, x, v)
    ensures AtLeast(queue, NodeAddress(x + 1), v)
  {
    forall m | m in queue && m.source == NodeAddress(x + 1) ensures m.heartbeat >= v {
      assert Pending(s, i, m);
    }
  }

  ghost predicate Passes(s: System, i: nat, o: Outcome, x: nat, v: int)
    requires i < |s.nodes|
  {
    && o.node.failed == s.nodes[i].failed
    && (Live(s, i) ==> PassedOn(s.nodes[i].table, o.node.table, o.sends, NodeAddress(x + 1), v))
    && (!Live(s, i) ==> o.sends == [])
  }

  lemma PartPasses(s: System, i: nat, queue: seq<Msg>, x: nat, v: int)
    requires Inv(s) && Started(s) && AllStarted(s) && i < |s.nodes| && Received(s, i, queue) && Down(s, x) && Quiet(s, x, v)
    ensures Passes(s, i, NodeStep(s, i, queue), x, v)
  {
    assert MemberOk(s, i);
    if Live(s, i) {
      QueueOk(s, i, queue);
      QuietQueue(s, i, queue, x, v);
      NodeLater(s.nodes[i], Caps(s), s.now);
      LoopPasses(s.nodes[i], s.now, queue, Caps(s), NodeAddress(x + 1), v);
      LoopOk(s.nodes[i], s.now, queue, Caps(s));
    }
  }

  /** A message that a live node will receive next time was sent in this round. */
  lemma NewlySent(s: System, inbox: seq<seq<Msg>>, crash: set<nat>, t: System, i: nat, m: Msg)
    requires Inv(s) && Started(s) && AllStarted(s) && Round(s, inbox, crash, t) && Inv(t)
    requires i < |t.nodes| && Live(t, i) && Pending(t, i, m)
    requires NodeStep(s, i, inbox[i]).node.failed == s.nodes[i].failed
    ensures Sent(s, inbox, Send(NodeAddress(i + 1), m))
  {
    var p := Send(t.nodes[i].addr, m);
    assert MemberOk(t, i) && MemberOk(s, i);
    assert t.nodes[i] == Crash(NodeStep(s, i, inbox[i]).node, i in crash);
    assert Live(s, i) && s.nodes[i].addr == p.to;
    assert Consumed(s, p);
  }

  lemma LowKept(s: System, t: System, i: nat, o: Outcome, crashed: bool, x: nat, v: int)
    requires i < |s.nodes| && i < |t.nodes| && Passes(s, i, o, x, v) && t.nodes[i] == Crash(o.node, crashed) && AllStarted(s)
    ensures LowAt(t, i, x, v) ==> LowAt(s, i, x, v)
    ensures forall p :: p in o.sends && p.msg.source == NodeAddress(x + 1) ==>
      p.msg.heartbeat >= v && (p.msg.heartbeat == v ==> LowAt(s, i, x, v) && !LowAt(t, i, x, v))
  {
  }

  lemma QuietRound(s: System, inbox: seq<seq<Msg>>, crash: set<nat>, t: System, x: nat, v: int)
    requires Inv(s) && Started(s) && AllStarted(s) && Round(s, inbox, crash, t) && Inv(t) && Down(s, x) && Quiet(s, x, v)
    ensures LowCount(t, x, v, |t.nodes|) <= LowCount(s, x, v, |s.nodes|)
    ensures Quiet(t, x, v)
    ensures Quiet(t, x, v + 1) || LowCount(t, x, v, |t.nodes|) < LowCount(s, x, v, |s.nodes|)
  {
    forall i: nat | i < |s.nodes|
      ensures Passes(s, i, NodeStep(s, i, inbox[i]), x, v) && (LowAt(t, i, x, v) ==> LowAt(s, i, x, v))
    {
      PartPasses(s, i, inbox[i], x, v);
      LowKept(s, t, i, NodeStep(s, i, inbox[i]), i in crash, x, v);
    }
    LowCountLess(s, t, x, v, |s.nodes|);
    forall i: nat, m | i < |t.nodes| && Live(t, i) && Pending(t, i, m) && m.source == NodeAddress(x + 1)
      ensures m.heartbeat >= v && (m.heartbeat == v ==> LowCount(t, x, v, |t.nodes|) < LowCount(s, x, v, |s.nodes|))
    {
      assert Passes(s, i, NodeStep(s, i, inbox[i]), x, v);
      NewlySent(s, inbox, crash, t, i, m);
      SenderLearned(s, inbox, crash, t, x, v, Send(NodeAddress(i + 1), m));
    }
  }

  lemma SenderLearned(s: System, inbox: seq<seq<Msg>>, crash: set<nat>, t: System, x: nat, v: int, p: Send)
    requires Started(s) && AllStarted(s) && Round(s, inbox, crash, t) && Sent(s, inbox, p) && p.msg.source == NodeAddress(x + 1)
    requires forall i: nat :: i < |s.nodes| ==> Passes(s, i, NodeStep(s, i, inbox[i]), x, v)
    ensures p.msg.heartbeat >= v
    ensures p.msg.heartbeat == v ==> exists j: nat :: j < |s.nodes| && LowAt(s, j, x, v) && !LowAt(t, j, x, v)
  {
    var j: nat :| j < |s.nodes| && p in NodeStep(s, j, inbox[j]).sends;
    LowKept(s, t, j, NodeStep(s, j, inbox[j]), j in crash, x, v);
  }

  lemma DownStays(s: System, inbox: seq<seq<Msg>>, crash: set<nat>, t: System, x: nat)
    requires Started(s) && AllStarted(s) && Round(s, inbox, crash, t) && Down(s, x)
    ensures AllStarted(t) && Down(t, x) && t.nodes[x].heartbeat == s.nodes[x].heartbeat
  {
    assert NodeStep(s, x, inbox[x]) == Outcome(s.nodes[x], []);
    assert t.nodes[x] == Crash(NodeStep(s, x, inbox[x]).node, x in crash);
  }

  lemma QuietStep(s: System, t: System, x: nat, v: int)
    requires Inv(s) && Step(s, t) && AllStarted(s) && Down(s, x) && Quiet(s, x, v)
    ensures AllStarted(t) && Down(t, x) && Quiet(t, x, v) && t.nodes[x].heartbeat == s.nodes[x].heartbeat
    ensures LowCount(t, x, v, |t.nodes|) <= LowCount(s, x, v, |s.nodes|)
    ensures Quiet(t, x, v + 1) || LowCount(t, x, v, |t.nodes|) < LowCount(s, x, v, |s.nodes|)
  {
    var inbox, crash :| Round(s, inbox, crash, t);
    RoundKeepsInv(s, inbox, crash, t);
    QuietRound(s, inbox, crash, t, x, v);
    DownStays(s, inbox, crash, t, x);
  }

  /** From `k` on, no live node is to receive a message about `x` with less than `v`. */
  ghost predicate QuietFrom(run: seq<System>, k: nat, x: nat, v: int)
    requires k < |run|
  {
    AllStarted(run[k]) && Down(run[k], x) && Quiet(run[k], x, v)
  }

  lemma {:induction false} QuietLater(run: seq<System>, k: nat, l: nat, x: nat, v: int)
    requires Run(run) && k <= l < |run| && QuietFrom(run, k, x, v)
    ensures QuietFrom(run, l, x, v) && run[l].nodes[x].heartbeat == run[k].nodes[x].heartbeat
    decreases l
  {
    if k < l {
      QuietLater(run, k, l - 1, x, v);
      RunStep(run, l - 1);
      QuietStep(run[l - 1], run[l], x, v);
    }
  }

  /** Quiet below `v`, with at most `c` nodes left that may still pass on a message with `v`. */
  ghost predicate Fading(s: System, x: nat, v: int, c: int)
  {
    AllStarted(s) && Down(s, x) && Quiet(s, x, v) && LowCount(s, x, v, |s.nodes|) <= c
  }

  lemma FadingStep(run: seq<System>, k: nat, x: nat, v: int, c: nat) returns (gone: bool)
    requires Run(run) && k + 1 < |run| && Fading(run[k], x, v, c)
    ensures gone ==> QuietFrom(run, k + 1, x, v + 1)
    ensures !gone ==> c > 0 && Fading(run[k + 1], x, v, c - 1)
  {
    RunStep(run, k);
    QuietStep(run[k], run[k + 1], x, v);
    gone := Quiet(run[k + 1], x, v + 1);
  }

  /** The lowest value under way dies out within as many rounds as there are nodes that may pass it on. */
  lemma {:induction false} LowestDies(run: seq<System>, k: nat, x: nat, v: int, c: nat)
    requires Run(run) && k + c + 1 < |run| && Fading(run[k], x, v, c)
    ensures QuietFrom(run, k + c + 1, x, v + 1)
    decreases c
  {
    var gone := FadingStep(run, k, x, v, c);
    if gone {
      QuietLater(run, k + 1, k + c + 1, x, v + 1);
    } else {
      LowestDies(run, k + 1, x, v, c - 1);
    }
  }

  lemma QuietAtZero(s: System, x: nat)
    requires Inv(s)
    ensures Quiet(s, x, 0)
  {
    forall i: nat, m | i < |s.nodes| && Live(s, i) && Pending(s, i, m) ensures m.heartbeat >= 0 {
      assert SendOk(Send(s.nodes[i].addr, m), Caps(s));
    }
  }

  lemma {:induction false} AllDie(run: seq<System>, k: nat, l: nat, x: nat, v: nat)
    requires Run(run) && k < |run| && QuietFrom(run, k, x, 0)
    requires l == k + v * (|run[0].nodes| + 1) < |run|
    ensures QuietFrom(run, l, x, v)
  {
    if v > 0 {
      var n := |run[0].nodes|;
      TimesPrevious(v, n + 1);
      AllDie(run, k, l - n - 1, x, v - 1);
      RunInv(run, l - n - 1);
      LowestDies(run, l - n - 1, x, v - 1, n);
    }
  }

  lemma TimesPrevious(v: nat, n: nat)
    requires v > 0
    ensures v * n == (v - 1) * n + n && (v - 1) * n >= 0
  {
  }

  // ---------------------------------------------------------------- and so do the entries

  /** No node that may still receive messages has one about `x` pending. */
  ghost predicate Silent(s: System, x: nat)
  {
    && Down(s, x)
    && forall i: nat, m :: i < |s.nodes| && Pending(s, i, m) && m.source == NodeAddress(x + 1) ==> Down(s, i)
  }

  /** The entries for `x` of nodes that have not failed are from before `since`. */
  ghost predicate EntriesBefore(s: System, x: nat, since: int)
  {
    forall i: nat, e :: i < |s.nodes| && i != x && !s.nodes[i].failed && e in s.nodes[i].table && e.addr == NodeAddress(x + 1)
      ==> e.timestamp < since
  }

  predicate NoneAbout(queue: seq<Msg>, a: Address)
  {
    forall m :: m in queue ==> m.source != a
  }

  ghost predicate Untouched(before: seq<Entry>, after: seq<Entry>, sends: seq<Send>, a: Address)
  {
    && (forall e :: e in after && e.addr == a ==> e in before)
    && (forall p :: p in sends ==> p.msg.source != a)
  }

  lemma RecvUntouched(n: Node, now: int, m: Msg, a: Address)
    requires m.source != a && n.addr != a
    ensures var o := RecvCallBack(n, now, m);
      Untouched(n.table, o.node.table, o.sends, a) && o.node.addr == n.addr && o.node.failed == n.failed
  {
  }

  lemma {:induction false} CheckUntouched(n: Node, now: int, queue: seq<Msg>, a: Address)
    requires NoneAbout(queue, a) && n.addr != a
    ensures var o := CheckMessages(n, now, queue);
      Untouched(n.table, o.node.table, o.sends, a) && o.node.addr == n.addr && o.node.failed == n.failed
  {
    if queue != [] {
      var last := |queue| - 1;
      CheckUntouched(n, now, queue[..last], a);
      assert queue[last] in queue;
      var o := CheckMessages(n, now, queue[..last]);
      RecvUntouched(o.node, now, queue[last], a);
      var p := RecvCallBack(o.node, now, queue[last]);
      UntouchedCompose(n.table, o.node.table, p.node.table, o.sends, p.sends, a);
    }
  }

  lemma OpsUntouched(n: Node, now: int, a: Address)
    requires n.table != [] && n.addr != a
    ensures var o := NodeLoopOps(n, now);
      && Untouched(n.table, o.node.table, o.sends, a) && o.node.failed == n.failed
      && forall e :: e in o.node.table ==> e == n.table[0] || now - e.timestamp <= TREMOVE
  {
    FreshOk(n.table[1..], now);
    assert n.table == [n.table[0]] + n.table[1..];
  }

  lemma LoopUntouched(n: Node, now: int, queue: seq<Msg>, caps: seq<int>, a: Address)
    requires NodeOk(n, caps, now + 1) && MsgsOk(queue, caps) && NoneAbout(queue, a) && n.addr != a
    ensures var o := NodeLoop(n, now, queue);
      && Untouched(n.table, o.node.table, o.sends, a) && o.node.failed == n.failed
      && (!n.failed && o.node.inGroup ==> forall e :: e in o.node.table && e.addr == a ==> now - e.timestamp <= TREMOVE)
  {
    if !n.failed {
      CheckUntouched(n, now, queue, a);
      CheckOk(n, now, queue, caps);
      var o := CheckMessages(n, now, queue);
      if o.node.inGroup {
        OpsUntouched(o.node, now, a);
        UntouchedCompose(n.table, o.node.table, NodeLoopOps(o.node, now).node.table, o.sends, NodeLoopOps(o.node, now).sends, a);
      }
    }
  }

  lemma UntouchedCompose(x: seq<Entry>, y: seq<Entry>, z: seq<Entry>, p: seq<Send>, q: seq<Send>, a: Address)
    requires Untouched(x, y, p, a) && Untouched(y, z, q, a)
    ensures Untouched(x, z, p + q, a)
  {
  }

  /** What the silence about `x` means for one node's part in a round. */
  ghost predicate Forgets(s: System, i: nat, o: Outcome, x: nat)
    requires i < |s.nodes|
  {
    var a := NodeAddress(x + 1);
    && (forall p :: p in o.sends ==> p.msg.source != a)
    && (!o.node.failed && i != x ==>
      && (forall e :: e in o.node.table && e.addr == a ==> !s.nodes[i].failed && e in s.nodes[i].table)
      && (s.now >= StartTime(i) && o.node.inGroup ==> forall e :: e in o.node.table && e.addr == a ==> s.now - e.timestamp <= TREMOVE))
    && (Down(s, i) ==> o.node.failed)
  }

  lemma PartForgets(s: System, i: nat, queue: seq<Msg>, x: nat)
    requires Inv(s) && Started(s) && i < |s.nodes| && Received(s, i, queue) && Silent(s, x)
    ensures Forgets(s, i, NodeStep(s, i, queue), x)
  {
    var n := s.nodes[i];
    assert MemberOk(s, i);
    if s.now != StartTime(i) && Live(s, i) {
      forall m | m in queue ensures m.source != NodeAddress(x + 1) {
        assert Pending(s, i, m);
      }
      QueueOk(s, i, queue);
      NodeLater(n, Caps(s), s.now);
      LoopUntouched(n, s.now, queue, Caps(s), NodeAddress(x + 1));
    }
  }

  lemma SilentRound(s: System, inbox: seq<seq<Msg>>, crash: set<nat>, t: System, x: nat, since: int)
    requires Inv(s) && Started(s) && Round(s, inbox, crash, t) && Inv(t) && Silent(s, x) && EntriesBefore(s, x, since)
    ensures Silent(t, x) && EntriesBefore(t, x, since)
    ensures forall i: nat :: i < |s.nodes| ==> Forgets(s, i, NodeStep(s, i, inbox[i]), x)
  {
    forall i: nat | i < |s.nodes|
      ensures Forgets(s, i, NodeStep(s, i, inbox[i]), x) && t.nodes[i] == Crash(NodeStep(s, i, inbox[i]).node, i in crash)
    {
      PartForgets(s, i, inbox[i], x);
    }
    forall i: nat, m | i < |t.nodes| && Pending(t, i, m) && m.source == NodeAddress(x + 1) ensures Down(t, i) {
      assert MemberOk(s, i) && MemberOk(t, i);
      assert Pending(s, i, m);
    }
  }

  ghost predicate SilentSince(run: seq<System>, k: nat, x: nat, since: int)
    requires k < |run|
  {
    Silent(run[k], x) && EntriesBefore(run[k], x, since)
  }

  lemma {:induction false} SilentLater(run: seq<System>, k: nat, l: nat, x: nat)
    requires Run(run) && k <= l < |run| && Silent(run[k], x)
    ensures SilentSince(run, l, x, k)
    decreases l
  {
    RunInv(run, k);
    if k < l {
      SilentLater(run, k, l - 1, x);
      RunStep(run, l - 1);
      SilentStep(run[l - 1], run[l], x, k);
    } else {
      EntriesPast(run[k], x);
    }
  }

  lemma EntriesPast(s: System, x: nat)
    requires Inv(s)
    ensures EntriesBefore(s, x, s.now)
  {
    forall i: nat, e | i < |s.nodes| && e in s.nodes[i].table ensures e.timestamp < s.now {
      assert MemberOk(s, i);
      var j :| 0 <= j < |s.nodes[i].table| && s.nodes[i].table[j] == e;
    }
  }

  lemma ForgottenNow(s: System, inbox: seq<seq<Msg>>, crash: set<nat>, t: System, x: nat, since: int, i: nat)
    requires Inv(s) && Started(s) && Round(s, inbox, crash, t) && Silent(s, x) && EntriesBefore(s, x, since)
    requires s.now >= since + TREMOVE && i < |t.nodes| && i != x && Live(t, i) && t.nodes[i].inGroup
    ensures !Lists(t, i, x)
  {
    PartForgets(s, i, inbox[i], x);
    assert t.nodes[i] == Crash(NodeStep(s, i, inbox[i]).node, i in crash);
    assert forall e :: e in t.nodes[i].table && e.addr == NodeAddress(x + 1) ==> e.timestamp < since && s.now - e.timestamp <= TREMOVE;
  }

  lemma ForgottenStep(s: System, t: System, x: nat, since: int, i: nat)
    requires Inv(s) && Step(s, t) && Silent(s, x) && EntriesBefore(s, x, since)
    requires s.now >= since + TREMOVE && i < |t.nodes| && i != x && Live(t, i) && t.nodes[i].inGroup
    ensures !Lists(t, i, x)
  {
    var inbox, crash :| Round(s, inbox, crash, t);
    ForgottenNow(s, inbox, crash, t, x, since, i);
  }

  lemma SilentStep(s: System, t: System, x: nat, since: int)
    requires Inv(s) && Step(s, t) && Silent(s, x) && EntriesBefore(s, x, since)
    ensures Silent(t, x) && EntriesBefore(t, x, since)
  {
    var inbox, crash :| Round(s, inbox, crash, t);
    RoundKeepsInv(s, inbox, crash, t);
    SilentRound(s, inbox, crash, t, x, since);
  }

  /**
   Once a node is down and no message about it is pending for a node that may receive it, every live
   node in the group has dropped it after TREMOVE + 1 rounds, and does not list it at any later time.
   */
  lemma DroppedForGood(run: seq<System>, k: nat, l: nat, x: nat, i: nat)
    requires Run(run) && k + TREMOVE + 1 <= l < |run| && Silent(run[k], x)
    requires i < |run[l].nodes| && i != x && Live(run[l], i) && run[l].nodes[i].inGroup
    ensures !Lists(run[l], i, x)
  {
    SilentLater(run, k, l - 1, x);
    RunStep(run, l - 1);
    ForgottenStep(run[l - 1], run[l], x, k, i);
  }

  /** If no message with at most its counter is under way, then none is. */
  lemma QuietIsSilent(s: System, x: nat)
    requires Inv(s) && AllStarted(s) && Down(s, x) && Quiet(s, x, s.nodes[x].heartbeat + 1)
    ensures Silent(s, x)
  {
    forall i: nat, m | i < |s.nodes| && Pending(s, i, m) && m.source == NodeAddress(x + 1) ensures Down(s, i) {
      assert SendOk(Send(s.nodes[i].addr, m), Caps(s));
      if !Down(s, i) {
        assert Live(s, i);
        assert false;
      }
    }
  }

  /** How long a crashed node can be heard of: each value it has sent, once through the group. */
  function Echo(s: System, x: nat): int
    requires x < |s.nodes|
  {
    (s.nodes[x].heartbeat + 1) * (|s.nodes| + 1)
  }

  /**
   With no hypothesis about the messages under way: once all nodes have been started, a crashed node is
   dropped for good within a number of rounds that its counter and the size of the group determine,
   whatever is lost and whoever else crashes.
   */
  lemma CrashDetected(run: seq<System>, k: nat, l: nat, x: nat, i: nat)
    requires Run(run) && k < |run| && AllStarted(run[k]) && Down(run[k], x)
    requires k + Echo(run[k], x) + TREMOVE + 1 <= l < |run|
    requires i < |run[l].nodes| && i != x && Live(run[l], i) && run[l].nodes[i].inGroup
    ensures !Lists(run[l], i, x)
  {
    RunInv(run, k);
    assert MemberOk(run[k], x);
    var v: nat := run[k].nodes[x].heartbeat + 1;
    var q := k + v * (|run[0].nodes| + 1);
    QuietAtZero(run[k], x);
    AllDie(run, k, q, x, v);
    QuietLater(run, k, q, x, 0);
    RunInv(run, q);
    QuietIsSilent(run[q], x);
    DroppedForGood(run, q, l, x, i);
  }
}
