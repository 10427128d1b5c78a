/**
 The whole group (membership-protocol/Application.cpp): in each round every live node first receives what
 is pending for it and then acts on it, so that nothing sent in a round is seen before the next. The
 network may lose, repeat and reorder messages, and nodes may crash after any round.
 */
module Rounds {
  import opened Addresses
  import opened Membership

  datatype System = System(now: nat, nodes: seq<Node>, net: set<Send>)

  /** Four nodes are introduced at each tick (STEP_RATE = 0.25). */
  function StartTime(i: nat): nat
  {
    i / 4
  }

  /** Nodes 4k to 4k + 3, and no others, start at tick k. */
  lemma FourAtATime(i: nat, k: nat)
    ensures StartTime(i) == k <==> 4 * k <= i < 4 * k + 4
  {
  }

  predicate Live(s: System, i: nat)
    requires i < |s.nodes|
  {
    s.now > StartTime(i) && !s.nodes[i].failed
  }

  predicate Started(s: System)
  {
    forall i: nat :: i < |s.nodes| && s.now > StartTime(i) ==> s.nodes[i].table != []
  }

  /** The part of node `i` in a round, given the messages it received. */
  function NodeStep(s: System, i: nat, queue: seq<Msg>): Outcome
    requires i < |s.nodes| && Started(s)
  {
    if s.now == StartTime(i) then NodeStart(s.nodes[i], s.now)
    else if Live(s, i) then NodeLoop(s.nodes[i], s.now, queue)
    else Outcome(s.nodes[i], [])
  }

  predicate Pending(s: System, i: nat, m: Msg)
    requires i < |s.nodes|
  {
    Send(s.nodes[i].addr, m) in s.net
  }

  /** Live nodes, and no others, receive everything that is pending for them. */
  ghost predicate Received(s: System, i: nat, queue: seq<Msg>)
    requires i < |s.nodes|
  {
    if Live(s, i) then forall m :: m in queue <==> Pending(s, i, m) else queue == []
  }

  /** Node `i` has node `x` in its list. */
  predicate Lists(s: System, i: nat, x: nat)
    requires i < |s.nodes|
  {
    exists e :: e in s.nodes[i].table && e.addr == NodeAddress(x + 1)
  }

  predicate Consumed(s: System, p: Send)
  {
    exists i: nat :: i < |s.nodes| && Live(s, i) && s.nodes[i].addr == p.to
  }

  predicate Sent(s: System, inbox: seq<seq<Msg>>, p: Send)
    requires Started(s) && |inbox| == |s.nodes|
  {
    exists i: nat :: i < |s.nodes| && p in NodeStep(s, i, inbox[i]).sends
  }

  function Crash(n: Node, crashed: bool): Node
  {
    n.(failed := n.failed || crashed)
  }

  /** One round, after which the nodes in `crash` fail. */
  ghost predicate Round(s: System, inbox: seq<seq<Msg>>, crash: set<nat>, t: System)
    requires Started(s)
  {
    && |inbox| == |s.nodes| == |t.nodes| && t.now == s.now + 1
    && (forall i: nat :: i < |s.nodes| ==> Received(s, i, inbox[i]))
    && (forall i: nat :: i < |s.nodes| ==> t.nodes[i] == Crash(NodeStep(s, i, inbox[i]).node, i in crash))
    && (forall p :: p in t.net ==> (p in s.net && !Consumed(s, p)) || Sent(s, inbox, p))
  }

  ghost predicate Lossless(s: System, inbox: seq<seq<Msg>>, t: System)
    requires Started(s) && |inbox| == |s.nodes|
  {
    forall p :: (p in s.net && !Consumed(s, p)) || Sent(s, inbox, p) ==> p in t.net
  }

  ghost predicate Step(s: System, t: System)
  {
    Started(s) && exists inbox, crash :: Round(s, inbox, crash, t)
  }

  ghost predicate LosslessStep(s: System, t: System)
  {
    Started(s) && exists inbox, crash :: Round(s, inbox, crash, t) && Lossless(s, inbox, t)
  }

  predicate Initial(s: System)
  {
    && s.now == 0 && s.net == {}
    && forall i: nat :: i < |s.nodes| ==> s.nodes[i] == Node(NodeAddress(i + 1), false, false, false, 0, 0, [])
  }

  ghost predicate StepAt(run: seq<System>, k: nat)
    requires k + 1 < |run|
  {
    Step(run[k], run[k + 1])
  }

  ghost predicate Run(run: seq<System>)
  {
    run != [] && Initial(run[0]) && forall k: nat :: k + 1 < |run| ==> StepAt(run, k)
  }

  // ---------------------------------------------------------------- the invariant

  function Caps(s: System): (caps: seq<int>)
    ensures |caps| == |s.nodes|
  {
    seq(|s.nodes|, i requires 0 <= i < |s.nodes| => s.nodes[i].heartbeat)
  }

  ghost predicate MemberOk(s: System, i: nat)
    requires i < |s.nodes|
  {
    && s.nodes[i].addr == NodeAddress(i + 1)
    && (s.now <= StartTime(i) ==> s.nodes[i].heartbeat == 0 && s.nodes[i].table == [])
    && (s.now > StartTime(i) ==> NodeOk(s.nodes[i], Caps(s), s.now))
  }

  /**
   Started nodes list themselves first and nobody twice, and neither a list nor a message under way credits
   a node with more heartbeats than it has counted.
   */
  ghost predicate Inv(s: System)
  {
    && (forall i: nat :: i < |s.nodes| ==> MemberOk(s, i))
    && (forall p :: p in s.net ==> SendOk(p, Caps(s)))
  }

  lemma InvStarted(s: System)
    requires Inv(s)
    ensures Started(s)
  {
    forall i: nat | i < |s.nodes| && s.now > StartTime(i) ensures s.nodes[i].table != [] {
      assert MemberOk(s, i);
    }
  }

  lemma QueueOk(s: System, i: nat, queue: seq<Msg>)
    requires Inv(s) && i < |s.nodes| && Received(s, i, queue)
    ensures MsgsOk(queue, Caps(s))
  {
    forall k | 0 <= k < |queue| ensures MsgOk(queue[k], Caps(s)) {
      assert queue[k] in queue;
      assert SendOk(Send(s.nodes[i].addr, queue[k]), Caps(s));
    }
  }

  /** What a node's part in a round does, with the counters it leaves to that node. */
  ghost predicate PartOk(s: System, i: nat, o: Outcome)
    requires i < |s.nodes|
  {
    && o.node.addr == NodeAddress(i + 1) && o.node.heartbeat >= s.nodes[i].heartbeat
    && (s.now < StartTime(i) ==> o.node.heartbeat == 0 && o.node.table == [])
    && (s.now >= StartTime(i) ==> NodeOk(o.node, CapsAfter(o.node, Caps(s)), s.now + 1))
    && SendsOk(o.sends, CapsAfter(o.node, Caps(s)))
  }

  lemma NodeLater(n: Node, caps: seq<int>, now: int)
    requires NodeOk(n, caps, now)
    ensures NodeOk(n, caps, now + 1)
  {
  }

  lemma StartOk(n: Node, now: int, caps: seq<int>)
    requires IsNode(n.addr, |caps|) && caps[n.addr.id - 1] == n.heartbeat == 0
    ensures var o := NodeStart(n, now);
      NodeOk(o.node, caps, now + 1) && SendsOk(o.sends, caps) && CapsAfter(o.node, caps) == caps
  {
    assert IsNode(JOIN_ADDRESS, |caps|);
  }

  lemma PartKeepsInv(s: System, i: nat, queue: seq<Msg>)
    requires Inv(s) && Started(s) && i < |s.nodes| && Received(s, i, queue)
    ensures PartOk(s, i, NodeStep(s, i, queue))
  {
    var n := s.nodes[i];
    assert MemberOk(s, i);
    if s.now == StartTime(i) {
      StartOk(n, s.now, Caps(s));
    } else if Live(s, i) {
      QueueOk(s, i, queue);
      NodeLater(n, Caps(s), s.now);
      LoopOk(n, s.now, queue, Caps(s));
    } else {
      assert CapsAfter(n, Caps(s)) == Caps(s);
      if s.now > StartTime(i) {
        NodeLater(n, Caps(s), s.now);
      }
    }
  }

  lemma PartsGrow(s: System, inbox: seq<seq<Msg>>, crash: set<nat>, t: System, i: nat)
    requires Inv(s) && Started(s) && Round(s, inbox, crash, t) && i < |s.nodes|
    requires forall j: nat :: j < |s.nodes| ==> PartOk(s, j, NodeStep(s, j, inbox[j]))
    requires PartOk(s, i, NodeStep(s, i, inbox[i]))
    ensures Grown(CapsAfter(NodeStep(s, i, inbox[i]).node, Caps(s)), Caps(t))
  {
    var n := NodeStep(s, i, inbox[i]).node;
    assert PartOk(s, i, NodeStep(s, i, inbox[i]));
    forall k: nat | k < |s.nodes| ensures CapsAfter(n, Caps(s))[k] <= Caps(t)[k] {
      assert PartOk(s, k, NodeStep(s, k, inbox[k]));
      assert t.nodes[k].heartbeat == NodeStep(s, k, inbox[k]).node.heartbeat;
    }
  }

  lemma NodeGrown(n: Node, m: Node, caps: seq<int>, caps': seq<int>, now: int)
    requires NodeOk(n, caps, now) && Grown(caps, caps')
    requires m == n.(failed := m.failed) && caps'[n.addr.id - 1] == n.heartbeat
    ensures NodeOk(m, caps', now)
  {
    GrownOk(n.table, n.addr, caps, caps', now);
  }

  lemma RoundKeepsMember(s: System, inbox: seq<seq<Msg>>, crash: set<nat>, t: System, i: nat)
    requires Inv(s) && Started(s) && Round(s, inbox, crash, t) && i < |s.nodes|
    requires PartOk(s, i, NodeStep(s, i, inbox[i]))
    requires Grown(CapsAfter(NodeStep(s, i, inbox[i]).node, Caps(s)), Caps(t))
    ensures MemberOk(t, i)
  {
    var o := NodeStep(s, i, inbox[i]);
    assert t.nodes[i] == Crash(o.node, i in crash);
    if s.now >= StartTime(i) {
      NodeGrown(o.node, t.nodes[i], CapsAfter(o.node, Caps(s)), Caps(t), s.now + 1);
    }
  }

  lemma SendGrown(p: Send, caps: seq<int>, caps': seq<int>)
    requires SendOk(p, caps) && Grown(caps, caps')
    ensures SendOk(p, caps')
  {
  }

  /** The invariant is kept by every round, whatever is lost and whoever crashes. */
  lemma RoundKeepsInv(s: System, inbox: seq<seq<Msg>>, crash: set<nat>, t: System)
    requires Inv(s) && Started(s) && Round(s, inbox, crash, t)
    ensures Inv(t) && Grown(Caps(s), Caps(t))
  {
    forall i: nat | i < |s.nodes| ensures PartOk(s, i, NodeStep(s, i, inbox[i])) {
      PartKeepsInv(s, i, inbox[i]);
    }
    forall i: nat | i < |s.nodes| ensures MemberOk(t, i) && Caps(s)[i] <= Caps(t)[i] {
      PartsGrow(s, inbox, crash, t, i);
      RoundKeepsMember(s, inbox, crash, t, i);
      assert PartOk(s, i, NodeStep(s, i, inbox[i]));
    }
    forall p | p in t.net ensures SendOk(p, Caps(t)) {
      if p in s.net {
        SendGrown(p, Caps(s), Caps(t));
      } else {
        SentOk(s, inbox, crash, t, p);
      }
    }
  }

  lemma SendInGrown(p: Send, sends: seq<Send>, caps: seq<int>, caps': seq<int>)
    requires p in sends && SendsOk(sends, caps) && Grown(caps, caps')
    ensures SendOk(p, caps')
  {
    var k :| 0 <= k < |sends| && sends[k] == p;
    SendGrown(p, caps, caps');
  }

  lemma SentOk(s: System, inbox: seq<seq<Msg>>, crash: set<nat>, t: System, p: Send)
    requires Inv(s) && Started(s) && Round(s, inbox, crash, t) && Sent(s, inbox, p)
    requires forall j: nat :: j < |s.nodes| ==> PartOk(s, j, NodeStep(s, j, inbox[j]))
    ensures SendOk(p, Caps(t))
  {
    var i: nat :| i < |s.nodes| && p in NodeStep(s, i, inbox[i]).sends;
    var o := NodeStep(s, i, inbox[i]);
    assert PartOk(s, i, o);
    PartsGrow(s, inbox, crash, t, i);
    SendInGrown(p, o.sends, CapsAfter(o.node, Caps(s)), Caps(t));
  }

  lemma StepKeepsInv(s: System, t: System)
    requires Inv(s) && Step(s, t)
    ensures Inv(t) && t.now == s.now + 1 && |t.nodes| == |s.nodes| && Grown(Caps(s), Caps(t))
  {
    var inbox, crash :| Round(s, inbox, crash, t);
    RoundKeepsInv(s, inbox, crash, t);
  }

  lemma InitialInv(s: System)
    requires Initial(s)
    ensures Inv(s)
  {
  }

  /** Every state of every run satisfies the invariant, and is reached at its time. */
  lemma {:induction false} RunInv(run: seq<System>, k: nat)
    requires Run(run) && k < |run|
    ensures Inv(run[k]) && run[k].now == k && |run[k].nodes| == |run[0].nodes|
  {
    if k == 0 {
      InitialInv(run[0]);
    } else {
      RunInv(run, k - 1);
      assert StepAt(run, k - 1);
      StepKeepsInv(run[k - 1], run[k]);
    }
  }

  lemma RunStep(run: seq<System>, k: nat)
    requires Run(run) && k + 1 < |run|
    ensures Inv(run[k]) && Inv(run[k + 1]) && Step(run[k], run[k + 1]) && run[k].now == k && run[k + 1].now == k + 1
    ensures |run[k].nodes| == |run[k + 1].nodes| == |run[0].nodes|
  {
    RunInv(run, k);
    RunInv(run, k + 1);
    assert StepAt(run, k);
  }

  /** What that means for a started node and for a message under way. */
  lemma Truthful(run: seq<System>, k: nat, i: nat)
    requires Run(run) && k < |run| && i < |run[k].nodes| && k > StartTime(i)
    ensures var n := run[k].nodes[i];
      && n.table != [] && n.table[0].addr == NodeAddress(i + 1) && DistinctAddresses(n.table)
      && (forall e :: e in n.table ==>
        1 <= e.addr.id <= |run[k].nodes| && e.heartbeat <= run[k].nodes[e.addr.id - 1].heartbeat)
    ensures forall p :: p in run[k].net ==>
      1 <= p.msg.source.id <= |run[k].nodes| && p.msg.heartbeat <= run[k].nodes[p.msg.source.id - 1].heartbeat
  {
    RunInv(run, k);
    assert MemberOk(run[k], i);
    var n := run[k].nodes[i];
    forall e | e in n.table
      ensures 1 <= e.addr.id <= |run[k].nodes| && e.heartbeat <= run[k].nodes[e.addr.id - 1].heartbeat
    {
      var j :| 0 <= j < |n.table| && n.table[j] == e;
      assert Credible(n.table[j].addr, n.table[j].heartbeat, Caps(run[k]));
    }
    forall p | p in run[k].net ensures
      1 <= p.msg.source.id <= |run[k].nodes| && p.msg.heartbeat <= run[k].nodes[p.msg.source.id - 1].heartbeat
    {
      assert SendOk(p, Caps(run[k]));
    }
  }
}
