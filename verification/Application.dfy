/**
 The driver of the membership protocol (membership-protocol/Application.cpp): each tick first lets every
 live node receive and then lets every node act, last node first. Each tick is a round of the group.
 */
module MembershipApplication {
  import opened Addresses
  import opened EmulatedNetwork
  import opened Membership
  import opened Rounds
  import opened HeartbeatNode

  const TOTAL_RUNNING_TIME := 700

  // ---------------------------------------------------------------- the buffer as a set of messages

  function Sends(contents: seq<Packet<Msg>>): set<Send>
  {
    set p | p in contents :: Send(p.to, p.data)
  }

  /** The messages of `before` except those for the live nodes among the first `i`. */
  predicate TakenBy(s: System, to: Address, i: nat)
    requires i <= |s.nodes|
  {
    exists j: nat :: j < i && Live(s, j) && s.nodes[j].addr == to
  }

  ghost predicate Remaining(s: System, before: seq<Packet<Msg>>, i: nat, now: seq<Packet<Msg>>)
    requires i <= |s.nodes|
  {
    forall p :: p in now <==> p in before && !TakenBy(s, p.to, i)
  }

  /** The nodes are those that `ENinit` numbers, and every message is for one of them. */
  ghost predicate Addressed(s: System, contents: seq<Packet<Msg>>)
  {
    && |s.nodes| < 512
    && (forall i: nat :: i < |s.nodes| ==> s.nodes[i].addr == NodeAddress(i + 1))
    && (forall p :: p in contents ==> IsNode(p.to, |s.nodes|))
  }

  lemma ExactMatch(s: System, before: seq<Packet<Msg>>, p: Packet<Msg>, i: nat)
    requires Addressed(s, before) && p in before && i < |s.nodes|
    ensures Matches(p.to, s.nodes[i].addr) <==> p.to == s.nodes[i].addr
  {
    MatchIsEquality(p.to.id, i + 1);
  }

  lemma ReceivedLeft(s: System, before: seq<Packet<Msg>>, i: nat, now: seq<Packet<Msg>>, after: seq<Packet<Msg>>)
    requires i < |s.nodes| && Addressed(s, before) && Remaining(s, before, i, now)
    requires Live(s, i) && multiset(after) == multiset(Left(now, s.nodes[i].addr))
    ensures Remaining(s, before, i + 1, after)
  {
    var a := s.nodes[i].addr;
    TakenAndLeft(now, a);
    forall p ensures p in after <==> p in before && !TakenBy(s, p.to, i + 1) {
      assert p in after <==> p in multiset(after);
      assert p in Left(now, a) <==> p in multiset(Left(now, a));
      if p in before {
        ExactMatch(s, before, p, i);
        TakenNext(s, p.to, i);
      }
    }
  }

  lemma TakenNext(s: System, to: Address, i: nat)
    requires i < |s.nodes|
    ensures TakenBy(s, to, i + 1) <==> TakenBy(s, to, i) || (Live(s, i) && s.nodes[i].addr == to)
  {
  }

  lemma ReceivedQueue(s: System, before: seq<Packet<Msg>>, i: nat, now: seq<Packet<Msg>>)
    requires i < |s.nodes| && Addressed(s, before) && Remaining(s, before, i, now) && s.net == Sends(before)
    requires Live(s, i)
    ensures Received(s, i, Taken(now, s.nodes[i].addr))
  {
    var a := s.nodes[i].addr;
    var queue := Taken(now, a);
    TakenAndLeft(now, a);
    forall m ensures m in queue <==> Pending(s, i, m) {
      if m in queue {
        var p :| p in now && Matches(p.to, a) && p.data == m;
        ExactMatch(s, before, p, i);
      }
      if Pending(s, i, m) {
        var p :| p in before && Send(p.to, p.data) == Send(a, m);
        ExactMatch(s, before, p, i);
        assert !TakenBy(s, a, i);
        assert p in now;
      }
    }
  }

  lemma NotLiveRemaining(s: System, before: seq<Packet<Msg>>, i: nat, now: seq<Packet<Msg>>)
    requires i < |s.nodes| && Remaining(s, before, i, now) && !Live(s, i)
    ensures Remaining(s, before, i + 1, now)
  {
    forall p ensures p in now <==> p in before && !TakenBy(s, p.to, i + 1) {
      TakenNext(s, p.to, i);
    }
  }

  // ---------------------------------------------------------------- the buffer after the nodes have acted

  /** Some node from `i` on has sent it. */
  predicate SentFrom(s: System, inbox: seq<seq<Msg>>, i: nat, p: Send)
    requires Started(s) && |inbox| == |s.nodes|
  {
    exists j: nat :: i <= j < |s.nodes| && p in NodeStep(s, j, inbox[j]).sends
  }

  /** The buffer holds nothing but what was left and what the nodes from `i` on have sent. */
  ghost predicate Holds(s: System, inbox: seq<seq<Msg>>, left: seq<Packet<Msg>>, i: nat, now: seq<Packet<Msg>>)
    requires Started(s) && |inbox| == |s.nodes|
  {
    forall p :: p in Sends(now) ==> p in Sends(left) || SentFrom(s, inbox, i, p)
  }

  ghost predicate HoldsAll(s: System, inbox: seq<seq<Msg>>, left: seq<Packet<Msg>>, i: nat, now: seq<Packet<Msg>>)
    requires Started(s) && |inbox| == |s.nodes|
  {
    forall p :: p in Sends(left) || SentFrom(s, inbox, i, p) ==> p in Sends(now)
  }

  predicate AllAccepted(attempts: seq<Attempt<Msg>>)
  {
    forall k :: 0 <= k < |attempts| ==> attempts[k].accepted
  }

  lemma {:induction false} AcceptedFrom(attempts: seq<Attempt<Msg>>)
    ensures forall p :: p in Accepted(attempts) ==> exists k :: 0 <= k < |attempts| && attempts[k].packet == p
    ensures AllAccepted(attempts) ==> forall k :: 0 <= k < |attempts| ==> attempts[k].packet in Accepted(attempts)
  {
    if attempts != [] {
      var n := |attempts| - 1;
      AcceptedFrom(attempts[..n]);
      forall p | p in Accepted(attempts) ensures exists k :: 0 <= k < |attempts| && attempts[k].packet == p {
        if p in Accepted(attempts[..n]) {
          var k :| 0 <= k < n && attempts[..n][k].packet == p;
          assert attempts[k].packet == p;
        } else {
          assert attempts[n].packet == p;
        }
      }
      if AllAccepted(attempts) {
        forall k | 0 <= k < |attempts| ensures attempts[k].packet in Accepted(attempts) {
          if k < n {
            assert attempts[..n][k].packet in Accepted(attempts[..n]);
          }
        }
      }
    }
  }

  lemma SendsOfNetAfter(a: seq<Attempt<Msg>>, p: seq<Packet<Msg>>, b: seq<Attempt<Msg>>, q: seq<Packet<Msg>>, from: Address, sends: seq<Send>)
    requires NetAfter(a, p, b, q, from, sends)
    ensures forall x :: x in Sends(q) ==> x in Sends(p) || x in sends
    ensures AllAccepted(b[|a|..]) ==> forall x :: x in Sends(p) || x in sends ==> x in Sends(q)
  {
    var tried := b[|a|..];
    AcceptedFrom(tried);
    forall x | x in Sends(q) ensures x in Sends(p) || x in sends {
      var y :| y in q && Send(y.to, y.data) == x;
      if y !in p {
        assert y in Accepted(tried);
        var k :| 0 <= k < |tried| && tried[k].packet == y;
        assert b[|a| + k].packet == Packet(from, sends[k].to, sends[k].msg);
        assert sends[k] == x;
      }
    }
    if AllAccepted(tried) {
      forall x | x in sends ensures x in Sends(q) {
        var k :| 0 <= k < |sends| && sends[k] == x;
        assert b[|a| + k].packet == Packet(from, sends[k].to, sends[k].msg);
        assert tried[k].packet in Accepted(tried);
      }
      forall x | x in Sends(p) ensures x in Sends(q) {
        var y :| y in p && Send(y.to, y.data) == x;
        assert y in q;
      }
    }
  }

  lemma SentFromNext(s: System, inbox: seq<seq<Msg>>, i: nat, p: Send)
    requires Started(s) && |inbox| == |s.nodes| && i < |s.nodes|
    ensures SentFrom(s, inbox, i, p) <==> SentFrom(s, inbox, i + 1, p) || p in NodeStep(s, i, inbox[i]).sends
  {
  }

  lemma HoldsNext(s: System, inbox: seq<seq<Msg>>, left: seq<Packet<Msg>>, i: nat, a: seq<Attempt<Msg>>, p: seq<Packet<Msg>>,
                  b: seq<Attempt<Msg>>, q: seq<Packet<Msg>>, from: Address)
    requires Started(s) && |inbox| == |s.nodes| && i < |s.nodes|
    requires NetAfter(a, p, b, q, from, NodeStep(s, i, inbox[i]).sends)
    ensures Holds(s, inbox, left, i + 1, p) ==> Holds(s, inbox, left, i, q)
    ensures HoldsAll(s, inbox, left, i + 1, p) && AllAccepted(b[|a|..]) ==> HoldsAll(s, inbox, left, i, q)
  {
    SendsOfNetAfter(a, p, b, q, from, NodeStep(s, i, inbox[i]).sends);
    forall x ensures SentFrom(s, inbox, i, x) <==> SentFrom(s, inbox, i + 1, x) || x in NodeStep(s, i, inbox[i]).sends {
      SentFromNext(s, inbox, i, x);
    }
  }

  // ---------------------------------------------------------------- a tick is a round

  lemma TickIsRound(s: System, inbox: seq<seq<Msg>>, crash: set<nat>, t: System,
                    before: seq<Packet<Msg>>, left: seq<Packet<Msg>>, now: seq<Packet<Msg>>)
    requires Started(s) && |inbox| == |s.nodes| == |t.nodes| && t.now == s.now + 1
    requires s.net == Sends(before) && t.net == Sends(now)
    requires forall i: nat :: i < |s.nodes| ==> Received(s, i, inbox[i])
    requires forall i: nat :: i < |s.nodes| ==> t.nodes[i] == Crash(NodeStep(s, i, inbox[i]).node, i in crash)
    requires Remaining(s, before, |s.nodes|, left) && Holds(s, inbox, left, 0, now)
    ensures Round(s, inbox, crash, t)
    ensures HoldsAll(s, inbox, left, 0, now) ==> Lossless(s, inbox, t)
  {
    forall p ensures p in Sends(left) <==> p in s.net && !Consumed(s, p) {
      LeftPending(s, before, left, p);
    }
    forall p ensures Sent(s, inbox, p) <==> SentFrom(s, inbox, 0, p) {
      SentIsFrom(s, inbox, p);
    }
  }

  lemma SentIsFrom(s: System, inbox: seq<seq<Msg>>, p: Send)
    requires Started(s) && |inbox| == |s.nodes|
    ensures Sent(s, inbox, p) <==> SentFrom(s, inbox, 0, p)
  {
  }

  lemma LeftPending(s: System, before: seq<Packet<Msg>>, left: seq<Packet<Msg>>, p: Send)
    requires s.net == Sends(before) && Remaining(s, before, |s.nodes|, left)
    ensures p in Sends(left) <==> p in s.net && !Consumed(s, p)
  {
    assert Consumed(s, p) <==> TakenBy(s, p.to, |s.nodes|);
    if p in s.net && !Consumed(s, p) {
      var x :| x in before && Send(x.to, x.data) == p;
      assert x in left;
    }
    if p in Sends(left) {
      var x :| x in left && Send(x.to, x.data) == p;
      assert x in before;
    }
  }

  function Interval(from: nat, count: nat): (s: set<nat>)
    ensures |s| == count && forall i: nat :: i in s <==> from <= i < from + count
  {
    if count == 0 then {} else Interval(from, count - 1) + {from + count - 1}
  }

  class Application {
    const nodes: seq<MP1Node>
    const en: EmulNet<Msg>
    const singleFailure: bool
    const dropMessages: bool
    var globaltime: nat
    var dropmsg: bool

    ghost predicate Wired()
      reads en, en.buff
    {
      && 0 < |nodes| < 512 && en.Valid()
      && (forall i: nat, j: nat :: i < j < |nodes| ==> nodes[i] != nodes[j])
      && (forall i: nat :: i < |nodes| ==> nodes[i].addr == NodeAddress(i + 1) && nodes[i].emulNet == en)
    }

    ghost function States(): (states: seq<Node>)
      reads nodes
      ensures |states| == |nodes| && forall i: nat :: i < |nodes| ==> states[i] == nodes[i].State()
    {
      seq(|nodes|, i requires 0 <= i < |nodes| reads nodes => nodes[i].State())
    }

    /** The group, as a state of the rounds. */
    ghost function Group(): System
      requires en.Valid()
      reads this, nodes, en, en.buff
    {
      System(globaltime, States(), Sends(en.Contents()))
    }

    ghost predicate QueuesEmpty()
      reads nodes
    {
      forall i: nat :: i < |nodes| ==> nodes[i].mp1q == []
    }

    ghost predicate Valid()
      reads this, nodes, en, en.buff
    {
      Wired() && QueuesEmpty() && Inv(Group())
    }

    constructor (size: nat, singleFailure: bool, dropMessages: bool)
      requires 0 < size < 512
      ensures Valid() && Initial(Group()) && |nodes| == size && en.attempts == []
      ensures this.singleFailure == singleFailure && this.dropMessages == dropMessages
      ensures fresh(en) && fresh(en.buff) && forall i: nat :: i < |nodes| ==> fresh(nodes[i])
    {
      var net := new EmulNet<Msg>();
      var list: seq<MP1Node> := [];
      while |list| < size
        invariant |list| <= size && net.Valid() && net.Contents() == [] && net.attempts == [] && fresh(net) && fresh(net.buff)
        invariant forall i: nat :: i < |list| ==> fresh(list[i]) && list[i].emulNet == net && list[i].mp1q == []
        invariant forall i: nat :: i < |list| ==> list[i].State() == Node(NodeAddress(i + 1), false, false, false, 0, 0, [])
        invariant forall i: nat, j: nat :: i < j < |list| ==> list[i] != list[j]
      {
        var node := new MP1Node(NodeAddress(|list| + 1), net);
        list := list + [node];
      }
      nodes, en := list, net;
      this.singleFailure, this.dropMessages := singleFailure, dropMessages;
      globaltime, dropmsg := 0, false;
      new;
      InitialInv(Group());
    }

    method ReceiveOne(i: nat, ghost s: System, ghost before: seq<Packet<Msg>>)
      requires Wired() && i < |nodes| == |s.nodes| && globaltime == s.now < MAX_TIME
      requires nodes[i].State() == s.nodes[i] && nodes[i].mp1q == []
      requires Addressed(s, before) && s.net == Sends(before) && Remaining(s, before, i, en.Contents())
      modifies nodes[i], en, en.buff
      ensures Wired() && en.buff == old(en.buff) && en.attempts == old(en.attempts)
      ensures nodes[i].State() == s.nodes[i]
      ensures Received(s, i, nodes[i].mp1q) && Remaining(s, before, i + 1, en.Contents())
    {
      if globaltime > StartTime(i) && !nodes[i].bFailed {
        ReceivedQueue(s, before, i, en.Contents());
        ghost var now := en.Contents();
        nodes[i].RecvLoop(globaltime);
        ReceivedLeft(s, before, i, now, en.Contents());
      } else {
        NotLiveRemaining(s, before, i, en.Contents());
      }
    }

    /** Every live node receives what is pending for it, first node first. */
    method ReceiveAll(ghost s: System, ghost before: seq<Packet<Msg>>)
      requires Wired() && QueuesEmpty() && |nodes| == |s.nodes| && globaltime == s.now < MAX_TIME && States() == s.nodes
      requires before == en.Contents() && Addressed(s, before) && s.net == Sends(before)
      modifies nodes, en, en.buff
      ensures Wired() && en.buff == old(en.buff) && en.attempts == old(en.attempts) && States() == s.nodes
      ensures forall i: nat :: i < |nodes| ==> Received(s, i, nodes[i].mp1q)
      ensures Remaining(s, before, |nodes|, en.Contents())
    {
      var i: nat := 0;
      while i < |nodes|
        invariant i <= |nodes| && Wired() && en.buff == old(en.buff) && en.attempts == old(en.attempts)
        invariant forall j: nat :: j < |nodes| ==> nodes[j].State() == s.nodes[j]
        invariant forall j: nat :: j < i ==> Received(s, j, nodes[j].mp1q)
        invariant forall j: nat :: i <= j < |nodes| ==> nodes[j].mp1q == []
        invariant Remaining(s, before, i, en.Contents())
      {
        ReceiveOne(i, s, before);
        i := i + 1;
      }
    }

    /** The part of one node: it starts, or handles its messages, or does nothing. */
    method Act(i: nat, ghost s: System)
      requires Wired() && i < |nodes| && globaltime == s.now < MAX_TIME && |s.nodes| == |nodes| && Started(s)
      requires nodes[i].State() == s.nodes[i] && (!Live(s, i) ==> nodes[i].mp1q == [])
      modifies nodes[i], en, en.buff
      ensures Wired() && en.buff == old(en.buff) && nodes[i].mp1q == []
      ensures var o := NodeStep(s, i, old(nodes[i].mp1q));
        && nodes[i].State() == o.node
        && NetAfter(old(en.attempts), old(en.Contents()), en.attempts, en.Contents(), nodes[i].addr, o.sends)
    {
      NetNothing(en.attempts, en.Contents(), nodes[i].addr);
      if globaltime == StartTime(i) {
        nodes[i].NodeStart(dropmsg, globaltime);
      } else if globaltime > StartTime(i) && !nodes[i].bFailed {
        nodes[i].NodeLoop(dropmsg, globaltime);
      }
    }

    method ActOne(i: nat, ghost s: System, ghost inbox: seq<seq<Msg>>, ghost a: seq<Attempt<Msg>>, ghost left: seq<Packet<Msg>>)
      requires Wired() && i < |nodes| == |s.nodes| == |inbox| && globaltime == s.now < MAX_TIME && Started(s)
      requires nodes[i].State() == s.nodes[i] && nodes[i].mp1q == inbox[i] && Received(s, i, inbox[i])
      requires Tried(s, inbox, a, left, i + 1, en.attempts, en.Contents())
      modifies nodes[i], en, en.buff
      ensures Wired() && en.buff == old(en.buff) && nodes[i].mp1q == [] && nodes[i].State() == NodeStep(s, i, inbox[i]).node
      ensures Tried(s, inbox, a, left, i, en.attempts, en.Contents())
    {
      ghost var b, p := en.attempts, en.Contents();
      Act(i, s);
      TriedNext(s, inbox, a, left, i, b, p, en.attempts, en.Contents(), nodes[i].addr);
    }

    /** Every node acts on what it has received, last node first. */
    method ActAll(ghost s: System, ghost inbox: seq<seq<Msg>>)
      requires Wired() && |nodes| == |s.nodes| == |inbox| && globaltime == s.now < MAX_TIME && Started(s) && States() == s.nodes
      requires forall i: nat :: i < |nodes| ==> nodes[i].mp1q == inbox[i] && Received(s, i, inbox[i])
      modifies nodes, en, en.buff
      ensures Wired() && en.buff == old(en.buff) && QueuesEmpty()
      ensures forall i: nat :: i < |nodes| ==> nodes[i].State() == NodeStep(s, i, inbox[i]).node
      ensures Tried(s, inbox, old(en.attempts), old(en.Contents()), 0, en.attempts, en.Contents())
    {
      hide NodeStep, Tried, Received;
      ghost var a, left := en.attempts, en.Contents();
      var i: nat := |nodes|;
      TriedNothing(s, inbox, a, left);
      while i > 0
        invariant i <= |nodes| && Wired() && en.buff == old(en.buff)
        invariant forall j: nat :: j < i ==> nodes[j].State() == s.nodes[j] && nodes[j].mp1q == inbox[j]
        invariant forall j: nat :: i <= j < |nodes| ==> nodes[j].State() == NodeStep(s, j, inbox[j]).node && nodes[j].mp1q == []
        invariant Tried(s, inbox, a, left, i, en.attempts, en.Contents())
      {
        i := i - 1;
        ActOne(i, s, inbox, a, left);
      }
    }

    /** Runs the protocol for one tick. */
    method Mp1Run(ghost s: System) returns (ghost inbox: seq<seq<Msg>>)
      requires Valid() && s == Group() && globaltime < MAX_TIME
      modifies nodes, en, en.buff
      ensures Wired() && QueuesEmpty() && |inbox| == |s.nodes| == |nodes| && Started(s) && en.buff == old(en.buff)
      ensures forall i: nat :: i < |nodes| ==> Received(s, i, inbox[i]) && nodes[i].State() == NodeStep(s, i, inbox[i]).node
      ensures Exchanged(s, inbox, old(en.attempts), old(en.Contents()), en.attempts, en.Contents())
    {
      InvStarted(s);
      ghost var a, before := en.attempts, en.Contents();
      GroupAddressed(s, before);
      ReceiveAll(s, before);
      ghost var left := en.Contents();
      inbox := seq(|nodes|, i requires 0 <= i < |nodes| reads nodes => nodes[i].mp1q);
      ActAll(s, inbox);
      assert Remaining(s, before, |s.nodes|, left);
    }

    /** Fails one node or half of them at time 100, and drops messages between times 50 and 300. */
    method Fail() returns (ghost crash: set<nat>)
      requires Wired() && QueuesEmpty()
      modifies nodes, this`dropmsg
      ensures Wired() && QueuesEmpty()
      ensures forall i: nat :: i < |nodes| ==> nodes[i].State() == Crash(old(nodes[i].State()), i in crash)
      ensures |crash| == if globaltime != 100 then 0 else if singleFailure then 1 else |nodes| / 2
      ensures dropmsg == if dropMessages && globaltime == 50 then true
                         else if dropMessages && globaltime == 300 then false else old(dropmsg)
    {
      crash := {};
      if dropMessages && globaltime == 50 {
        dropmsg := true;
      }
      if singleFailure && globaltime == 100 {
        var removed: nat :| removed < |nodes|;
        nodes[removed].bFailed := true;
        crash := {removed};
      } else if globaltime == 100 {
        var chosen: nat :| chosen < |nodes|;
        crash := FailHalf(chosen / 2);
      }
      if dropMessages && globaltime == 300 {
        dropmsg := false;
      }
    }

    method FailHalf(removed: nat) returns (ghost crash: set<nat>)
      requires Wired() && QueuesEmpty() && removed <= (|nodes| - 1) / 2
      modifies nodes
      ensures Wired() && QueuesEmpty() && crash == Interval(removed, |nodes| / 2)
      ensures forall i: nat :: i < |nodes| ==> nodes[i].State() == Crash(old(nodes[i].State()), i in crash)
    {
      ghost var was := States();
      var i := removed;
      while i < removed + |nodes| / 2
        invariant removed <= i <= removed + |nodes| / 2 && QueuesEmpty()
        invariant forall j: nat :: j < |nodes| ==> nodes[j].State() == Crash(was[j], removed <= j < i)
      {
        nodes[i].bFailed := true;
        i := i + 1;
      }
      crash := Interval(removed, |nodes| / 2);
    }

    /** The two halves of a turn of the main loop. */
    method RunAndFail(ghost s: System) returns (ghost inbox: seq<seq<Msg>>, ghost crash: set<nat>)
      requires Valid() && s == Group() && globaltime < MAX_TIME
      modifies nodes, this`dropmsg, en, en.buff
      ensures Wired() && QueuesEmpty() && |inbox| == |s.nodes| == |nodes| && Started(s) && en.buff == old(en.buff)
      ensures forall i: nat :: i < |nodes| ==> Received(s, i, inbox[i])
      ensures forall i: nat :: i < |nodes| ==> States()[i] == Crash(NodeStep(s, i, inbox[i]).node, i in crash)
      ensures Exchanged(s, inbox, old(en.attempts), old(en.Contents()), en.attempts, en.Contents())
    {
      inbox := Mp1Run(s);
      crash := Fail();
    }

    /** One turn of the main loop is one round, without loss if every message was accepted. */
    method Tick(ghost s: System)
      requires Valid() && s == Group() && globaltime < MAX_TIME
      modifies this, nodes, en, en.buff
      ensures Valid() && en.buff == old(en.buff) && old(|en.attempts|) <= |en.attempts|
      ensures Step(s, Group()) && globaltime == old(globaltime) + 1
      ensures AllAccepted(en.attempts[old(|en.attempts|)..]) ==> LosslessStep(s, Group())
    {
      ghost var a, before := en.attempts, en.Contents();
      ghost var inbox, crash := RunAndFail(s);
      globaltime := globaltime + 1;
      TickDone(s, inbox, crash, Group(), a, before, en.attempts, en.Contents());
    }

    /** The whole simulation is a run of the group. */
    method Run() returns (ghost run: seq<System>)
      requires Valid() && Initial(Group())
      modifies this, nodes, en, en.buff
      ensures Valid() && |run| == TOTAL_RUNNING_TIME + 1 && Rounds.Run(run) && run[TOTAL_RUNNING_TIME] == Group()
    {
      run := [Group()];
      while globaltime < TOTAL_RUNNING_TIME
        invariant Valid() && en.buff == old(en.buff) && globaltime <= TOTAL_RUNNING_TIME
        invariant |run| == globaltime + 1 && Rounds.Run(run) && run[globaltime] == Group()
      {
        Tick(Group());
        RunExtended(run, Group());
        run := run + [Group()];
      }
    }
  }

  lemma RunExtended(run: seq<System>, t: System)
    requires Rounds.Run(run) && Step(run[|run| - 1], t)
    ensures Rounds.Run(run + [t])
  {
    forall k: nat | k + 1 < |run + [t]| ensures StepAt(run + [t], k) {
      if k + 1 < |run| {
        assert StepAt(run, k);
      }
    }
  }

  lemma GroupAddressed(s: System, contents: seq<Packet<Msg>>)
    requires Inv(s) && s.net == Sends(contents) && |s.nodes| < 512
    ensures Addressed(s, contents)
  {
    forall i: nat | i < |s.nodes| ensures s.nodes[i].addr == NodeAddress(i + 1) {
      assert MemberOk(s, i);
    }
    forall p | p in contents ensures IsNode(p.to, |s.nodes|) {
      assert SendOk(Send(p.to, p.data), Caps(s));
    }
  }

  // ---------------------------------------------------------------- what the nodes from `i` on have sent

  ghost predicate Tried(s: System, inbox: seq<seq<Msg>>, a: seq<Attempt<Msg>>, left: seq<Packet<Msg>>, i: nat,
                        b: seq<Attempt<Msg>>, now: seq<Packet<Msg>>)
    requires Started(s) && |inbox| == |s.nodes|
  {
    && |a| <= |b| && Holds(s, inbox, left, i, now)
    && (AllAccepted(b[|a|..]) ==> HoldsAll(s, inbox, left, i, now))
  }

  lemma TriedNothing(s: System, inbox: seq<seq<Msg>>, a: seq<Attempt<Msg>>, left: seq<Packet<Msg>>)
    requires Started(s) && |inbox| == |s.nodes|
    ensures Tried(s, inbox, a, left, |s.nodes|, a, left)
  {
  }

  lemma TriedNext(s: System, inbox: seq<seq<Msg>>, a: seq<Attempt<Msg>>, left: seq<Packet<Msg>>, i: nat,
                  b: seq<Attempt<Msg>>, p: seq<Packet<Msg>>, c: seq<Attempt<Msg>>, q: seq<Packet<Msg>>, from: Address)
    requires Started(s) && |inbox| == |s.nodes| && i < |s.nodes|
    requires Tried(s, inbox, a, left, i + 1, b, p) && NetAfter(b, p, c, q, from, NodeStep(s, i, inbox[i]).sends)
    ensures Tried(s, inbox, a, left, i, c, q)
  {
    HoldsNext(s, inbox, left, i, b, p, c, q, from);
    AcceptedParts(a, b, c);
  }

  lemma AcceptedParts(a: seq<Attempt<Msg>>, b: seq<Attempt<Msg>>, c: seq<Attempt<Msg>>)
    requires |a| <= |b| <= |c| && b == c[..|b|]
    ensures AllAccepted(c[|a|..]) ==> AllAccepted(b[|a|..]) && AllAccepted(c[|b|..])
  {
    if AllAccepted(c[|a|..]) {
      forall k | 0 <= k < |b| - |a| ensures b[|a|..][k].accepted {
        assert b[|a|..][k] == c[|a|..][k];
      }
      forall k | 0 <= k < |c| - |b| ensures c[|b|..][k].accepted {
        assert c[|b|..][k] == c[|a|..][k + |b| - |a|];
      }
    }
  }

  /** All that happened to the buffer in a tick. */
  ghost predicate Exchanged(s: System, inbox: seq<seq<Msg>>, a: seq<Attempt<Msg>>, before: seq<Packet<Msg>>,
                            b: seq<Attempt<Msg>>, now: seq<Packet<Msg>>)
    requires Started(s) && |inbox| == |s.nodes|
  {
    exists left :: Remaining(s, before, |s.nodes|, left) && Tried(s, inbox, a, left, 0, b, now)
  }

  lemma TickDone(s: System, inbox: seq<seq<Msg>>, crash: set<nat>, t: System, a: seq<Attempt<Msg>>, before: seq<Packet<Msg>>,
                 b: seq<Attempt<Msg>>, now: seq<Packet<Msg>>)
    requires Inv(s) && Started(s) && |inbox| == |s.nodes| == |t.nodes| && t.now == s.now + 1
    requires s.net == Sends(before) && t.net == Sends(now)
    requires forall i: nat :: i < |s.nodes| ==> Received(s, i, inbox[i])
    requires forall i: nat :: i < |s.nodes| ==> t.nodes[i] == Crash(NodeStep(s, i, inbox[i]).node, i in crash)
    requires Exchanged(s, inbox, a, before, b, now)
    ensures Step(s, t) && Inv(t) && |a| <= |b| && (AllAccepted(b[|a|..]) ==> LosslessStep(s, t))
  {
    var left :| Remaining(s, before, |s.nodes|, left) && Tried(s, inbox, a, left, 0, b, now);
    TickIsRound(s, inbox, crash, t, before, left, now);
    RoundKeepsInv(s, inbox, crash, t);
  }
}
