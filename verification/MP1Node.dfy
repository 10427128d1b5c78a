/**
 One node of the membership protocol (membership-protocol/MP1Node.cpp): a class that updates its list and
 counters and hands messages to the network, proved to do what Membership says.
 */
module HeartbeatNode {
  import opened Addresses
  import opened EmulatedNetwork
  import opened Membership

  const MESSAGE_SIZE := 19           // a type, an address, a gap of one byte and a heartbeat

  // ---------------------------------------------------------------- what a call does to the network

  /** `after` continues `before` with one attempt for each of `sends`, in order. */
  ghost predicate Attempted(before: seq<Attempt<Msg>>, after: seq<Attempt<Msg>>, from: Address, sends: seq<Send>)
  {
    && |after| == |before| + |sends| && before == after[..|before|]
    && forall k :: 0 <= k < |sends| ==> after[|before| + k].packet == Packet(from, sends[k].to, sends[k].msg)
  }

  /** The attempts made, and the buffer gains those that succeeded. */
  ghost predicate NetAfter(before: seq<Attempt<Msg>>, inside: seq<Packet<Msg>>, after: seq<Attempt<Msg>>, inside': seq<Packet<Msg>>,
                           from: Address, sends: seq<Send>)
  {
    && Attempted(before, after, from, sends)
    && inside' == inside + Accepted(after[|before|..])
  }

  lemma {:induction false} AcceptedAppend<T>(x: seq<Attempt<T>>, y: seq<Attempt<T>>)
    ensures Accepted(x + y) == Accepted(x) + Accepted(y)
  {
    if y == [] {
      assert x + y == x;
    } else {
      var n := |y| - 1;
      AcceptedAppend(x, y[..n]);
      assert (x + y)[..|x + y| - 1] == x + y[..n];
    }
  }

  lemma NetCompose(a: seq<Attempt<Msg>>, p: seq<Packet<Msg>>, b: seq<Attempt<Msg>>, q: seq<Packet<Msg>>,
                   c: seq<Attempt<Msg>>, r: seq<Packet<Msg>>, from: Address, sends: seq<Send>, more: seq<Send>)
    requires NetAfter(a, p, b, q, from, sends) && NetAfter(b, q, c, r, from, more)
    ensures NetAfter(a, p, c, r, from, sends + more)
  {
    AcceptedAppend(b[|a|..], c[|b|..]);
    assert c[|a|..] == b[|a|..] + c[|b|..];
    assert a == c[..|a|];
    forall k | 0 <= k < |sends + more| ensures c[|a| + k].packet == Packet(from, (sends + more)[k].to, (sends + more)[k].msg) {
      if k < |sends| {
        assert c[|a| + k] == b[|a| + k];
      } else {
        assert c[|a| + k] == c[|b| + (k - |sends|)];
      }
    }
  }

  lemma NetNothing(a: seq<Attempt<Msg>>, p: seq<Packet<Msg>>, from: Address)
    ensures NetAfter(a, p, a, p, from, [])
  {
  }

  lemma NetOne(a: seq<Attempt<Msg>>, p: seq<Packet<Msg>>, from: Address, s: Send, ok: bool)
    ensures var x := Packet(from, s.to, s.msg);
      NetAfter(a, p, a + [Attempt(x, ok)], p + (if ok then [x] else []), from, [s])
  {
    var t := Attempt(Packet(from, s.to, s.msg), ok);
    assert (a + [t])[|a|..] == [t];
    assert Accepted([t]) == if ok then [t.packet] else [];
  }

  // ---------------------------------------------------------------- the node

  class MP1Node {
    const addr: Address
    const emulNet: EmulNet<Msg>
    var inited: bool
    var inGroup: bool
    var bFailed: bool
    var heartbeat: int
    var pingCounter: int
    var memberList: seq<Entry>
    var mp1q: seq<Msg>

    ghost predicate Valid()
      reads emulNet, emulNet.buff
    {
      0 <= addr.id <= MAX_NODES && emulNet.Valid()
    }

    function State(): Node
      reads this
    {
      Node(addr, inited, inGroup, bFailed, heartbeat, pingCounter, memberList)
    }

    constructor (addr: Address, emulNet: EmulNet<Msg>)
      ensures this.addr == addr && this.emulNet == emulNet && mp1q == []
      ensures State() == Node(addr, false, false, false, 0, 0, [])
    {
      this.addr, this.emulNet := addr, emulNet;
      inited, inGroup, bFailed, heartbeat, pingCounter, memberList, mp1q := false, false, false, 0, 0, [], [];
    }

    method Transmit(to: Address, msg: Msg, dropmsg: bool, time: nat)
      requires Valid() && time < MAX_TIME
      modifies emulNet, emulNet.buff
      ensures Valid() && emulNet.buff == old(emulNet.buff)
      ensures NetAfter(old(emulNet.attempts), old(emulNet.Contents()), emulNet.attempts, emulNet.Contents(), addr, [Send(to, msg)])
    {
      var unlucky: bool := *;
      ghost var a, p := emulNet.attempts, emulNet.Contents();
      NetOne(a, p, addr, Send(to, msg), true);
      NetOne(a, p, addr, Send(to, msg), false);
      var r := emulNet.ENsend(addr, to, msg, MESSAGE_SIZE, dropmsg, unlucky, time);
    }

    method SendHeartbeat(source: Address, beat: int, dropmsg: bool, time: nat)
      requires Valid() && time < MAX_TIME
      modifies emulNet, emulNet.buff
      ensures Valid() && emulNet.buff == old(emulNet.buff)
      ensures NetAfter(old(emulNet.attempts), old(emulNet.Contents()), emulNet.attempts, emulNet.Contents(), addr,
                       Broadcast(memberList, Msg(Heartbeat, source, beat)))
    {
      ghost var a, p := emulNet.attempts, emulNet.Contents();
      var msg := Msg(Heartbeat, source, beat);
      ghost var sends := Broadcast(memberList, msg);
      NetNothing(a, p, addr);
      var k := 0;
      while k < |memberList|
        invariant 0 <= k <= |memberList| && Valid() && emulNet.buff == old(emulNet.buff)
        invariant NetAfter(a, p, emulNet.attempts, emulNet.Contents(), addr, sends[..k])
      {
        ghost var b, q := emulNet.attempts, emulNet.Contents();
        Transmit(memberList[k].addr, msg, dropmsg, time);
        NetCompose(a, p, b, q, emulNet.attempts, emulNet.Contents(), addr, sends[..k], [sends[k]]);
        assert sends[..k] + [sends[k]] == sends[..k + 1];
        k := k + 1;
      }
      assert sends[..k] == sends;
    }

    /** The first entry for the source decides; there may be none. */
    method UpdateMembership(source: Address, received: int, dropmsg: bool, time: nat)
      requires Valid() && time < MAX_TIME
      modifies this`memberList, emulNet, emulNet.buff
      ensures Valid() && emulNet.buff == old(emulNet.buff)
      ensures var o := Membership.UpdateMembership(old(State()), time, source, received);
        && State() == o.node
        && NetAfter(old(emulNet.attempts), old(emulNet.Contents()), emulNet.attempts, emulNet.Contents(), addr, o.sends)
    {
      NetNothing(emulNet.attempts, emulNet.Contents(), addr);
      var k := 0;
      while k < |memberList|
        invariant 0 <= k <= |memberList| && memberList == old(memberList) && Valid()
        invariant forall j :: 0 <= j < k ==> memberList[j].addr != source
      {
        if memberList[k].addr == source {
          FindIs(memberList, source, k);
          if received > memberList[k].heartbeat {
            memberList := memberList[k := Entry(source, received, time)];
            SendHeartbeat(source, received, dropmsg, time);
          }
          return;
        }
        k := k + 1;
      }
      FindIs(memberList, source, k);
      memberList := memberList + [Entry(source, received, time)];
    }

    method RecvCallBack(m: Msg, dropmsg: bool, time: nat)
      requires Valid() && time < MAX_TIME
      modifies this`memberList, this`inGroup, emulNet, emulNet.buff
      ensures Valid() && emulNet.buff == old(emulNet.buff)
      ensures var o := Membership.RecvCallBack(old(State()), time, m);
        && State() == o.node
        && NetAfter(old(emulNet.attempts), old(emulNet.Contents()), emulNet.attempts, emulNet.Contents(), addr, o.sends)
    {
      ghost var a, p := emulNet.attempts, emulNet.Contents();
      if m.kind == JoinReq {
        Transmit(m.source, Msg(JoinRep, addr, heartbeat), dropmsg, time);
        ghost var b, q := emulNet.attempts, emulNet.Contents();
        ghost var n := State();
        UpdateMembership(m.source, m.heartbeat, dropmsg, time);
        NetCompose(a, p, b, q, emulNet.attempts, emulNet.Contents(), addr, [Send(m.source, Msg(JoinRep, addr, heartbeat))],
                   Membership.UpdateMembership(n, time, m.source, m.heartbeat).sends);
      } else {
        if m.kind == JoinRep {
          inGroup := true;
        }
        UpdateMembership(m.source, m.heartbeat, dropmsg, time);
      }
    }

    method CheckMessages(dropmsg: bool, time: nat)
      requires Valid() && time < MAX_TIME
      modifies this`memberList, this`inGroup, this`mp1q, emulNet, emulNet.buff
      ensures Valid() && emulNet.buff == old(emulNet.buff) && mp1q == []
      ensures var o := Membership.CheckMessages(old(State()), time, old(mp1q));
        && State() == o.node
        && NetAfter(old(emulNet.attempts), old(emulNet.Contents()), emulNet.attempts, emulNet.Contents(), addr, o.sends)
    {
      ghost var a, p := emulNet.attempts, emulNet.Contents();
      ghost var n, queue := State(), mp1q;
      ghost var done: seq<Msg> := [];
      NetNothing(a, p, addr);
      assert Membership.CheckMessages(n, time, []) == Outcome(n, []);
      hide Membership.CheckMessages, Membership.RecvCallBack, NetAfter;
      while mp1q != []
        invariant Valid() && emulNet.buff == old(emulNet.buff) && queue == done + mp1q
        invariant State() == Membership.CheckMessages(n, time, done).node
        invariant NetAfter(a, p, emulNet.attempts, emulNet.Contents(), addr, Membership.CheckMessages(n, time, done).sends)
        decreases |mp1q|
      {
        var m := mp1q[0];
        mp1q := mp1q[1..];
        ghost var b, q := emulNet.attempts, emulNet.Contents();
        ghost var o := Membership.CheckMessages(n, time, done);
        RecvCallBack(m, dropmsg, time);
        NetCompose(a, p, b, q, emulNet.attempts, emulNet.Contents(), addr, o.sends, Membership.RecvCallBack(o.node, time, m).sends);
        CheckOneMore(n, time, done, m);
        done := done + [m];
      }
      assert done == queue;
    }

    /** Erases the entries that have not been heard of for too long, never the first. */
    method RemoveStale(time: nat)
      requires memberList != []
      modifies this`memberList
      ensures State() == Membership.RemoveStale(old(State()), time)
    {
      ghost var table := memberList;
      ghost var seen := 1;
      var k := 1;
      while k < |memberList|
        invariant 1 <= k <= |memberList| && 1 <= seen <= |table|
        invariant memberList[..k] == [table[0]] + Fresh(table[1..seen], time) && memberList[k..] == table[seen..]
        decreases |memberList| - k
      {
        ghost var before := memberList;
        assert memberList[k] == memberList[k..][0] == table[seen];
        FreshOneMore(table, seen, time);
        if time - memberList[k].timestamp > TREMOVE {
          memberList := memberList[..k] + memberList[k + 1..];
          assert memberList[..k] == before[..k];
          assert memberList[k..] == before[k..][1..];
        } else {
          k := k + 1;
          assert memberList[..k] == before[..k - 1] + [table[seen]];
          assert memberList[k..] == before[k - 1..][1..];
        }
        seen := seen + 1;
        assert memberList[k..] == table[seen..];
      }
      assert memberList == memberList[..k] + memberList[k..];
      assert table[1..seen] == table[1..];
    }

    method NodeLoopOps(dropmsg: bool, time: nat)
      requires Valid() && time < MAX_TIME && memberList != []
      modifies this`memberList, this`heartbeat, this`pingCounter, emulNet, emulNet.buff
      ensures Valid() && emulNet.buff == old(emulNet.buff)
      ensures var o := Membership.NodeLoopOps(old(State()), time);
        && State() == o.node
        && NetAfter(old(emulNet.attempts), old(emulNet.Contents()), emulNet.attempts, emulNet.Contents(), addr, o.sends)
    {
      NetNothing(emulNet.attempts, emulNet.Contents(), addr);
      if pingCounter == 0 {
        heartbeat := heartbeat + 1;
        SendHeartbeat(addr, heartbeat, dropmsg, time);
        pingCounter := TFAIL;
      } else {
        pingCounter := pingCounter - 1;
      }
      RemoveStale(time);
    }

    method NodeLoop(dropmsg: bool, time: nat)
      requires Valid() && time < MAX_TIME && memberList != []
      modifies this`memberList, this`inGroup, this`mp1q, this`heartbeat, this`pingCounter, emulNet, emulNet.buff
      ensures Valid() && emulNet.buff == old(emulNet.buff) && (!bFailed ==> mp1q == []) && (bFailed ==> mp1q == old(mp1q))
      ensures var o := Membership.NodeLoop(old(State()), time, old(mp1q));
        && State() == o.node
        && NetAfter(old(emulNet.attempts), old(emulNet.Contents()), emulNet.attempts, emulNet.Contents(), addr, o.sends)
    {
      ghost var a, p, n, queue := emulNet.attempts, emulNet.Contents(), State(), mp1q;
      NetNothing(a, p, addr);
      if bFailed {
        return;
      }
      CheckMessages(dropmsg, time);
      TableKept(n, time, queue);
      if !inGroup {
        return;
      }
      ghost var b, q, m := emulNet.attempts, emulNet.Contents(), State();
      NodeLoopOps(dropmsg, time);
      NetCompose(a, p, b, q, emulNet.attempts, emulNet.Contents(), addr, Membership.CheckMessages(n, time, queue).sends,
                 Membership.NodeLoopOps(m, time).sends);
    }

    method InitThisNode(time: nat)
      modifies this
      ensures mp1q == old(mp1q)
      ensures State() == Node(addr, true, false, false, 0, TFAIL, [Entry(addr, 0, time)])
    {
      bFailed := false;
      inited := true;
      inGroup := false;
      heartbeat := 0;
      pingCounter := TFAIL;
      memberList := [Entry(addr, heartbeat, time)];
    }

    method IntroduceSelfToGroup(joinaddr: Address, dropmsg: bool, time: nat)
      requires Valid() && time < MAX_TIME
      modifies this`inGroup, emulNet, emulNet.buff
      ensures Valid() && emulNet.buff == old(emulNet.buff)
      ensures State() == old(State()).(inGroup := old(inGroup) || addr == joinaddr)
      ensures NetAfter(old(emulNet.attempts), old(emulNet.Contents()), emulNet.attempts, emulNet.Contents(), addr,
                       if addr == joinaddr then [] else [Send(joinaddr, Msg(JoinReq, addr, heartbeat))])
    {
      NetNothing(emulNet.attempts, emulNet.Contents(), addr);
      if addr == joinaddr {
        inGroup := true;
      } else {
        Transmit(joinaddr, Msg(JoinReq, addr, heartbeat), dropmsg, time);
      }
    }

    method NodeStart(dropmsg: bool, time: nat)
      requires Valid() && time < MAX_TIME
      modifies this, emulNet, emulNet.buff
      ensures Valid() && emulNet.buff == old(emulNet.buff) && mp1q == old(mp1q)
      ensures var o := Membership.NodeStart(old(State()), time);
        && State() == o.node
        && NetAfter(old(emulNet.attempts), old(emulNet.Contents()), emulNet.attempts, emulNet.Contents(), addr, o.sends)
    {
      InitThisNode(time);
      IntroduceSelfToGroup(JOIN_ADDRESS, dropmsg, time);
    }

    method RecvLoop(time: nat)
      requires Valid() && time < MAX_TIME
      modifies this`mp1q, emulNet`currbuffsize, emulNet`recvMsgs, emulNet.buff
      ensures Valid() && emulNet.buff == old(emulNet.buff) && emulNet.attempts == old(emulNet.attempts)
      ensures bFailed ==> mp1q == old(mp1q) && emulNet.Contents() == old(emulNet.Contents())
      ensures !bFailed ==>
        && mp1q == old(mp1q) + Taken(old(emulNet.Contents()), addr)
        && multiset(emulNet.Contents()) == multiset(Left(old(emulNet.Contents()), addr))
    {
      if !bFailed {
        mp1q := emulNet.ENrecv(addr, mp1q, time);
      }
    }
  }

  lemma FindIs(table: seq<Entry>, a: Address, k: nat)
    requires k <= |table| && (k < |table| ==> table[k].addr == a) && forall j :: 0 <= j < k ==> table[j].addr != a
    ensures IndexOf(table, a) == k
  {
  }

  lemma CheckOneMore(n: Node, time: int, done: seq<Msg>, m: Msg)
    ensures var o := Membership.CheckMessages(n, time, done);
      var p := Membership.RecvCallBack(o.node, time, m);
      Membership.CheckMessages(n, time, done + [m]) == Outcome(p.node, o.sends + p.sends)
  {
    assert (done + [m])[..|done + [m]| - 1] == done;
  }

  lemma FreshOneMore(table: seq<Entry>, seen: nat, time: int)
    requires 1 <= seen < |table|
    ensures Fresh(table[1..seen + 1], time) ==
            Fresh(table[1..seen], time) + if Stale(table[seen], time) then [] else [table[seen]]
  {
    var t := table[1..seen + 1];
    assert t[..|t| - 1] == table[1..seen] && t[|t| - 1] == table[seen];
  }
}
