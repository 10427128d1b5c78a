/**
 The emulated network (membership-protocol/EmulNet.cpp): a bounded buffer of messages, filled at the
 end, emptied by a descending scan that swaps the last message into each gap, and two ledgers.
 */
module EmulatedNetwork {
  import opened Addresses

  const ENBUFFSIZE := 30000
  const MAX_TIME := 3600
  const MAX_MSG_SIZE := 4000
  const HEADER_SIZE := 16            // sizeof(en_msg): a size and two addresses

  datatype Packet<T> = Packet(from: Address, to: Address, data: T)

  datatype Slot<T> = Empty | Full(packet: Packet<T>)

  // ---------------------------------------------------------------- what a receive takes

  /** The messages for `a`, in the order in which the descending scan meets them. */
  function Taken<T>(buffer: seq<Packet<T>>, a: Address): seq<T>
  {
    if buffer == [] then []
    else Taken(buffer[1..], a) + if Matches(buffer[0].to, a) then [buffer[0].data] else []
  }

  function Left<T>(buffer: seq<Packet<T>>, a: Address): seq<Packet<T>>
  {
    if buffer == [] then []
    else (if Matches(buffer[0].to, a) then [] else [buffer[0]]) + Left(buffer[1..], a)
  }

  /** Taking loses nothing: every message is either handed over or left. */
  lemma {:induction false} TakenAndLeft<T>(buffer: seq<Packet<T>>, a: Address)
    ensures |Taken(buffer, a)| + |Left(buffer, a)| == |buffer|
    ensures forall d :: d in Taken(buffer, a) <==> exists p :: p in buffer && Matches(p.to, a) && p.data == d
    ensures forall p :: p in Left(buffer, a) <==> p in buffer && !Matches(p.to, a)
  {
    if buffer != [] {
      TakenAndLeft(buffer[1..], a);
      assert buffer == [buffer[0]] + buffer[1..];
      forall d ensures d in Taken(buffer, a) <==> exists p :: p in buffer && Matches(p.to, a) && p.data == d {
        if p :| p in buffer && Matches(p.to, a) && p.data == d {
          assert p == buffer[0] || p in buffer[1..];
        }
      }
    }
  }

  // ---------------------------------------------------------------- the ledgers

  function RowSum(row: seq<nat>): nat
  {
    if row == [] then 0 else row[0] + RowSum(row[1..])
  }

  /** The sum of a ledger over all nodes and times. */
  function Total(ledger: seq<seq<nat>>): nat
  {
    if ledger == [] then 0 else RowSum(ledger[0]) + Total(ledger[1..])
  }

  /** One cell raised by `k`. */
  function Raised(ledger: seq<seq<nat>>, node: nat, time: nat, k: nat): seq<seq<nat>>
    requires node < |ledger| && time < |ledger[node]|
  {
    var row: seq<nat> := ledger[node][time := ledger[node][time] + k];
    ledger[node := row]
  }

  function Increment(ledger: seq<seq<nat>>, node: nat, time: nat): seq<seq<nat>>
    requires node < |ledger| && time < |ledger[node]|
  {
    Raised(ledger, node, time, 1)
  }

  /** Only the cell of that node and time changes. */
  lemma RaisedCell(ledger: seq<seq<nat>>, node: nat, time: nat, k: nat, n: nat, t: nat)
    requires node < |ledger| && time < |ledger[node]| && n < |ledger| && t < |ledger[n]|
    ensures var r := Raised(ledger, node, time, k);
      |r| == |ledger| && |r[n]| == |ledger[n]| && r[n][t] == ledger[n][t] + if n == node && t == time then k else 0
  {
  }

  lemma RaisedNext(ledger: seq<seq<nat>>, node: nat, time: nat, k: nat)
    requires node < |ledger| && time < |ledger[node]|
    ensures Increment(Raised(ledger, node, time, k), node, time) == Raised(ledger, node, time, k + 1)
  {
    var row := ledger[node];
    assert row[time := row[time] + k][time := row[time] + k + 1] == row[time := row[time] + (k + 1)];
    var next := Raised(ledger, node, time, k);
    assert next[node] == row[time := row[time] + k] && Increment(next, node, time)[node] == row[time := row[time] + (k + 1)];
  }

  lemma RaisedNothing(ledger: seq<seq<nat>>, node: nat, time: nat)
    requires node < |ledger| && time < |ledger[node]|
    ensures Raised(ledger, node, time, 0) == ledger
  {
    assert ledger[node][time := ledger[node][time] + 0] == ledger[node];
  }

  lemma {:induction false} RowIncremented(row: seq<nat>, time: nat)
    requires time < |row|
    ensures RowSum(row[time := row[time] + 1]) == RowSum(row) + 1
  {
    var r := row[time := row[time] + 1];
    if time == 0 {
      assert r[1..] == row[1..];
    } else {
      RowIncremented(row[1..], time - 1);
      assert r[1..] == row[1..][time - 1 := row[1..][time - 1] + 1];
    }
  }

  lemma {:induction false} TotalIncremented(ledger: seq<seq<nat>>, node: nat, time: nat)
    requires node < |ledger| && time < |ledger[node]|
    ensures Total(Increment(ledger, node, time)) == Total(ledger) + 1
  {
    var r := Increment(ledger, node, time);
    if node == 0 {
      RowIncremented(ledger[0], time);
      assert r[1..] == ledger[1..];
    } else {
      TotalIncremented(ledger[1..], node - 1, time);
      assert r[1..] == Increment(ledger[1..], node - 1, time);
    }
  }

  predicate Rectangular(ledger: seq<seq<nat>>)
  {
    |ledger| == MAX_NODES + 1 && forall i :: 0 <= i < |ledger| ==> |ledger[i]| == MAX_TIME
  }

  lemma {:induction false} ZeroRow(n: nat)
    ensures RowSum(seq(n, _ => 0)) == 0
  {
    if n > 0 {
      var row: seq<nat> := seq(n, _ => 0);
      var rest: seq<nat> := seq(n - 1, _ => 0);
      assert row[1..] == rest;
      ZeroRow(n - 1);
    }
  }

  lemma {:induction false} ZeroTotal(ledger: seq<seq<nat>>)
    requires forall i :: 0 <= i < |ledger| ==> ledger[i] == seq(|ledger[i]|, _ => 0)
    ensures Total(ledger) == 0
  {
    if ledger != [] {
      ZeroRow(|ledger[0]|);
      assert ledger[0] == seq(|ledger[0]|, _ => 0);
      ZeroTotal(ledger[1..]);
    }
  }

  // ---------------------------------------------------------------- the network

  /** One call of `ENsend`, and whether the message got into the buffer. */
  datatype Attempt<T> = Attempt(packet: Packet<T>, accepted: bool)

  function Accepted<T>(attempts: seq<Attempt<T>>): seq<Packet<T>>
  {
    if attempts == [] then []
    else
      var n := |attempts| - 1;
      Accepted(attempts[..n]) + if attempts[n].accepted then [attempts[n].packet] else []
  }

  function Packets<T>(slots: seq<Slot<T>>): (s: seq<Packet<T>>)
    requires forall i :: 0 <= i < |slots| ==> slots[i].Full?
    ensures |s| == |slots|
  {
    seq(|slots|, i requires 0 <= i < |slots| => slots[i].packet)
  }

  class EmulNet<T> {
    var buff: array<Slot<T>>
    var currbuffsize: nat
    var sentMsgs: seq<seq<nat>>
    var recvMsgs: seq<seq<nat>>
    ghost var attempts: seq<Attempt<T>>          // every ENsend, in order

    /** The size never exceeds the buffer, and what was sent was received or is still there. */
    ghost predicate Valid()
      reads this, buff
    {
      && buff.Length == ENBUFFSIZE && currbuffsize <= ENBUFFSIZE
      && (forall i :: 0 <= i < currbuffsize ==> buff[i].Full?)
      && Rectangular(sentMsgs) && Rectangular(recvMsgs)
      && Total(sentMsgs) == Total(recvMsgs) + currbuffsize
    }

    ghost function Contents(): (s: seq<Packet<T>>)
      requires Valid()
      reads this, buff
      ensures |s| == currbuffsize
    {
      Packets(buff[..currbuffsize])
    }

    constructor ()
      ensures Valid() && fresh(buff) && Contents() == [] && attempts == []
      ensures Total(sentMsgs) == 0 && Total(recvMsgs) == 0
    {
      buff := new Slot<T>[ENBUFFSIZE](_ => Empty);
      currbuffsize := 0;
      sentMsgs := seq(MAX_NODES + 1, _ => seq(MAX_TIME, _ => 0));
      recvMsgs := seq(MAX_NODES + 1, _ => seq(MAX_TIME, _ => 0));
      attempts := [];
      new;
      ZeroTotal(sentMsgs);
    }

    /**
     Sends a message of `size` bytes, unless the buffer is full, the message too long, or messages are
     being dropped and this one is unlucky.
     */
    method ENsend(myaddr: Address, toaddr: Address, data: T, size: nat, dropmsg: bool, unlucky: bool, time: nat)
      returns (r: nat)
      requires Valid() && 0 <= myaddr.id <= MAX_NODES && time < MAX_TIME
      modifies this, buff
      ensures Valid() && buff == old(buff) && recvMsgs == old(recvMsgs)
      ensures var p := Packet(myaddr, toaddr, data);
        var ok := old(currbuffsize) < ENBUFFSIZE && size + HEADER_SIZE < MAX_MSG_SIZE && !(dropmsg && unlucky);
        && attempts == old(attempts) + [Attempt(p, ok)]
        && Contents() == old(Contents()) + (if ok then [p] else [])
        && r == (if ok then size else 0)
        && sentMsgs == if ok then Increment(old(sentMsgs), myaddr.id, time) else old(sentMsgs)
    {
      var p := Packet(myaddr, toaddr, data);
      if currbuffsize >= ENBUFFSIZE || size + HEADER_SIZE >= MAX_MSG_SIZE || (dropmsg && unlucky) {
        attempts := attempts + [Attempt(p, false)];
        return 0;
      }
      TotalIncremented(sentMsgs, myaddr.id, time);
      buff[currbuffsize] := Full(p);
      currbuffsize := currbuffsize + 1;
      sentMsgs := Increment(sentMsgs, myaddr.id, time);
      attempts := attempts + [Attempt(p, true)];
      return size;
    }

    /**
     Hands over exactly the messages for `myaddr`, last sent first, and leaves exactly the rest.
     */
    method ENrecv(myaddr: Address, queue: seq<T>, time: nat) returns (queue': seq<T>)
      requires Valid() && 0 <= myaddr.id <= MAX_NODES && time < MAX_TIME
      modifies this`currbuffsize, this`recvMsgs, buff
      ensures Valid() && buff == old(buff) && sentMsgs == old(sentMsgs) && attempts == old(attempts)
      ensures queue' == queue + Taken(old(Contents()), myaddr)
      ensures multiset(Contents()) == multiset(Left(old(Contents()), myaddr))
      ensures recvMsgs == Raised(old(recvMsgs), myaddr.id, time, |Taken(old(Contents()), myaddr)|)
    {
      hide Taken, Left, Raised, Increment, Total, Matches, SwapOut;
      queue' := queue;
      var i := currbuffsize;
      ghost var o := Contents();
      RaisedNothing(recvMsgs, myaddr.id, time);
      ScanBegins(o, myaddr, queue);
      while i > 0
        invariant 0 <= i <= currbuffsize && Valid() && buff == old(buff) && sentMsgs == old(sentMsgs) && attempts == old(attempts)
        invariant Scanned(o, i, myaddr, Contents(), queue, queue')
        invariant |queue'| >= |queue| && recvMsgs == Raised(old(recvMsgs), myaddr.id, time, |queue'| - |queue|)
      {
        i := i - 1;
        var emsg := buff[i].packet;
        ghost var before := Contents();
        ScanStep(o, i, myaddr, before, queue, queue');
        if Matches(emsg.to, myaddr) {
          RaisedNext(old(recvMsgs), myaddr.id, time, |queue'| - |queue|);
          SwapOutAt(i, myaddr.id, time);
          queue' := queue' + [emsg.data];
        }
      }
    }

    /** Moves the last message into place `i`, whose message is received. */
    method SwapOutAt(i: nat, node: nat, time: nat)
      requires Valid() && i < currbuffsize && node <= MAX_NODES && time < MAX_TIME
      modifies this`currbuffsize, this`recvMsgs, buff
      ensures Valid() && Contents() == SwapOut(old(Contents()), i)
      ensures recvMsgs == Increment(old(recvMsgs), node, time)
    {
      TotalIncremented(recvMsgs, node, time);
      buff[i] := buff[currbuffsize - 1];
      currbuffsize := currbuffsize - 1;
      recvMsgs := Increment(recvMsgs, node, time);
    }
  }

  /**
   The state of the scan of the messages `o` down to place `i`: those below are untouched, those from
   `i` on have been either queued or kept, in some order.
   */
  ghost predicate Scanned<T>(o: seq<Packet<T>>, i: nat, a: Address, now: seq<Packet<T>>, queue: seq<T>, queue': seq<T>)
  {
    && i <= |now| && i <= |o| && now[..i] == o[..i]
    && multiset(now[i..]) == multiset(Left(o[i..], a))
    && queue' == queue + Taken(o[i..], a)
  }

  /** The last message moved into place `i`. */
  function SwapOut<T>(s: seq<T>, i: nat): seq<T>
    requires i < |s|
  {
    s[i := s[|s| - 1]][..|s| - 1]
  }

  lemma SwapOutRest<T>(s: seq<T>, i: nat)
    requires i < |s|
    ensures SwapOut(s, i)[..i] == s[..i] && multiset(SwapOut(s, i)[i..]) == multiset(s[i + 1..])
  {
    var n := |s| - 1;
    if i < n {
      assert SwapOut(s, i)[i..] == [s[n]] + s[i + 1..n];
      assert s[i + 1..] == s[i + 1..n] + [s[n]];
    } else {
      assert SwapOut(s, i)[i..] == [] == s[i + 1..];
    }
  }

  lemma ScanBegins<T>(o: seq<Packet<T>>, a: Address, queue: seq<T>)
    ensures Scanned(o, |o|, a, o, queue, queue)
  {
  }

  lemma ScanStep<T>(o: seq<Packet<T>>, i: nat, a: Address, now: seq<Packet<T>>, queue: seq<T>, queue': seq<T>)
    requires i < |o| && i < |now| && Scanned(o, i + 1, a, now, queue, queue')
    ensures now[i] == o[i]
    ensures Matches(o[i].to, a) ==> Scanned(o, i, a, SwapOut(now, i), queue, queue' + [o[i].data])
    ensures !Matches(o[i].to, a) ==> Scanned(o, i, a, now, queue, queue')
  {
    assert now[i] == now[..i + 1][i] == o[..i + 1][i] == o[i];
    assert now[..i] == now[..i + 1][..i] == o[..i + 1][..i] == o[..i];
    ScanOne(o, i, a);
    if Matches(o[i].to, a) {
      ScanHit(o, i, a, now, queue, queue');
    } else {
      ScanMiss(o, i, a, now, queue, queue');
    }
  }

  lemma ScanHit<T>(o: seq<Packet<T>>, i: nat, a: Address, now: seq<Packet<T>>, queue: seq<T>, queue': seq<T>)
    requires i < |o| && i < |now| && Scanned(o, i + 1, a, now, queue, queue') && now[..i] == o[..i]
    requires Taken(o[i..], a) == Taken(o[i + 1..], a) + [o[i].data] && Left(o[i..], a) == [] + Left(o[i + 1..], a)
    ensures Scanned(o, i, a, SwapOut(now, i), queue, queue' + [o[i].data])
  {
    hide Taken, Left;
    SwapOutRest(now, i);
  }

  lemma ScanMiss<T>(o: seq<Packet<T>>, i: nat, a: Address, now: seq<Packet<T>>, queue: seq<T>, queue': seq<T>)
    requires i < |o| && i < |now| && Scanned(o, i + 1, a, now, queue, queue') && now[..i] == o[..i] && now[i] == o[i]
    requires Taken(o[i..], a) == Taken(o[i + 1..], a) + [] && Left(o[i..], a) == [o[i]] + Left(o[i + 1..], a)
    ensures Scanned(o, i, a, now, queue, queue')
  {
    hide Taken, Left;
    assert now[i..] == [now[i]] + now[i + 1..];
  }

  lemma ScanOne<T>(o: seq<Packet<T>>, i: nat, a: Address)
    requires i < |o|
    ensures Taken(o[i..], a) == Taken(o[i + 1..], a) + if Matches(o[i].to, a) then [o[i].data] else []
    ensures Left(o[i..], a) == (if Matches(o[i].to, a) then [] else [o[i]]) + Left(o[i + 1..], a)
  {
    assert o[i..][1..] == o[i + 1..];
  }
}
