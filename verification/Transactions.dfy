/**
 One client transaction (key-value-store/MP2Node.cpp, key-value-store/Application.cpp, mp2Run): the request
 goes to three holders, is handled a tick later, and the replies meet at the coordinator a tick after that.
 */
module Transactions {
  import opened Collections
  import opened Addresses
  import opened Messages
  import opened Servers

  /** A node between ticks: the replies gathered are gone, the operations it coordinates stay. */
  datatype KvNode = KvNode(addr: Address, failed: bool, table: map<string, string>, operations: map<int, Message>)

  datatype Group = Group(transID: int, nodes: seq<KvNode>, net: multiset<Wire>)

  /** What is open about a tick: what stabilization does, what arrives, and what clients ask for. */
  datatype Choice = Choice(tables: seq<map<string, string>>, roles: seq<int>, copies: seq<Wire>, inbox: seq<seq<Message>>,
                           operations: seq<map<int, Message>>, requests: seq<Wire>, copyID: int, time: int)

  predicate OwnAddresses(s: Group)
  {
    forall i, j :: 0 <= i < j < |s.nodes| ==> s.nodes[i].addr != s.nodes[j].addr
  }

  function Place(nodes: seq<KvNode>, a: Address): (i: nat)
    ensures i <= |nodes| && (i < |nodes| ==> nodes[i].addr == a)
    ensures forall j :: 0 <= j < i ==> nodes[j].addr != a
  {
    if nodes == [] || nodes[0].addr == a then 0 else 1 + Place(nodes[1..], a)
  }

  /** How node `i` handles what has arrived. */
  function Part(s: Group, c: Choice, i: nat): Handled
    requires i < |s.nodes| && |c.tables| == |c.roles| == |c.inbox| == |s.nodes|
  {
    HandleAll(Server(c.tables[i], map[], map[], c.roles[i]), s.nodes[i].addr, c.time, c.inbox[i])
  }

  function Sum(parts: seq<multiset<Wire>>): multiset<Wire>
  {
    if parts == [] then multiset{} else Sum(parts[..|parts| - 1]) + parts[|parts| - 1]
  }

  /** What all nodes send in answer to what has arrived. */
  function Replies(s: Group, c: Choice): multiset<Wire>
    requires |c.tables| == |c.roles| == |c.inbox| == |s.nodes|
  {
    Sum(seq(|s.nodes|, i requires 0 <= i < |s.nodes| => multiset(Part(s, c, i).sends)))
  }

  /** How many copies of a message have been handed to a live node. */
  function HandedOver(s: Group, c: Choice, w: Wire): nat
    requires |c.inbox| == |s.nodes|
  {
    var i := Place(s.nodes, w.to);
    if i < |s.nodes| && !s.nodes[i].failed then multiset(c.inbox[i])[w.msg] else 0
  }

  /** All that was pending arrives; of the copies sent in this tick, some do. */
  ghost predicate Arrives(s: Group, c: Choice, i: nat)
    requires i < |s.nodes| && |c.inbox| == |s.nodes|
  {
    if s.nodes[i].failed then c.inbox[i] == []
    else forall m :: s.net[Wire(s.nodes[i].addr, m)] <= multiset(c.inbox[i])[m]
                     <= s.net[Wire(s.nodes[i].addr, m)] + multiset(c.copies)[Wire(s.nodes[i].addr, m)]
  }

  /** Transaction numbers come from one counter: first those of the copies, then those of the clients. */
  ghost predicate Numbered(s: Group, c: Choice, t: Group)
  {
    && s.transID <= c.copyID <= t.transID
    && (forall w :: w in c.copies ==> s.transID < w.msg.transID <= c.copyID)
    && (forall w :: w in c.requests ==> c.copyID < w.msg.transID <= t.transID)
  }

  ghost predicate OperationsGrow(s: Group, c: Choice, t: Group, i: nat)
    requires i < |s.nodes| && |c.operations| == |s.nodes|
  {
    && (forall id :: id in s.nodes[i].operations ==> id in c.operations[i] && c.operations[i][id] == s.nodes[i].operations[id])
    && (forall id :: id in c.operations[i] && id !in s.nodes[i].operations ==> c.copyID < id <= t.transID)
  }

  ghost predicate Tick(s: Group, c: Choice, t: Group)
  {
    && |c.tables| == |c.roles| == |c.inbox| == |c.operations| == |s.nodes| == |t.nodes| && OwnAddresses(s)
    && Numbered(s, c, t)
    && (forall i: nat :: i < |s.nodes| ==> Arrives(s, c, i) && OperationsGrow(s, c, t, i))
    && (forall i: nat :: i < |s.nodes| ==> t.nodes[i].addr == s.nodes[i].addr && t.nodes[i].operations == c.operations[i]
                                           && (s.nodes[i].failed ==> t.nodes[i].failed))
    && (forall i: nat :: i < |s.nodes| && !s.nodes[i].failed ==> t.nodes[i].table == Part(s, c, i).server.table)
    && (forall w {:trigger t.net[w]} :: t.net[w] == s.net[w] + multiset(c.copies)[w] - HandedOver(s, c, w)
                                + Replies(s, c)[w] + multiset(c.requests)[w])
  }

  // ---------------------------------------------------------------- the messages of one transaction

  function OfId(queue: seq<Message>, id: int): (r: seq<Message>)
    ensures forall m :: m in r ==> m.transID == id
  {
    if queue == [] then []
    else OfId(queue[..|queue| - 1], id) + if queue[|queue| - 1].transID == id then [queue[|queue| - 1]] else []
  }

  function WiresOfId(wires: seq<Wire>, id: int): seq<Wire>
  {
    if wires == [] then []
    else WiresOfId(wires[..|wires| - 1], id) + if wires[|wires| - 1].msg.transID == id then [wires[|wires| - 1]] else []
  }

  lemma {:induction false} OfIdCounts(queue: seq<Message>, id: int)
    ensures forall m: Message :: m.transID == id ==> multiset(OfId(queue, id))[m] == multiset(queue)[m]
  {
    if queue != [] {
      var n := |queue| - 1;
      OfIdCounts(queue[..n], id);
      assert queue == queue[..n] + [queue[n]];
    }
  }

  lemma {:induction false} WiresOfIdCounts(wires: seq<Wire>, id: int)
    ensures forall w: Wire :: w.msg.transID == id ==> multiset(WiresOfId(wires, id))[w] == multiset(wires)[w]
  {
    if wires != [] {
      var n := |wires| - 1;
      WiresOfIdCounts(wires[..n], id);
      assert wires == wires[..n] + [wires[n]];
    }
  }

  lemma {:induction false} WiresOfIdAppend(x: seq<Wire>, y: seq<Wire>, id: int)
    ensures WiresOfId(x + y, id) == WiresOfId(x, id) + WiresOfId(y, id)
  {
    if y == [] {
      assert x + y == x;
    } else {
      var n := |y| - 1;
      WiresOfIdAppend(x, y[..n], id);
      assert (x + y)[..|x + y| - 1] == x + y[..n];
    }
  }

  lemma {:induction false} AllSame<T>(r: seq<T>, x: T)
    requires forall k :: 0 <= k < |r| ==> r[k] == x
    ensures multiset(r)[x] == |r|
  {
    if r != [] {
      var n := |r| - 1;
      AllSame(r[..n], x);
      assert r == r[..n] + [r[n]];
    }
  }

  lemma Counted<T>(r: seq<T>)
    ensures forall k :: 0 <= k < |r| ==> multiset(r)[r[k]] >= 1
  {
    forall k | 0 <= k < |r| ensures multiset(r)[r[k]] >= 1 {
      assert r[k] in r;
      assert r[k] in multiset(r);
    }
  }

  lemma OfIdNone(queue: seq<Message>, id: int)
    requires forall m: Message :: m.transID == id ==> multiset(queue)[m] == 0
    ensures OfId(queue, id) == []
  {
    OfIdCounts(queue, id);
    Counted(OfId(queue, id));
  }

  lemma OfIdOne(queue: seq<Message>, id: int, req: Message)
    requires req.transID == id && forall m: Message :: m.transID == id ==> multiset(queue)[m] == if m == req then 1 else 0
    ensures OfId(queue, id) == [req]
  {
    OfIdCounts(queue, id);
    var r := OfId(queue, id);
    Counted(r);
    AllSame(r, req);
  }

  /** A request is answered once, under its number; a reply is not answered. */
  lemma {:induction false} SendsOfId(s: Server, me: Address, time: int, queue: seq<Message>, id: int)
    ensures OfId(queue, id) == [] ==> WiresOfId(HandleAll(s, me, time, queue).sends, id) == []
    ensures |OfId(queue, id)| == 1 ==> var m := OfId(queue, id)[0];
      if m.kind == CREATE || m.kind == UPDATE || m.kind == DELETE then
        exists ok :: WiresOfId(HandleAll(s, me, time, queue).sends, id) == [Reply(m, me, ok)]
      else if m.kind == READ then exists v :: WiresOfId(HandleAll(s, me, time, queue).sends, id) == [ReadReply(m, me, v)]
      else WiresOfId(HandleAll(s, me, time, queue).sends, id) == []
  {
    if queue != [] {
      var n := |queue| - 1;
      SendsOfId(s, me, time, queue[..n], id);
      var h := HandleAll(s, me, time, queue[..n]);
      var g := Handle(h.server, me, time, queue[n]);
      WiresOfIdAppend(h.sends, g.sends, id);
      SendsOfOne(h.server, me, time, queue[n], id);
    }
  }

  lemma SendsOfOne(s: Server, me: Address, time: int, m: Message, id: int)
    ensures WiresOfId(Handle(s, me, time, m).sends, id) == if m.transID == id then Handle(s, me, time, m).sends else []
  {
    var sends := Handle(s, me, time, m).sends;
    if sends != [] {
      assert sends[..0] == [];
    }
  }

  // ---------------------------------------------------------------- the replies of one transaction

  function AnswersOf(queue: seq<Message>): seq<bool>
  {
    if queue == [] then []
    else AnswersOf(queue[..|queue| - 1]) + if queue[|queue| - 1].kind == REPLY then [queue[|queue| - 1].success] else []
  }

  /** The table of results holds, under each number, the answers with that number. */
  ghost predicate Collected(results: map<int, seq<bool>>, queue: seq<Message>, id: int)
  {
    Tallied(results, id, AnswersOf(OfId(queue, id)))
  }

  ghost predicate Tallied<T>(results: map<int, seq<T>>, id: int, answers: seq<T>)
  {
    (id in results <==> answers != []) && (id in results ==> results[id] == answers)
  }

  lemma GatherTallied<T>(results: map<int, seq<T>>, id: int, answers: seq<T>, other: int, x: T)
    requires Tallied(results, id, answers)
    ensures Tallied(Gather(results, other, x), id, if other == id then answers + [x] else answers)
  {
  }

  lemma AnswersOfOne(queue: seq<Message>, m: Message)
    ensures AnswersOf(queue + [m]) == AnswersOf(queue) + if m.kind == REPLY then [m.success] else []
  {
    assert (queue + [m])[..|queue + [m]| - 1] == queue;
  }

  lemma OfIdLast(queue: seq<Message>, id: int)
    requires queue != []
    ensures var n := |queue| - 1;
      OfId(queue, id) == if queue[n].transID == id then OfId(queue[..n], id) + [queue[n]] else OfId(queue[..n], id)
  {
  }

  lemma CollectedOne(results: map<int, seq<bool>>, queue: seq<Message>, id: int)
    requires queue != [] && Collected(results, queue[..|queue| - 1], id)
    ensures var m := queue[|queue| - 1];
      Collected(if m.kind == REPLY then Gather(results, m.transID, m.success) else results, queue, id)
  {
    var m := queue[|queue| - 1];
    var r := OfId(queue[..|queue| - 1], id);
    OfIdLast(queue, id);
    AnswersOfOne(r, m);
    GatherTallied(results, id, AnswersOf(r), m.transID, m.success);
    assert AnswersOf(r) + [] == AnswersOf(r);
  }

  /** What a message adds to what has been gathered. */
  lemma HandleGathers(s: Server, me: Address, time: int, m: Message)
    ensures Handle(s, me, time, m).server.results == if m.kind == REPLY then Gather(s.results, m.transID, m.success) else s.results
    ensures Handle(s, me, time, m).server.readValues == if Telling(m) then Gather(s.readValues, m.transID, m.value) else s.readValues
  {
  }

  lemma {:induction false} ResultsOfId(s: Server, me: Address, time: int, queue: seq<Message>, id: int)
    requires s.results == map[]
    ensures Collected(HandleAll(s, me, time, queue).server.results, queue, id)
  {
    if queue != [] {
      var n := |queue| - 1;
      ResultsOfId(s, me, time, queue[..n], id);
      HandleAllLast(s, me, time, queue);
      HandleGathers(HandleAll(s, me, time, queue[..n]).server, me, time, queue[n]);
      hide Handle, HandleAll, Collected;
      CollectedOne(HandleAll(s, me, time, queue[..n]).server.results, queue, id);
    }
  }

  /** What is none of the other kinds is taken for a read reply. */
  predicate Telling(m: Message)
  {
    !(CREATE <= m.kind <= REPLY)
  }

  function ValuesOf(queue: seq<Message>): seq<string>
  {
    if queue == [] then []
    else ValuesOf(queue[..|queue| - 1]) + if Telling(queue[|queue| - 1]) then [queue[|queue| - 1].value] else []
  }

  lemma ValuesOfOne(queue: seq<Message>, m: Message)
    ensures ValuesOf(queue + [m]) == ValuesOf(queue) + if Telling(m) then [m.value] else []
  {
    assert (queue + [m])[..|queue + [m]| - 1] == queue;
  }

  lemma ValuesCollectedOne(values: map<int, seq<string>>, queue: seq<Message>, id: int)
    requires queue != [] && Tallied(values, id, ValuesOf(OfId(queue[..|queue| - 1], id)))
    ensures var m := queue[|queue| - 1];
      Tallied(if Telling(m) then Gather(values, m.transID, m.value) else values, id, ValuesOf(OfId(queue, id)))
  {
    var m := queue[|queue| - 1];
    var r := OfId(queue[..|queue| - 1], id);
    OfIdLast(queue, id);
    ValuesOfOne(r, m);
    GatherTallied(values, id, ValuesOf(r), m.transID, m.value);
    assert ValuesOf(r) + [] == ValuesOf(r);
  }

  /** The values gathered under each number are those of the read replies with that number, in their order. */
  lemma {:induction false} ReadValuesOfId(s: Server, me: Address, time: int, queue: seq<Message>, id: int)
    requires s.readValues == map[]
    ensures Tallied(HandleAll(s, me, time, queue).server.readValues, id, ValuesOf(OfId(queue, id)))
  {
    if queue != [] {
      var n := |queue| - 1;
      ReadValuesOfId(s, me, time, queue[..n], id);
      HandleAllLast(s, me, time, queue);
      HandleGathers(HandleAll(s, me, time, queue[..n]).server, me, time, queue[n]);
      hide Handle, HandleAll, Tallied;
      ValuesCollectedOne(HandleAll(s, me, time, queue[..n]).server.readValues, queue, id);
    }
  }

  // ---------------------------------------------------------------- one tick, seen from one transaction

  predicate Reachable(s: Group, a: Address)
  {
    Place(s.nodes, a) < |s.nodes| && !s.nodes[Place(s.nodes, a)].failed
  }

  lemma PlaceOf(s: Group, i: nat)
    requires OwnAddresses(s) && i < |s.nodes|
    ensures Place(s.nodes, s.nodes[i].addr) == i
  {
  }

  lemma NoCopies(s: Group, c: Choice, t: Group, id: int)
    requires Tick(s, c, t) && id <= s.transID
    ensures forall w: Wire :: w.msg.transID == id ==> multiset(c.copies)[w] == 0 && multiset(c.requests)[w] == 0
  {
    forall w: Wire | w.msg.transID == id ensures multiset(c.copies)[w] == 0 && multiset(c.requests)[w] == 0 {
      assert w !in c.copies && w !in c.requests;
    }
  }

  /** Under an old number, live nodes receive exactly what was pending. */
  lemma InboxOfId(s: Group, c: Choice, t: Group, id: int, i: nat)
    requires Tick(s, c, t) && id <= s.transID && i < |s.nodes|
    ensures s.nodes[i].failed ==> c.inbox[i] == []
    ensures !s.nodes[i].failed ==>
      forall m: Message :: m.transID == id ==> multiset(c.inbox[i])[m] == s.net[Wire(s.nodes[i].addr, m)]
  {
    NoCopies(s, c, t, id);
    assert Arrives(s, c, i);
  }

  lemma NetOfId(s: Group, c: Choice, t: Group, id: int, w: Wire)
    requires Tick(s, c, t) && id <= s.transID && w.msg.transID == id
    ensures t.net[w] == (if Reachable(s, w.to) then 0 else s.net[w]) + Replies(s, c)[w]
  {
    NoCopies(s, c, t, id);
    var i := Place(s.nodes, w.to);
    if i < |s.nodes| {
      InboxOfId(s, c, t, id, i);
      assert s.nodes[i].addr == w.to;
    }
  }

  /** What node `i` sends under the number. */
  function Says(s: Group, c: Choice, i: nat, id: int): seq<Wire>
    requires i < |s.nodes| && |c.tables| == |c.roles| == |c.inbox| == |s.nodes|
  {
    WiresOfId(Part(s, c, i).sends, id)
  }

  lemma Said(sends: seq<Wire>, id: int, say: Option<Wire>, w: Wire)
    requires WiresOfId(sends, id) == (if say.None? then [] else [say.value]) && w.msg.transID == id
    ensures multiset(sends)[w] == if say == Some(w) then 1 else 0
  {
    WiresOfIdCounts(sends, id);
  }

  /** `says[i]` is what node `i` says under the number, if anything. */
  ghost predicate Spoken(s: Group, c: Choice, says: seq<Option<Wire>>, id: int)
  {
    && |says| == |c.tables| == |c.roles| == |c.inbox| == |s.nodes|
    && forall i: nat :: i < |s.nodes| ==> SpokenAt(s, c, says[i], i, id)
  }

  predicate SpokenAt(s: Group, c: Choice, say: Option<Wire>, i: nat, id: int)
    requires i < |s.nodes| && |c.tables| == |c.roles| == |c.inbox| == |s.nodes|
  {
    && Says(s, c, i, id) == (if say.None? then [] else [say.value])
    && (say.Some? ==> say.value.msg.fromAddr == s.nodes[i].addr)
  }

  lemma SaidAt(s: Group, c: Choice, says: seq<Option<Wire>>, i: nat, id: int, w: Wire)
    requires Spoken(s, c, says, id) && i < |s.nodes| && w.msg.transID == id
    ensures multiset(Part(s, c, i).sends)[w] == if says[i] == Some(w) then 1 else 0
  {
    assert SpokenAt(s, c, says[i], i, id);
    Said(Part(s, c, i).sends, id, says[i], w);
  }

  predicate SaidBy(says: seq<Option<Wire>>, w: Wire)
  {
    exists i: nat :: i < |says| && says[i] == Some(w)
  }

  lemma {:induction false} SumCounts(parts: seq<multiset<Wire>>, says: seq<Option<Wire>>, w: Wire)
    requires |parts| == |says| && forall i: nat :: i < |parts| ==> parts[i][w] == if says[i] == Some(w) then 1 else 0
    requires forall i: nat, j: nat :: i < j < |says| && says[j] == Some(w) ==> says[i] != Some(w)
    ensures Sum(parts)[w] == if SaidBy(says, w) then 1 else 0
  {
    if parts != [] {
      var n := |parts| - 1;
      SumCounts(parts[..n], says[..n], w);
      SaidByLast(says, w);
    }
  }

  lemma SaidByLast(says: seq<Option<Wire>>, w: Wire)
    requires says != []
    ensures var n := |says| - 1;
      SaidBy(says, w) <==> SaidBy(says[..n], w) || says[n] == Some(w)
  {
    var n := |says| - 1;
    if SaidBy(says, w) && says[n] != Some(w) {
      var i: nat :| i < |says| && says[i] == Some(w);
      assert says[..n][i] == Some(w);
    }
    if SaidBy(says[..n], w) {
      var i: nat :| i < n && says[..n][i] == Some(w);
      assert says[i] == Some(w);
    }
  }

  /** So each reply is in the network once, since replies name their senders. */
  lemma RepliesOfId(s: Group, c: Choice, says: seq<Option<Wire>>, id: int, w: Wire)
    requires OwnAddresses(s) && Spoken(s, c, says, id) && w.msg.transID == id
    ensures Replies(s, c)[w] == if SaidBy(says, w) then 1 else 0
  {
    var parts := seq(|s.nodes|, i requires 0 <= i < |s.nodes| => multiset(Part(s, c, i).sends));
    forall i: nat | i < |parts| ensures parts[i][w] == if says[i] == Some(w) then 1 else 0 {
      SaidAt(s, c, says, i, id, w);
    }
    forall i: nat, j: nat | i < j < |says| && says[j] == Some(w) ensures says[i] != Some(w) {
      assert SpokenAt(s, c, says[i], i, id) && SpokenAt(s, c, says[j], j, id);
    }
    SumCounts(parts, says, w);
  }

  // ---------------------------------------------------------------- the life of a transaction

  predicate Writing(m: Message)
  {
    m.kind == CREATE || m.kind == UPDATE || m.kind == DELETE
  }

  predicate Asking(m: Message)
  {
    Writing(m) || m.kind == READ
  }

  /** The request is pending once for each holder, and nothing else has its number. */
  ghost predicate Asked(s: Group, req: Message, to: set<Address>)
  {
    && req.transID <= s.transID && Asking(req)
    && forall w: Wire :: w.msg.transID == req.transID ==> s.net[w] == if w.msg == req && w.to in to then 1 else 0
  }

  /** The only things left under the number are for nodes that have failed. */
  ghost predicate Settled(s: Group, id: int)
  {
    id <= s.transID && forall w: Wire :: w.msg.transID == id && s.net[w] > 0 ==> !Reachable(s, w.to)
  }

  /** What the live holders said is pending for the coordinator. */
  ghost predicate Answered(s: Group, req: Message, says: seq<Option<Wire>>)
  {
    && req.transID <= s.transID
    && (forall i: nat :: i < |says| ==> IsAnswer(says[i], req))
    && (forall i: nat, j: nat :: i < j < |says| && says[i].Some? ==> says[i] != says[j])
    && forall w: Wire :: w.msg.transID == req.transID && Reachable(s, w.to) ==> s.net[w] == if SaidBy(says, w) then 1 else 0
  }

  ghost predicate IsAnswer(say: Option<Wire>, req: Message)
  {
    say.Some? ==>
      if Writing(req) then exists a, ok :: say.value == Reply(req, a, ok)
      else exists a, v :: say.value == ReadReply(req, a, v)
  }

  /** What node `i` answers in this tick, if anything. */
  function Answer(s: Group, c: Choice, i: nat, id: int): Option<Wire>
    requires i < |s.nodes| && |c.tables| == |c.roles| == |c.inbox| == |s.nodes|
  {
    var x := Says(s, c, i, id);
    if |x| == 1 then Some(x[0]) else None
  }

  function Answers(s: Group, c: Choice, id: int): (says: seq<Option<Wire>>)
    requires |c.tables| == |c.roles| == |c.inbox| == |s.nodes|
    ensures |says| == |s.nodes|
  {
    seq(|s.nodes|, i requires 0 <= i < |s.nodes| => Answer(s, c, i, id))
  }

  /** A live holder answers, once; nobody else does. */
  lemma HolderAnswers(s: Group, c: Choice, t: Group, req: Message, to: set<Address>, i: nat)
    requires Tick(s, c, t) && Asked(s, req, to) && i < |s.nodes|
    ensures var say := Answer(s, c, i, req.transID);
      && SpokenAt(s, c, say, i, req.transID) && IsAnswer(say, req)
      && (say.Some? <==> !s.nodes[i].failed && s.nodes[i].addr in to)
  {
    var id := req.transID;
    var a := s.nodes[i].addr;
    AskedInbox(s, c, t, req, to, i);
    SendsOfId(Server(c.tables[i], map[], map[], c.roles[i]), a, c.time, c.inbox[i], id);
  }

  lemma StillUnreachable(s: Group, c: Choice, t: Group, a: Address)
    requires Tick(s, c, t) && !Reachable(s, a)
    ensures !Reachable(t, a)
  {
    var i := Place(t.nodes, a);
    if i < |t.nodes| {
      assert s.nodes[i].addr == a;
      PlaceOf(s, i);
    }
  }

  /** First tick: each live holder handles the request once, and its answer is on the way. */
  lemma AskedTick(s: Group, c: Choice, t: Group, req: Message, to: set<Address>)
    requires Tick(s, c, t) && Asked(s, req, to)
    ensures Answered(t, req, Answers(s, c, req.transID))
    ensures forall i: nat :: i < |s.nodes| ==>
      (Answers(s, c, req.transID)[i].Some? <==> !s.nodes[i].failed && s.nodes[i].addr in to)
  {
    var id := req.transID;
    var says := Answers(s, c, id);
    forall i: nat | i < |s.nodes|
      ensures SpokenAt(s, c, says[i], i, id) && IsAnswer(says[i], req)
      ensures says[i].Some? <==> !s.nodes[i].failed && s.nodes[i].addr in to
    {
      HolderAnswers(s, c, t, req, to, i);
    }
    forall i: nat, j: nat | i < j < |says| && says[i].Some? ensures says[i] != says[j] {
      assert SpokenAt(s, c, says[i], i, id) && SpokenAt(s, c, says[j], j, id);
    }
    forall w: Wire | w.msg.transID == id && Reachable(t, w.to) ensures t.net[w] == if SaidBy(says, w) then 1 else 0 {
      RepliesOfId(s, c, says, id, w);
      NetOfId(s, c, t, id, w);
      if !Reachable(s, w.to) {
        StillUnreachable(s, c, t, w.to);
      }
    }
  }

  // ---------------------------------------------------------------- nobody answers a reply

  predicate Answering(m: Message)
  {
    m.kind == REPLY || m.kind == READREPLY
  }

  lemma {:induction false} RepliesUnanswered(s: Server, me: Address, time: int, queue: seq<Message>, id: int)
    requires forall k :: 0 <= k < |queue| && queue[k].transID == id ==> Answering(queue[k])
    ensures WiresOfId(HandleAll(s, me, time, queue).sends, id) == []
  {
    if queue != [] {
      var n := |queue| - 1;
      RepliesUnanswered(s, me, time, queue[..n], id);
      ReplyUnanswered(HandleAll(s, me, time, queue[..n]), me, time, queue[n], id);
    }
  }

  lemma ReplyUnanswered(h: Handled, me: Address, time: int, m: Message, id: int)
    requires WiresOfId(h.sends, id) == [] && (m.transID == id ==> Answering(m))
    ensures WiresOfId(h.sends + Handle(h.server, me, time, m).sends, id) == []
  {
    WiresOfIdAppend(h.sends, Handle(h.server, me, time, m).sends, id);
    SendsOfOne(h.server, me, time, m, id);
  }

  lemma SilentNet(s: Group, c: Choice, t: Group, id: int)
    requires Tick(s, c, t) && id <= s.transID
    requires forall i: nat :: i < |s.nodes| ==> Says(s, c, i, id) == []
    ensures forall w: Wire :: w.msg.transID == id ==> t.net[w] == if Reachable(s, w.to) then 0 else s.net[w]
  {
    var says := seq(|s.nodes|, i => None);
    forall i: nat | i < |s.nodes| ensures SpokenAt(s, c, says[i], i, id) {
    }
    forall w: Wire | w.msg.transID == id ensures t.net[w] == if Reachable(s, w.to) then 0 else s.net[w] {
      RepliesOfId(s, c, says, id, w);
      NetOfId(s, c, t, id, w);
    }
  }

  lemma SilentTick(s: Group, c: Choice, t: Group, id: int)
    requires Tick(s, c, t) && id <= s.transID
    requires forall i: nat :: i < |s.nodes| ==> Says(s, c, i, id) == []
    ensures Settled(t, id)
  {
    SilentNet(s, c, t, id);
    forall w: Wire | w.msg.transID == id && t.net[w] > 0 ensures !Reachable(t, w.to) {
      StillUnreachable(s, c, t, w.to);
    }
  }

  /** What a live node receives under the number in the second tick. */
  lemma AnsweredInbox(s: Group, c: Choice, t: Group, req: Message, says: seq<Option<Wire>>, i: nat)
    requires Tick(s, c, t) && Answered(s, req, says) && i < |s.nodes| && !s.nodes[i].failed
    ensures forall m: Message :: m.transID == req.transID ==>
      multiset(c.inbox[i])[m] == if SaidBy(says, Wire(s.nodes[i].addr, m)) then 1 else 0
    ensures forall k :: 0 <= k < |c.inbox[i]| && c.inbox[i][k].transID == req.transID ==>
      c.inbox[i][k].kind == (if Writing(req) then REPLY else READREPLY) && s.nodes[i].addr == req.fromAddr
  {
    var a := s.nodes[i].addr;
    InboxOfId(s, c, t, req.transID, i);
    PlaceOf(s, i);
    assert Reachable(s, a);
    forall m: Message | m.transID == req.transID
      ensures multiset(c.inbox[i])[m] == if SaidBy(says, Wire(a, m)) then 1 else 0
    {
      assert s.net[Wire(a, m)] == if SaidBy(says, Wire(a, m)) then 1 else 0;
    }
    forall k | 0 <= k < |c.inbox[i]| && c.inbox[i][k].transID == req.transID
      ensures c.inbox[i][k].kind == (if Writing(req) then REPLY else READREPLY) && a == req.fromAddr
    {
      var m := c.inbox[i][k];
      assert m in multiset(c.inbox[i]);
      assert SaidBy(says, Wire(a, m));
      var j: nat :| j < |says| && says[j] == Some(Wire(a, m));
      assert IsAnswer(says[j], req);
    }
  }

  /** Second tick: nothing more is said under the number. */
  lemma AnsweredTick(s: Group, c: Choice, t: Group, req: Message, says: seq<Option<Wire>>)
    requires Tick(s, c, t) && Answered(s, req, says)
    ensures Settled(t, req.transID)
  {
    var id := req.transID;
    forall i: nat | i < |s.nodes| ensures Says(s, c, i, id) == [] {
      InboxOfId(s, c, t, id, i);
      if !s.nodes[i].failed {
        AnsweredInbox(s, c, t, req, says, i);
      }
      RepliesUnanswered(Server(c.tables[i], map[], map[], c.roles[i]), s.nodes[i].addr, c.time, c.inbox[i], id);
    }
    SilentTick(s, c, t, id);
  }

  lemma SettledInbox(s: Group, c: Choice, t: Group, id: int, i: nat)
    requires Tick(s, c, t) && Settled(s, id) && i < |s.nodes|
    ensures OfId(c.inbox[i], id) == []
  {
    InboxOfId(s, c, t, id, i);
    PlaceOf(s, i);
    OfIdNone(c.inbox[i], id);
  }

  lemma SettledTick(s: Group, c: Choice, t: Group, id: int)
    requires Tick(s, c, t) && Settled(s, id)
    ensures Settled(t, id)
  {
    forall i: nat | i < |s.nodes| ensures Says(s, c, i, id) == [] {
      SettledInbox(s, c, t, id, i);
      SendsOfId(Server(c.tables[i], map[], map[], c.roles[i]), s.nodes[i].addr, c.time, c.inbox[i], id);
    }
    SilentTick(s, c, t, id);
  }

  // ---------------------------------------------------------------- the verdict

  /** What node `i` logs about an operation that it coordinates, if it logs anything in this tick. */
  function Verdict(s: Group, c: Choice, i: nat, id: int): Option<bool>
    requires i < |s.nodes| && |c.tables| == |c.roles| == |c.inbox| == |s.nodes|
  {
    var results := Part(s, c, i).server.results;
    var operations := s.nodes[i].operations;
    if !s.nodes[i].failed && id in results && id in operations && Writing(operations[id]) then Some(Quorum(results[id]))
    else None
  }

  lemma VerdictOf(s: Group, c: Choice, i: nat, id: int)
    requires i < |s.nodes| && |c.tables| == |c.roles| == |c.inbox| == |s.nodes|
    ensures var answers := AnswersOf(OfId(c.inbox[i], id));
      Verdict(s, c, i, id) == if !s.nodes[i].failed && answers != [] && id in s.nodes[i].operations
                                 && Writing(s.nodes[i].operations[id]) then Some(Quorum(answers)) else None
  {
    ResultsOfId(Server(c.tables[i], map[], map[], c.roles[i]), s.nodes[i].addr, c.time, c.inbox[i], id);
  }

  /** What node `i` logs about a read that it coordinates: the value found, if it is a success. */
  function Outcome(s: Group, c: Choice, i: nat, id: int): Option<Option<string>>
    requires i < |s.nodes| && |c.tables| == |c.roles| == |c.inbox| == |s.nodes|
  {
    var values := Part(s, c, i).server.readValues;
    var operations := s.nodes[i].operations;
    if !s.nodes[i].failed && id in values && id in operations && operations[id].kind == READ && Count(values[id]).Ok?
    then Some(ReadVerdict(values[id])) else None
  }

  lemma OutcomeOf(s: Group, c: Choice, i: nat, id: int)
    requires i < |s.nodes| && |c.tables| == |c.roles| == |c.inbox| == |s.nodes|
    ensures var values := ValuesOf(OfId(c.inbox[i], id));
      Outcome(s, c, i, id) == if !s.nodes[i].failed && values != [] && id in s.nodes[i].operations
                                 && s.nodes[i].operations[id].kind == READ && Count(values).Ok? then Some(ReadVerdict(values)) else None
  {
    ReadValuesOfId(Server(c.tables[i], map[], map[], c.roles[i]), s.nodes[i].addr, c.time, c.inbox[i], id);
  }

  function Successes(says: seq<Option<Wire>>): (n: nat)
    ensures n <= |says|
  {
    if says == [] then 0
    else
      var say := says[|says| - 1];
      Successes(says[..|says| - 1]) + if say.Some? && say.value.msg.success then 1 else 0
  }

  function MessagesOf(says: seq<Option<Wire>>): seq<Message>
  {
    if says == [] then []
    else MessagesOf(says[..|says| - 1]) + if says[|says| - 1].Some? then [says[|says| - 1].value.msg] else []
  }

  /** How many replies report success. */
  function TrueReplies(queue: seq<Message>): nat
  {
    if queue == [] then 0
    else TrueReplies(queue[..|queue| - 1]) + if queue[|queue| - 1].kind == REPLY && queue[|queue| - 1].success then 1 else 0
  }

  lemma CountTrueOne(a: seq<bool>, x: bool)
    ensures CountTrue(a + [x]) == CountTrue(a) + if x then 1 else 0
  {
    assert (a + [x])[..|a + [x]| - 1] == a;
  }

  lemma {:induction false} CountIsTrueReplies(queue: seq<Message>)
    ensures CountTrue(AnswersOf(queue)) == TrueReplies(queue)
  {
    if queue != [] {
      var n := |queue| - 1;
      CountIsTrueReplies(queue[..n]);
      var a := AnswersOf(queue[..n]);
      CountTrueOne(a, queue[n].success);
      assert a + [] == a;
    }
  }

  lemma TrueRepliesOfOne(m: Message)
    ensures TrueReplies([m]) == if m.kind == REPLY && m.success then 1 else 0
  {
    assert [m][..0] == [];
  }

  lemma {:induction false} TrueRepliesAppend(x: seq<Message>, y: seq<Message>)
    ensures TrueReplies(x + y) == TrueReplies(x) + TrueReplies(y)
  {
    if y == [] {
      assert x + y == x;
    } else {
      var n := |y| - 1;
      TrueRepliesAppend(x, y[..n]);
      assert (x + y)[..|x + y| - 1] == x + y[..n];
    }
  }

  lemma Around(x: seq<Message>, m: Message, y: seq<Message>)
    ensures TrueReplies(x + [m] + y) == TrueReplies(x + y) + if m.kind == REPLY && m.success then 1 else 0
  {
    TrueRepliesAppend(x + [m], y);
    TrueRepliesAppend(x, [m]);
    TrueRepliesAppend(x, y);
    TrueRepliesOfOne(m);
  }

  lemma TakenOut(y: seq<Message>, j: nat)
    requires j < |y|
    ensures TrueReplies(y) == TrueReplies(y[..j] + y[j + 1..]) + if y[j].kind == REPLY && y[j].success then 1 else 0
  {
    Around(y[..j], y[j], y[j + 1..]);
    Reassembled(y, j);
  }

  lemma Reassembled<T>(y: seq<T>, j: nat)
    requires j < |y|
    ensures y == y[..j] + [y[j]] + y[j + 1..]
  {
  }

  lemma TakenOutOf(y: seq<Message>, j: nat)
    requires j < |y|
    ensures multiset(y) == multiset(y[..j] + y[j + 1..]) + multiset{y[j]}
  {
    assert y == y[..j] + [y[j]] + y[j + 1..];
  }

  lemma Cancel(a: multiset<Message>, b: multiset<Message>, m: Message)
    requires a + multiset{m} == b + multiset{m}
    ensures a == b
  {
    assert a == (a + multiset{m}) - multiset{m};
    assert b == (b + multiset{m}) - multiset{m};
  }

  /** The order in which replies arrive does not matter. */
  lemma {:induction false} OrderIrrelevant(x: seq<Message>, y: seq<Message>)
    requires multiset(x) == multiset(y)
    ensures TrueReplies(x) == TrueReplies(y)
  {
    if x == [] {
      Counted(y);
      assert |multiset(y)| == 0;
    } else {
      var n := |x| - 1;
      assert x == x[..n] + [x[n]];
      assert x[n] in multiset(y);
      var j :| 0 <= j < |y| && y[j] == x[n];
      TakenOut(y, j);
      TakenOutOf(y, j);
      Cancel(multiset(x[..n]), multiset(y[..j] + y[j + 1..]), x[n]);
      OrderIrrelevant(x[..n], y[..j] + y[j + 1..]);
    }
  }

  lemma {:induction false} SuccessesAreReplies(says: seq<Option<Wire>>, req: Message)
    requires Writing(req) && forall i: nat :: i < |says| ==> IsAnswer(says[i], req)
    ensures TrueReplies(MessagesOf(says)) == Successes(says)
  {
    if says != [] {
      var n := |says| - 1;
      SuccessesAreReplies(says[..n], req);
      assert IsAnswer(says[n], req);
      var front := MessagesOf(says[..n]);
      if says[n].Some? {
        TrueRepliesAppend(front, [says[n].value.msg]);
        TrueRepliesOfOne(says[n].value.msg);
      } else {
        assert front + [] == front;
      }
    }
  }

  lemma {:induction false} MessagesOnce(says: seq<Option<Wire>>, req: Message, m: Message)
    requires forall i: nat :: i < |says| ==> IsAnswer(says[i], req)
    requires forall i: nat, j: nat :: i < j < |says| && says[i].Some? ==> says[i] != says[j]
    ensures multiset(MessagesOf(says))[m] == if SaidBy(says, Wire(req.fromAddr, m)) then 1 else 0
  {
    if says != [] {
      var n := |says| - 1;
      MessagesOnce(says[..n], req, m);
      SaidByLast(says, Wire(req.fromAddr, m));
      assert IsAnswer(says[n], req);
      NotBefore(says, Wire(req.fromAddr, m));
    }
  }

  lemma NotBefore(says: seq<Option<Wire>>, w: Wire)
    requires says != [] && forall i: nat, j: nat :: i < j < |says| && says[i].Some? ==> says[i] != says[j]
    ensures says[|says| - 1] == Some(w) ==> !SaidBy(says[..|says| - 1], w)
  {
  }

  /** A reply in every queue, or none at all. */
  lemma {:induction false} AllReplies(queue: seq<Message>)
    requires forall k :: 0 <= k < |queue| ==> queue[k].kind == REPLY
    ensures |AnswersOf(queue)| == |queue|
  {
    if queue != [] {
      AllReplies(queue[..|queue| - 1]);
    }
  }

  lemma {:induction false} OfIdKeeps(queue: seq<Message>, id: int)
    ensures forall m :: m in OfId(queue, id) ==> m in queue && m.transID == id
  {
    if queue != [] {
      OfIdKeeps(queue[..|queue| - 1], id);
    }
  }

  predicate Anyone(says: seq<Option<Wire>>)
  {
    exists i: nat :: i < |says| && says[i].Some?
  }

  lemma AskedVerdict(s: Group, c: Choice, t: Group, req: Message, to: set<Address>, i: nat)
    requires Tick(s, c, t) && Asked(s, req, to) && i < |s.nodes|
    ensures Verdict(s, c, i, req.transID) == None && Outcome(s, c, i, req.transID) == None
  {
    AskedInbox(s, c, t, req, to, i);
    RequestTellsNothing(req);
    hide Verdict, Outcome, Part, OfId, AnswersOf, ValuesOf;
    VerdictOf(s, c, i, req.transID);
    OutcomeOf(s, c, i, req.transID);
  }

  lemma AskedInbox(s: Group, c: Choice, t: Group, req: Message, to: set<Address>, i: nat)
    requires Tick(s, c, t) && Asked(s, req, to) && i < |s.nodes|
    ensures OfId(c.inbox[i], req.transID) == if !s.nodes[i].failed && s.nodes[i].addr in to then [req] else []
  {
    InboxOfId(s, c, t, req.transID, i);
    if !s.nodes[i].failed && s.nodes[i].addr in to {
      OfIdOne(c.inbox[i], req.transID, req);
    } else {
      OfIdNone(c.inbox[i], req.transID);
    }
  }

  lemma RequestTellsNothing(req: Message)
    requires Asking(req)
    ensures AnswersOf([req]) == AnswersOf([]) == [] && ValuesOf([req]) == ValuesOf([]) == []
  {
    assert [req][..0] == [];
  }

  lemma SettledVerdict(s: Group, c: Choice, t: Group, id: int, i: nat)
    requires Tick(s, c, t) && Settled(s, id) && i < |s.nodes|
    ensures Verdict(s, c, i, id) == None && Outcome(s, c, i, id) == None
  {
    SettledInbox(s, c, t, id, i);
    VerdictOf(s, c, i, id);
    OutcomeOf(s, c, i, id);
  }

  lemma OthersVerdict(s: Group, c: Choice, t: Group, req: Message, says: seq<Option<Wire>>, i: nat)
    requires Tick(s, c, t) && Answered(s, req, says) && i < |s.nodes| && s.nodes[i].addr != req.fromAddr
    ensures Verdict(s, c, i, req.transID) == None && Outcome(s, c, i, req.transID) == None
  {
    hide Verdict, Outcome, Part, HandleAll;
    var id := req.transID;
    InboxOfId(s, c, t, id, i);
    if !s.nodes[i].failed {
      AnsweredInbox(s, c, t, req, says, i);
    }
    OfIdKeeps(c.inbox[i], id);
    var r := OfId(c.inbox[i], id);
    Counted(r);
    VerdictOf(s, c, i, id);
    OutcomeOf(s, c, i, id);
  }

  /** The coordinator has exactly the answers of the live holders. */
  lemma CoordinatorInbox(s: Group, c: Choice, t: Group, req: Message, says: seq<Option<Wire>>, i: nat)
    requires Tick(s, c, t) && Answered(s, req, says) && i < |s.nodes| && s.nodes[i].addr == req.fromAddr && !s.nodes[i].failed
    ensures multiset(OfId(c.inbox[i], req.transID)) == multiset(MessagesOf(says))
    ensures forall m :: m in OfId(c.inbox[i], req.transID) ==> m.kind == if Writing(req) then REPLY else READREPLY
  {
    var id := req.transID;
    var r := OfId(c.inbox[i], id);
    AnsweredInbox(s, c, t, req, says, i);
    OfIdCounts(c.inbox[i], id);
    OfIdKeeps(c.inbox[i], id);
    forall m: Message ensures multiset(r)[m] == multiset(MessagesOf(says))[m] {
      MessagesOnce(says, req, m);
      if m.transID != id {
        assert m !in r;
        NotAnAnswer(says, req, m);
      }
    }
  }

  lemma NotAnAnswer(says: seq<Option<Wire>>, req: Message, m: Message)
    requires forall i: nat :: i < |says| ==> IsAnswer(says[i], req)
    requires m.transID != req.transID
    ensures !SaidBy(says, Wire(req.fromAddr, m))
  {
    forall i: nat | i < |says| ensures says[i] != Some(Wire(req.fromAddr, m)) {
      assert IsAnswer(says[i], req);
    }
  }

  lemma {:induction false} AnyoneHasMessages(says: seq<Option<Wire>>)
    ensures MessagesOf(says) != [] <==> Anyone(says)
  {
    if says != [] {
      var n := |says| - 1;
      AnyoneHasMessages(says[..n]);
      if Anyone(says) && says[n].None? {
        var i: nat :| i < |says| && says[i].Some?;
        assert says[..n][i].Some?;
      }
      if Anyone(says[..n]) {
        var i: nat :| i < n && says[..n][i].Some?;
        assert says[i].Some?;
      }
    }
  }

  /** Two successes make the verdict. */
  lemma CoordinatorVerdict(s: Group, c: Choice, t: Group, req: Message, says: seq<Option<Wire>>, i: nat)
    requires Tick(s, c, t) && Answered(s, req, says) && i < |s.nodes| && s.nodes[i].addr == req.fromAddr && !s.nodes[i].failed
    requires req.transID in s.nodes[i].operations && s.nodes[i].operations[req.transID] == req && Writing(req)
    ensures Verdict(s, c, i, req.transID) == if Anyone(says) then Some(Successes(says) >= 2) else None
  {
    var r := OfId(c.inbox[i], req.transID);
    CoordinatorInbox(s, c, t, req, says, i);
    VerdictOf(s, c, i, req.transID);
    AllReplies(r);
    CountIsTrueReplies(r);
    OrderIrrelevant(r, MessagesOf(says));
    SuccessesAreReplies(says, req);
    AnyoneHasMessages(says);
    assert |multiset(r)| == |r| && |multiset(MessagesOf(says))| == |MessagesOf(says)|;
  }

  /** All answers, in the order in which they arrive, make the outcome of a read. */
  lemma CoordinatorOutcome(s: Group, c: Choice, t: Group, req: Message, says: seq<Option<Wire>>, i: nat) returns (arrival: seq<Message>)
    requires Tick(s, c, t) && Answered(s, req, says) && i < |s.nodes| && s.nodes[i].addr == req.fromAddr && !s.nodes[i].failed
    requires req.transID in s.nodes[i].operations && s.nodes[i].operations[req.transID] == req && req.kind == READ
    ensures multiset(arrival) == multiset(MessagesOf(says)) && forall m :: m in arrival ==> m.kind == READREPLY
    ensures Outcome(s, c, i, req.transID) == OutcomeFrom(says, arrival)
  {
    arrival := OfId(c.inbox[i], req.transID);
    CoordinatorInbox(s, c, t, req, says, i);
    OutcomeOf(s, c, i, req.transID);
    AllTelling(arrival);
    AnyoneHasMessages(says);
    assert |multiset(arrival)| == |arrival| && |multiset(MessagesOf(says))| == |MessagesOf(says)|;
  }

  /** If anybody has answered and all entries can be parsed, one outcome is logged. */
  function OutcomeFrom(says: seq<Option<Wire>>, arrival: seq<Message>): Option<Option<string>>
  {
    var values := ValuesOf(arrival);
    if Anyone(says) && Count(values).Ok? then Some(ReadVerdict(values)) else None
  }

  lemma {:induction false} AllTelling(queue: seq<Message>)
    requires forall m :: m in queue ==> m.kind == READREPLY
    ensures |ValuesOf(queue)| == |queue| && forall k :: 0 <= k < |queue| ==> ValuesOf(queue)[k] == queue[k].value
  {
    if queue != [] {
      var n := |queue| - 1;
      AllTelling(queue[..n]);
      assert queue[n] in queue;
    }
  }

  // ---------------------------------------------------------------- over a run

  ghost predicate TickAt(run: seq<Group>, choices: seq<Choice>, k: nat)
    requires k < |choices| && |run| == |choices| + 1
  {
    Tick(run[k], choices[k], run[k + 1])
  }

  ghost predicate Run(run: seq<Group>, choices: seq<Choice>)
  {
    |run| == |choices| + 1 && forall k: nat :: k < |choices| ==> TickAt(run, choices, k)
  }

  lemma {:induction false} StaysSettled(run: seq<Group>, choices: seq<Choice>, k: nat, l: nat, id: int)
    requires Run(run, choices) && k <= l < |run| && Settled(run[k], id)
    ensures Settled(run[l], id)
    decreases l
  {
    if k < l {
      StaysSettled(run, choices, k, l - 1, id);
      assert TickAt(run, choices, l - 1);
      SettledTick(run[l - 1], choices[l - 1], run[l], id);
    }
  }

  /** The coordinator's node keeps its address and the operation. */
  ghost predicate Coordinates(s: Group, i: nat, req: Message)
  {
    && i < |s.nodes| && s.nodes[i].addr == req.fromAddr
    && req.transID in s.nodes[i].operations && s.nodes[i].operations[req.transID] == req
  }

  lemma StillCoordinates(s: Group, c: Choice, t: Group, i: nat, req: Message)
    requires Tick(s, c, t) && Coordinates(s, i, req)
    ensures Coordinates(t, i, req)
  {
    assert OperationsGrow(s, c, t, i);
  }

  /** What the live holders answer when the request of time `k` is handled. */
  function AnswersAt(run: seq<Group>, choices: seq<Choice>, k: nat, id: int): seq<Option<Wire>>
    requires k < |choices| && |run| == |choices| + 1
    requires |choices[k].tables| == |choices[k].roles| == |choices[k].inbox| == |run[k].nodes|
  {
    Answers(run[k], choices[k], id)
  }

  /** After the second tick the transaction is over. */
  lemma OverAfterTwo(run: seq<Group>, choices: seq<Choice>, k: nat, req: Message, to: set<Address>)
    requires Run(run, choices) && k + 1 < |choices| && Asked(run[k], req, to)
    ensures Settled(run[k + 2], req.transID)
  {
    assert TickAt(run, choices, k) && TickAt(run, choices, k + 1);
    AskedTick(run[k], choices[k], run[k + 1], req, to);
    AnsweredTick(run[k + 1], choices[k + 1], run[k + 2], req, Answers(run[k], choices[k], req.transID));
  }

  predicate Shaped(s: Group, c: Choice)
  {
    |c.tables| == |c.roles| == |c.inbox| == |s.nodes|
  }

  /** Nothing is logged under the number by node `i` in the tick from time `l`. */
  predicate NoVerdict(run: seq<Group>, choices: seq<Choice>, l: nat, i: nat, id: int)
  {
    && l < |choices| && l < |run| && Shaped(run[l], choices[l])
    && (i < |run[l].nodes| ==> Verdict(run[l], choices[l], i, id) == None && Outcome(run[l], choices[l], i, id) == None)
  }

  lemma NoVerdictAtOnce(run: seq<Group>, choices: seq<Choice>, k: nat, req: Message, to: set<Address>, i: nat)
    requires Run(run, choices) && k < |choices| && Asked(run[k], req, to)
    ensures NoVerdict(run, choices, k, i, req.transID)
  {
    assert TickAt(run, choices, k);
    if i < |run[k].nodes| {
      AskedVerdict(run[k], choices[k], run[k + 1], req, to, i);
    }
  }

  lemma NoVerdictElsewhere(run: seq<Group>, choices: seq<Choice>, k: nat, req: Message, to: set<Address>, i: nat)
    requires Run(run, choices) && k + 1 < |choices| && Asked(run[k], req, to)
    requires i < |run[k + 1].nodes| ==> run[k + 1].nodes[i].addr != req.fromAddr
    ensures NoVerdict(run, choices, k + 1, i, req.transID)
  {
    assert TickAt(run, choices, k) && TickAt(run, choices, k + 1);
    if i < |run[k + 1].nodes| {
      AskedTick(run[k], choices[k], run[k + 1], req, to);
      OthersVerdict(run[k + 1], choices[k + 1], run[k + 2], req, Answers(run[k], choices[k], req.transID), i);
    }
  }

  lemma NoVerdictLater(run: seq<Group>, choices: seq<Choice>, k: nat, req: Message, to: set<Address>, l: nat, i: nat)
    requires Run(run, choices) && k + 2 <= l < |choices| && Asked(run[k], req, to)
    ensures NoVerdict(run, choices, l, i, req.transID)
  {
    OverAfterTwo(run, choices, k, req, to);
    StaysSettled(run, choices, k + 2, l, req.transID);
    assert TickAt(run, choices, l);
    if i < |run[l].nodes| {
      SettledVerdict(run[l], choices[l], run[l + 1], req.transID, i);
    }
  }

  /** Before and after the second tick nothing is logged, and in it only by the coordinator. */
  lemma NoOtherVerdict(run: seq<Group>, choices: seq<Choice>, k: nat, req: Message, to: set<Address>, l: nat, i: nat)
    requires Run(run, choices) && k <= l < |choices| && Asked(run[k], req, to)
    requires l == k + 1 && i < |run[l].nodes| ==> run[l].nodes[i].addr != req.fromAddr
    ensures NoVerdict(run, choices, l, i, req.transID)
  {
    if l == k {
      NoVerdictAtOnce(run, choices, k, req, to, i);
    } else if l == k + 1 {
      NoVerdictElsewhere(run, choices, k, req, to, i);
    } else {
      NoVerdictLater(run, choices, k, req, to, l, i);
    }
  }

  /**
   A transaction whose coordinator is live two ticks later gets one verdict, there and then, if any
   holder was live to answer it: success if and only if two or more answered with success.
   */
  lemma VerdictTwoTicksLater(run: seq<Group>, choices: seq<Choice>, k: nat, req: Message, to: set<Address>, i: nat)
    requires Run(run, choices) && k + 1 < |choices| && Asked(run[k], req, to)
    requires Coordinates(run[k], i, req) && i < |run[k + 1].nodes| && !run[k + 1].nodes[i].failed && Writing(req)
    ensures TickAt(run, choices, k) && TickAt(run, choices, k + 1)
    ensures var says := AnswersAt(run, choices, k, req.transID);
      && (forall j: nat :: j < |run[k].nodes| ==> (says[j].Some? <==> !run[k].nodes[j].failed && run[k].nodes[j].addr in to))
      && Verdict(run[k + 1], choices[k + 1], i, req.transID) == if Anyone(says) then Some(Successes(says) >= 2) else None
  {
    assert TickAt(run, choices, k) && TickAt(run, choices, k + 1);
    AskedTick(run[k], choices[k], run[k + 1], req, to);
    StillCoordinates(run[k], choices[k], run[k + 1], i, req);
    CoordinatorVerdict(run[k + 1], choices[k + 1], run[k + 2], req, Answers(run[k], choices[k], req.transID), i);
  }

  /**
   And a read whose coordinator is live two ticks later gets one outcome, there and then, if any holder was
   live to answer it and all answers can be parsed: what the answers, in their order of arrival, amount to.
   */
  lemma OutcomeTwoTicksLater(run: seq<Group>, choices: seq<Choice>, k: nat, req: Message, to: set<Address>, i: nat)
    returns (arrival: seq<Message>)
    requires Run(run, choices) && k + 1 < |choices| && Asked(run[k], req, to) && req.kind == READ
    requires Coordinates(run[k], i, req) && i < |run[k + 1].nodes| && !run[k + 1].nodes[i].failed
    ensures TickAt(run, choices, k) && TickAt(run, choices, k + 1)
    ensures var says := AnswersAt(run, choices, k, req.transID);
      && (forall j: nat :: j < |run[k].nodes| ==> (says[j].Some? <==> !run[k].nodes[j].failed && run[k].nodes[j].addr in to))
      && multiset(arrival) == multiset(MessagesOf(says)) && (forall m :: m in arrival ==> m.kind == READREPLY)
      && Outcome(run[k + 1], choices[k + 1], i, req.transID) == OutcomeFrom(says, arrival)
  {
    assert TickAt(run, choices, k) && TickAt(run, choices, k + 1);
    AskedTick(run[k], choices[k], run[k + 1], req, to);
    StillCoordinates(run[k], choices[k], run[k + 1], i, req);
    arrival := CoordinatorOutcome(run[k + 1], choices[k + 1], run[k + 2], req, Answers(run[k], choices[k], req.transID), i);
  }

  // ---------------------------------------------------------------- how a transaction begins

  ghost predicate NetNumbered(s: Group)
  {
    forall w: Wire :: s.net[w] > 0 ==> w.msg.transID <= s.transID
  }

  /** Under a number that only clients can have drawn in this tick, nothing arrives and nothing is said. */
  lemma NothingNewArrives(s: Group, c: Choice, t: Group, id: int, i: nat)
    requires Tick(s, c, t) && NetNumbered(s) && id > c.copyID && i < |s.nodes|
    ensures forall m: Message :: m.transID == id ==> multiset(c.inbox[i])[m] == 0
    ensures Says(s, c, i, id) == []
  {
    assert Arrives(s, c, i);
    forall m: Message | m.transID == id ensures multiset(c.inbox[i])[m] == 0 {
      var w := Wire(s.nodes[i].addr, m);
      assert s.net[w] == 0 && w !in c.copies;
      if s.nodes[i].failed {
        assert c.inbox[i] == [];
      }
    }
    OfIdNone(c.inbox[i], id);
    SendsOfId(Server(c.tables[i], map[], map[], c.roles[i]), s.nodes[i].addr, c.time, c.inbox[i], id);
  }

  /** So only the clients' requests are pending under it. */
  lemma OnlyRequests(s: Group, c: Choice, t: Group, w: Wire)
    requires Tick(s, c, t) && NetNumbered(s)
    ensures w.msg.transID > c.copyID ==> t.net[w] == multiset(c.requests)[w]
  {
    var id := w.msg.transID;
    if id > c.copyID {
      var says := seq(|s.nodes|, i => None);
      forall i: nat | i < |s.nodes| ensures SpokenAt(s, c, says[i], i, id) {
        NothingNewArrives(s, c, t, id, i);
      }
      RepliesOfId(s, c, says, id, w);
      assert w !in c.copies && s.net[w] == 0;
      var i := Place(s.nodes, w.to);
      if i < |s.nodes| {
        NothingNewArrives(s, c, t, id, i);
      }
    }
  }

  lemma StillNumbered(s: Group, c: Choice, t: Group)
    requires Tick(s, c, t) && NetNumbered(s)
    ensures NetNumbered(t)
  {
    forall w: Wire | t.net[w] > 0 ensures w.msg.transID <= t.transID {
      if w.msg.transID > c.copyID {
        OnlyRequests(s, c, t, w);
        assert w in multiset(c.requests);
        assert w in c.requests;
      }
    }
  }

  /** A client operation, sent once to each of the holders, is then pending there once and nowhere else. */
  lemma RequestIsAsked(s: Group, c: Choice, t: Group, req: Message, to: set<Address>)
    requires Tick(s, c, t) && NetNumbered(s) && Asking(req) && c.copyID < req.transID <= t.transID
    requires forall w: Wire :: w.msg.transID == req.transID ==>
      multiset(c.requests)[w] == if w.msg == req && w.to in to then 1 else 0
    ensures Asked(t, req, to) && NetNumbered(t)
  {
    StillNumbered(s, c, t);
    forall w: Wire | w.msg.transID == req.transID ensures t.net[w] == if w.msg == req && w.to in to then 1 else 0 {
      OnlyRequests(s, c, t, w);
    }
  }

  // ---------------------------------------------------------------- numbers of copies never become operations

  ghost predicate NotAnOperation(s: Group, id: int)
  {
    id <= s.transID && forall i: nat :: i < |s.nodes| ==> id !in s.nodes[i].operations
  }

  ghost predicate OperationsNumbered(s: Group)
  {
    forall i: nat, id :: i < |s.nodes| && id in s.nodes[i].operations ==> id <= s.transID
  }

  lemma CopyNumberIsFree(s: Group, c: Choice, t: Group, w: Wire)
    requires Tick(s, c, t) && OperationsNumbered(s) && w in c.copies
    ensures NotAnOperation(t, w.msg.transID)
  {
    forall i: nat | i < |t.nodes| ensures w.msg.transID !in t.nodes[i].operations {
      assert OperationsGrow(s, c, t, i);
    }
  }

  lemma TickKeepsNumbers(s: Group, c: Choice, t: Group, id: int)
    requires Tick(s, c, t) && OperationsNumbered(s)
    ensures OperationsNumbered(t)
    ensures NotAnOperation(s, id) ==> NotAnOperation(t, id)
  {
    forall i: nat, n | i < |t.nodes| && n in t.nodes[i].operations
      ensures n <= t.transID && (n in s.nodes[i].operations || n > s.transID)
    {
      assert OperationsGrow(s, c, t, i);
    }
  }

  lemma {:induction false} NumbersKept(run: seq<Group>, choices: seq<Choice>, k: nat, l: nat, id: int)
    requires Run(run, choices) && k <= l < |run| && OperationsNumbered(run[k])
    ensures OperationsNumbered(run[l]) && (NotAnOperation(run[k], id) ==> NotAnOperation(run[l], id))
    decreases l
  {
    if k < l {
      NumbersKept(run, choices, k, l - 1, id);
      assert TickAt(run, choices, l - 1);
      TickKeepsNumbers(run[l - 1], choices[l - 1], run[l], id);
    }
  }

  lemma NoOperationNoVerdict(run: seq<Group>, choices: seq<Choice>, l: nat, i: nat, id: int)
    requires Run(run, choices) && l < |choices| && NotAnOperation(run[l], id)
    ensures NoVerdict(run, choices, l, i, id)
  {
    assert TickAt(run, choices, l);
  }

  lemma CopyNumberFreeAfter(run: seq<Group>, choices: seq<Choice>, k: nat, w: Wire)
    requires Run(run, choices) && k < |choices| && OperationsNumbered(run[k]) && w in choices[k].copies
    ensures NotAnOperation(run[k + 1], w.msg.transID)
  {
    assert TickAt(run, choices, k);
    CopyNumberIsFree(run[k], choices[k], run[k + 1], w);
  }

  /** The replies to what stabilization has sent never lead to a verdict, at any node, at any later time. */
  lemma CopiesGetNoVerdict(run: seq<Group>, choices: seq<Choice>, k: nat, w: Wire, l: nat, i: nat)
    requires Run(run, choices) && OperationsNumbered(run[0]) && k <= l < |choices| && w in choices[k].copies
    ensures NoVerdict(run, choices, l, i, w.msg.transID)
  {
    NumbersKept(run, choices, 0, k, w.msg.transID);
    if l == k {
      assert TickAt(run, choices, k);
      return;
    }
    CopyNumberFreeAfter(run, choices, k, w);
    NumbersKept(run, choices, 0, k + 1, w.msg.transID);
    NumbersKept(run, choices, k + 1, l, w.msg.transID);
    NoOperationNoVerdict(run, choices, l, i, w.msg.transID);
  }
}
