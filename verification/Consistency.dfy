/**
 Read-after-write over runs of ticks (key-value-store/MP2Node.cpp, key-value-store/Application.cpp, mp2Run):
 once an update has been logged as a success, every later successful read of the key finds its value.
 */
module Consistency {
  import opened Addresses
  import opened Collections
  import opened Decimal
  import opened Delimited
  import opened Entries
  import opened HashTables
  import opened Messages
  import opened Servers
  import opened Transactions
  import Q = QuorumReads

  // ---------------------------------------------------------------- what one node makes of its messages

  /** The message leaves alone what is read under the key, or is a copy of it. */
  ghost predicate Spares(m: Message, key: string, value: string)
  {
    m.key == key ==> m.kind != DELETE && (m.kind == UPDATE ==> Q.Wrapped(m.value, value))
  }

  /** All messages do, but for those under one number. */
  ghost predicate AllSpare(queue: seq<Message>, key: string, value: string, id: int)
  {
    forall m :: m in queue ==> m.transID == id || Spares(m, key, value)
  }

  lemma HandleKeeps(s: Server, me: Address, time: int, m: Message, key: string, value: string)
    requires Q.Has(s.table, key, value) && Spares(m, key, value)
    ensures Q.Has(Handle(s, me, time, m).server.table, key, value)
  {
    Q.AfterKeeps(s.table, Q.Incoming(m, time, s.role), me, key, value);
  }

  predicate IntRoles(s: Server, queue: seq<Message>)
  {
    IsInt(s.role) && forall m :: m in queue ==> IsInt(m.replica)
  }

  lemma {:induction false} RoleIsInt(s: Server, me: Address, time: int, queue: seq<Message>)
    requires IntRoles(s, queue)
    ensures IsInt(HandleAll(s, me, time, queue).server.role)
  {
    if queue != [] {
      RoleIsInt(s, me, time, queue[..|queue| - 1]);
      assert queue[|queue| - 1] in queue;
    }
  }

  lemma HandleLast(s: Server, me: Address, time: int, queue: seq<Message>, id: int)
    requires queue != []
    ensures var n := |queue| - 1;
      var h := HandleAll(s, me, time, queue[..n]);
      var g := Handle(h.server, me, time, queue[n]);
      && HandleAll(s, me, time, queue).server == g.server
      && WiresOfId(HandleAll(s, me, time, queue).sends, id) == WiresOfId(h.sends, id) + if queue[n].transID == id then g.sends else []
  {
    var n := |queue| - 1;
    var h := HandleAll(s, me, time, queue[..n]);
    WiresOfIdAppend(h.sends, Handle(h.server, me, time, queue[n]).sends, id);
    SendsOfOne(h.server, me, time, queue[n], id);
  }

  lemma OnlyOne(queue: seq<Message>, req: Message)
    requires OfId(queue, req.transID) == [req]
    ensures queue != []
    ensures var n := |queue| - 1;
      if queue[n].transID == req.transID then OfId(queue[..n], req.transID) == [] && queue[n] == req
      else OfId(queue[..n], req.transID) == [req]
  {
    OfIdLast(queue, req.transID);
    var n := |queue| - 1;
    if queue[n].transID == req.transID {
      assert |OfId(queue[..n], req.transID)| == 0;
      assert (OfId(queue[..n], req.transID) + [queue[n]])[0] == queue[n];
    }
  }

  lemma UpdateHandled(h: Server, me: Address, time: int, req: Message)
    requires req.kind == UPDATE && IsInt(time) && IsInt(h.role)
    ensures Handle(h, me, time, req).sends == [Reply(req, me, true)] ==> Q.Has(Handle(h, me, time, req).server.table, req.key, req.value)
  {
    if Handle(h, me, time, req).sends == [Reply(req, me, true)] {
      assert Handle(h, me, time, req).sends[0] == Reply(req, me, true);
      Q.FirstWrap(req.value, time, h.role);
      WrapNotEmpty(req.value, time, h.role);
    }
  }

  /** A holder that confirms an update has its value when all messages have been handled. */
  lemma {:induction false} UpdateLands(s: Server, me: Address, time: int, queue: seq<Message>, req: Message)
    requires req.kind == UPDATE && OfId(queue, req.transID) == [req] && AllSpare(queue, req.key, req.value, req.transID)
    requires IsInt(time) && IntRoles(s, queue)
    ensures WiresOfId(HandleAll(s, me, time, queue).sends, req.transID) == [Reply(req, me, true)] ==>
      Q.Has(HandleAll(s, me, time, queue).server.table, req.key, req.value)
  {
    OnlyOne(queue, req);
    var n := |queue| - 1;
    var h := HandleAll(s, me, time, queue[..n]);
    HandleLast(s, me, time, queue, req.transID);
    hide HandleAll, WiresOfId, OfId, Q.Has;
    assert queue[n] in queue;
    if queue[n].transID == req.transID {
      SendsOfId(s, me, time, queue[..n], req.transID);
      RoleIsInt(s, me, time, queue[..n]);
      UpdateHandled(h.server, me, time, req);
    } else {
      UpdateLands(s, me, time, queue[..n], req);
      if Q.Has(h.server.table, req.key, req.value) {
        HandleKeeps(h.server, me, time, queue[n], req.key, req.value);
      }
    }
  }

  lemma {:induction false} AllKept(s: Server, me: Address, time: int, queue: seq<Message>, key: string, value: string)
    requires Q.Has(s.table, key, value) && forall m :: m in queue ==> Spares(m, key, value)
    ensures Q.Has(HandleAll(s, me, time, queue).server.table, key, value)
  {
    if queue != [] {
      var n := |queue| - 1;
      AllKept(s, me, time, queue[..n], key, value);
      assert queue[n] in queue;
      HandleKeeps(HandleAll(s, me, time, queue[..n]).server, me, time, queue[n], key, value);
    }
  }

  /** A holder that has the value tells it. */
  lemma {:induction false} ReadTells(s: Server, me: Address, time: int, queue: seq<Message>, req: Message, value: string) returns (text: string)
    requires req.kind == READ && OfId(queue, req.transID) == [req]
    requires Q.Has(s.table, req.key, value) && forall m :: m in queue ==> Spares(m, req.key, value)
    ensures WiresOfId(HandleAll(s, me, time, queue).sends, req.transID) == [ReadReply(req, me, text)]
    ensures Q.Wrapped(text, value) && text != ""
  {
    OnlyOne(queue, req);
    var n := |queue| - 1;
    var h := HandleAll(s, me, time, queue[..n]);
    HandleLast(s, me, time, queue, req.transID);
    if queue[n].transID == req.transID {
      SendsOfId(s, me, time, queue[..n], req.transID);
      AllKept(s, me, time, queue[..n], req.key, value);
      text := ReadOf(h.server.table, req.key);
    } else {
      text := ReadTells(s, me, time, queue[..n], req, value);
    }
  }

  // ---------------------------------------------------------------- one tick

  predicate Rewritten(x: string, y: string, time: int, role: int)
  {
    y == x || y == Wrap(x, time, role)
  }

  /** In this tick stabilization does no more to a table than to rewrite entries, as it does while the ring is stable. */
  ghost predicate OnlyRewrites(before: map<string, string>, after: map<string, string>)
  {
    forall key :: key in before ==> key in after && exists time, role :: Rewritten(before[key], after[key], time, role)
  }

  lemma RewriteKeeps(before: map<string, string>, after: map<string, string>, key: string, value: string)
    requires OnlyRewrites(before, after) && Q.Has(before, key, value)
    ensures Q.Has(after, key, value)
  {
    var time, role :| Rewritten(before[key], after[key], time, role);
    Q.NextWrap(before[key], value, time, role);
    WrapNotEmpty(before[key], time, role);
  }

  /** Nothing but the request with this number writes or deletes the key at node `i`. */
  ghost predicate CalmAt(s: Group, c: Choice, i: nat, key: string, value: string, id: int)
    requires i < |s.nodes| && Shaped(s, c)
  {
    && OnlyRewrites(s.nodes[i].table, c.tables[i]) && AllSpare(c.inbox[i], key, value, id)
    && IntRoles(Server(c.tables[i], map[], map[], c.roles[i]), c.inbox[i])
  }

  ghost predicate CalmTick(s: Group, c: Choice, key: string, value: string, id: int)
  {
    Shaped(s, c) && IsInt(c.time) && forall i: nat :: i < |s.nodes| ==> CalmAt(s, c, i, key, value, id)
  }

  lemma UpdateTick(s: Group, c: Choice, t: Group, req: Message, to: set<Address>, i: nat)
    requires Tick(s, c, t) && Asked(s, req, to) && req.kind == UPDATE && i < |s.nodes|
    requires CalmTick(s, c, req.key, req.value, req.transID)
    requires Answer(s, c, i, req.transID) == Some(Reply(req, s.nodes[i].addr, true))
    ensures Q.Has(t.nodes[i].table, req.key, req.value)
  {
    var id := req.transID;
    HolderAnswers(s, c, t, req, to, i);
    InboxOfId(s, c, t, id, i);
    OfIdOne(c.inbox[i], id, req);
    assert CalmAt(s, c, i, req.key, req.value, id);
    UpdateLands(Server(c.tables[i], map[], map[], c.roles[i]), s.nodes[i].addr, c.time, c.inbox[i], req);
  }

  /** No request for the key is under way at all. */
  ghost predicate Spared(s: Group, c: Choice, key: string, value: string)
  {
    Shaped(s, c) && forall i: nat :: i < |s.nodes| ==>
      OnlyRewrites(s.nodes[i].table, c.tables[i]) && forall m :: m in c.inbox[i] ==> Spares(m, key, value)
  }

  lemma KeepTick(s: Group, c: Choice, t: Group, i: nat, key: string, value: string)
    requires Tick(s, c, t) && i < |s.nodes| && !s.nodes[i].failed && Spared(s, c, key, value) && Q.Has(s.nodes[i].table, key, value)
    ensures Q.Has(t.nodes[i].table, key, value)
  {
    RewriteKeeps(s.nodes[i].table, c.tables[i], key, value);
    AllKept(Server(c.tables[i], map[], map[], c.roles[i]), s.nodes[i].addr, c.time, c.inbox[i], key, value);
  }

  lemma ReadTick(s: Group, c: Choice, t: Group, req: Message, to: set<Address>, i: nat, value: string) returns (text: string)
    requires Tick(s, c, t) && Asked(s, req, to) && req.kind == READ && i < |s.nodes|
    requires !s.nodes[i].failed && s.nodes[i].addr in to
    requires Spared(s, c, req.key, value) && Q.Has(s.nodes[i].table, req.key, value)
    ensures Answer(s, c, i, req.transID) == Some(ReadReply(req, s.nodes[i].addr, text)) && Q.Wrapped(text, value) && text != ""
  {
    InboxOfId(s, c, t, req.transID, i);
    OfIdOne(c.inbox[i], req.transID, req);
    RewriteKeeps(s.nodes[i].table, c.tables[i], req.key, value);
    text := ReadTells(Server(c.tables[i], map[], map[], c.roles[i]), s.nodes[i].addr, c.time, c.inbox[i], req, value);
  }

  // ---------------------------------------------------------------- over a run

  ghost predicate SparedAt(run: seq<Group>, choices: seq<Choice>, k: nat, key: string, value: string)
    requires k < |choices| && |run| == |choices| + 1
  {
    Spared(run[k], choices[k], key, value)
  }

  lemma {:induction false} KeepsUntil(run: seq<Group>, choices: seq<Choice>, k: nat, l: nat, i: nat, key: string, value: string)
    requires Run(run, choices) && k <= l < |run| && i < |run[k].nodes| && Q.Has(run[k].nodes[i].table, key, value)
    requires i < |run[l].nodes| && !run[l].nodes[i].failed
    requires forall m: nat :: k <= m < l ==> SparedAt(run, choices, m, key, value)
    ensures Q.Has(run[l].nodes[i].table, key, value)
    decreases l
  {
    if k < l {
      assert TickAt(run, choices, l - 1) && SparedAt(run, choices, l - 1, key, value);
      KeepsUntil(run, choices, k, l - 1, i, key, value);
      KeepTick(run[l - 1], choices[l - 1], run[l], i, key, value);
    }
  }

  lemma {:induction false} SameNodes(run: seq<Group>, choices: seq<Choice>, k: nat, l: nat)
    requires Run(run, choices) && k <= l < |run|
    ensures |run[l].nodes| == |run[k].nodes| && forall i: nat :: i < |run[k].nodes| ==> run[l].nodes[i].addr == run[k].nodes[i].addr
    decreases l
  {
    if k < l {
      SameNodes(run, choices, k, l - 1);
      assert TickAt(run, choices, l - 1);
    }
  }

  // ---------------------------------------------------------------- two quorums out of three holders share one

  /** Who has confirmed the update. */
  lemma {:induction false} Confirmers(says: seq<Option<Wire>>, req: Message) returns (who: set<Address>)
    requires Writing(req) && forall i: nat :: i < |says| ==> IsAnswer(says[i], req)
    requires forall i: nat, j: nat :: i < j < |says| && says[i].Some? ==> says[i] != says[j]
    ensures |who| == Successes(says)
    ensures forall a :: a in who ==> exists i :: 0 <= i < |says| && says[i] == Some(Reply(req, a, true))
  {
    if says == [] {
      who := {};
    } else {
      var n := |says| - 1;
      who := Confirmers(says[..n], req);
      assert IsAnswer(says[n], req);
      if says[n].Some? && says[n].value.msg.success {
        var a := says[n].value.msg.fromAddr;
        assert says[n] == Some(Reply(req, a, true));
        assert a !in who;
        who := who + {a};
      }
    }
  }

  lemma Overlap(to: set<Address>, x: set<Address>, y: set<Address>) returns (a: Address)
    requires |to| == 3 && x <= to && y <= to && |x| >= 2 && |y| >= 2
    ensures a in x && a in y
  {
    assert x + y <= to;
    SubsetSize(x + y, to);
    assert |x + y| == |x| + |y| - |x * y|;
    assert x * y != {};
    a :| a in x * y;
  }

  lemma SubsetSize<T>(x: set<T>, y: set<T>)
    requires x <= y
    ensures |x| <= |y|
  {
    assert y == x + (y - x);
  }

  // ---------------------------------------------------------------- an update and a later read

  /**
   An update asked at time `k` and a read of its key asked at a later time `l`, of the same three holders; in
   between the ring is stable and no other client writes or deletes the key.
   */
  ghost predicate Story(run: seq<Group>, choices: seq<Choice>, k: nat, update: Message, l: nat, read: Message, to: set<Address>)
  {
    && Run(run, choices) && k < l && l + 1 < |choices| && |to| == 3
    && Asked(run[k], update, to) && update.kind == UPDATE && Asked(run[l], read, to) && read.kind == READ && read.key == update.key
    && CalmTick(run[k], choices[k], update.key, update.value, update.transID)
    && forall m: nat :: k < m <= l ==> SparedAt(run, choices, m, update.key, update.value)
  }

  /** The coordinator `i` of the update is live to log it. */
  ghost predicate Coordinating(run: seq<Group>, k: nat, i: nat, req: Message)
  {
    k + 1 < |run| && Coordinates(run[k], i, req) && i < |run[k + 1].nodes| && !run[k + 1].nodes[i].failed
  }

  lemma TwoTicks(run: seq<Group>, choices: seq<Choice>, k: nat)
    requires Run(run, choices) && k + 1 < |choices|
    ensures Tick(run[k], choices[k], run[k + 1]) && Tick(run[k + 1], choices[k + 1], run[k + 2])
    ensures Shaped(run[k], choices[k]) && OwnAddresses(run[k])
  {
    assert TickAt(run, choices, k) && TickAt(run, choices, k + 1);
  }

  /** A holder that has confirmed the update and is live to answer the read tells its value. */
  lemma ConfirmerTells(run: seq<Group>, choices: seq<Choice>, k: nat, update: Message, l: nat, read: Message, to: set<Address>, n: nat)
    returns (text: string)
    requires Story(run, choices, k, update, l, read, to) && n < |run[k].nodes| && |run[l].nodes| == |run[k].nodes|
    requires run[l].nodes[n].addr == run[k].nodes[n].addr && run[l].nodes[n].addr in to && !run[l].nodes[n].failed
    requires Shaped(run[k], choices[k]) && Answer(run[k], choices[k], n, update.transID) == Some(Reply(update, run[k].nodes[n].addr, true))
    ensures Shaped(run[l], choices[l]) && Answer(run[l], choices[l], n, read.transID) == Some(ReadReply(read, run[l].nodes[n].addr, text))
    ensures Q.Wrapped(text, update.value) && text != ""
  {
    hide Tick, Asked, CalmTick, Spared, Answer, TickAt, Q.Has, Q.Wrapped;
    TwoTicks(run, choices, k);
    TwoTicks(run, choices, l);
    SameNodes(run, choices, k, k + 1);
    UpdateTick(run[k], choices[k], run[k + 1], update, to, n);
    KeepsUntil(run, choices, k + 1, l, n, update.key, update.value);
    assert SparedAt(run, choices, l, update.key, update.value);
    text := ReadTick(run[l], choices[l], run[l + 1], read, to, n, update.value);
  }

  lemma PlainIsRead(text: string, value: string)
    requires Q.Wrapped(text, value) && value != "" && ':' !in value && ParseEntry(text).Ok?
    ensures ParseEntry(text).value.value == value
  {
    Q.WrappedReads(text, value);
    EndsColon(value);
    assert value[..|value|] == value;
  }

  /** Two of the answers, from different holders, carry an entry, and all that do carry this value or nothing. */
  ghost predicate Agreed(says: seq<Option<Wire>>, value: string, x: nat, y: nat)
  {
    && x < |says| && y < |says| && x != y && Carries(says[x]) && Carries(says[y])
    && forall n: nat :: n < |says| && Carries(says[n]) ==>
      ParseEntry(says[n].value.msg.value).Ok? && ParseEntry(says[n].value.msg.value).value.value in ["", value]
  }

  predicate Carries(say: Option<Wire>)
  {
    say.Some? && say.value.msg.value != ""
  }

  lemma {:induction false} MessageOfSay(says: seq<Option<Wire>>, m: Message) returns (n: nat)
    requires m in MessagesOf(says)
    ensures n < |says| && says[n].Some? && says[n].value.msg == m
  {
    var last := |says| - 1;
    if says[last].Some? && says[last].value.msg == m {
      n := last;
    } else {
      n := MessageOfSay(says[..last], m);
    }
  }

  lemma {:induction false} SayIsMessage(says: seq<Option<Wire>>, n: nat)
    requires n < |says| && says[n].Some?
    ensures says[n].value.msg in MessagesOf(says)
  {
    var last := |says| - 1;
    if n < last {
      SayIsMessage(says[..last], n);
    }
  }

  lemma Arrived(arrival: seq<Message>, says: seq<Option<Wire>>, m: Message)
    requires multiset(arrival) == multiset(MessagesOf(says))
    ensures m in arrival <==> m in MessagesOf(says)
  {
    assert m in arrival <==> m in multiset(arrival);
    assert m in MessagesOf(says) <==> m in multiset(MessagesOf(says));
  }

  lemma TwoPlaces(arrival: seq<Message>, i: nat, j: nat)
    requires i < j < |arrival| && arrival[i] == arrival[j]
    ensures multiset(arrival)[arrival[i]] >= 2
  {
    assert arrival == arrival[..j] + arrival[j..];
    assert arrival[..j][i] == arrival[i] && arrival[j..][0] == arrival[j];
    assert arrival[i] in arrival[..j] && arrival[j] in arrival[j..];
  }

  /** What a successful read means for the answers of the holders. */
  lemma SuccessAgrees(says: seq<Option<Wire>>, req: Message, arrival: seq<Message>, value: string) returns (x: nat, y: nat)
    requires req.kind == READ && forall i: nat :: i < |says| ==> IsAnswer(says[i], req)
    requires forall i: nat, j: nat :: i < j < |says| && says[i].Some? ==> says[i] != says[j]
    requires multiset(arrival) == multiset(MessagesOf(says)) && forall m :: m in arrival ==> m.kind == READREPLY
    requires ReadVerdict(ValuesOf(arrival)) == Some(value)
    ensures Agreed(says, value, x, y)
  {
    AllTelling(arrival);
    var i, j := SuccessMeans(ValuesOf(arrival));
    Arrived(arrival, says, arrival[i]);
    Arrived(arrival, says, arrival[j]);
    x := MessageOfSay(says, arrival[i]);
    y := MessageOfSay(says, arrival[j]);
    if x == y {
      TwoPlaces(arrival, i, j);
      MessagesOnce(says, req, arrival[i]);
      assert false;
    }
    forall n: nat | n < |says| && Carries(says[n])
      ensures ParseEntry(says[n].value.msg.value).Ok? && ParseEntry(says[n].value.msg.value).value.value in ["", value]
    {
      SayIsMessage(says, n);
      Arrived(arrival, says, says[n].value.msg);
      var p :| 0 <= p < |arrival| && arrival[p] == says[n].value.msg;
      assert Servers.Answers(ValuesOf(arrival), p);
    }
  }

  /** All that a successful verdict on a write tells: two confirmers. */
  lemma WriteQuorum(run: seq<Group>, choices: seq<Choice>, k: nat, write: Message, to: set<Address>, i: nat) returns (who: set<Address>)
    requires Run(run, choices) && k + 1 < |choices| && Asked(run[k], write, to) && Writing(write) && Coordinating(run, k, i, write)
    requires Shaped(run[k + 1], choices[k + 1]) && Verdict(run[k + 1], choices[k + 1], i, write.transID) == Some(true)
    ensures Shaped(run[k], choices[k]) && |who| >= 2 && who <= to
    ensures forall a :: a in who ==> ConfirmerAt(run[k], choices[k], write, a)
  {
    TwoTicks(run, choices, k);
    AskedTick(run[k], choices[k], run[k + 1], write, to);
    VerdictTwoTicksLater(run, choices, k, write, to, i);
    var says := Transactions.Answers(run[k], choices[k], write.transID);
    who := Confirmers(says, write);
    forall a | a in who ensures a in to && ConfirmerAt(run[k], choices[k], write, a) {
      var n :| 0 <= n < |says| && says[n] == Some(Reply(write, a, true));
      HolderAnswers(run[k], choices[k], run[k + 1], write, to, n);
    }
  }

  predicate ConfirmerAt(s: Group, c: Choice, update: Message, a: Address)
    requires Shaped(s, c)
  {
    exists n: nat :: n < |s.nodes| && s.nodes[n].addr == a && Answer(s, c, n, update.transID) == Some(Reply(update, a, true))
  }

  /** And that on the read: two holders that agree. */
  lemma ReadQuorum(run: seq<Group>, choices: seq<Choice>, l: nat, read: Message, to: set<Address>, j: nat, value: string)
    returns (x: nat, y: nat)
    requires Run(run, choices) && l + 1 < |choices| && Asked(run[l], read, to) && read.kind == READ && Coordinating(run, l, j, read)
    requires Shaped(run[l + 1], choices[l + 1]) && Outcome(run[l + 1], choices[l + 1], j, read.transID) == Some(Some(value))
    ensures Shaped(run[l], choices[l]) && Agreed(Transactions.Answers(run[l], choices[l], read.transID), value, x, y)
    ensures x < |run[l].nodes| && y < |run[l].nodes| && run[l].nodes[x].addr != run[l].nodes[y].addr
    ensures run[l].nodes[x].addr in to && run[l].nodes[y].addr in to && !run[l].nodes[x].failed && !run[l].nodes[y].failed
  {
    TwoTicks(run, choices, l);
    AskedTick(run[l], choices[l], run[l + 1], read, to);
    var arrival := OutcomeTwoTicksLater(run, choices, l, read, to, j);
    var says := Transactions.Answers(run[l], choices[l], read.transID);
    x, y := SuccessAgrees(says, read, arrival, value);
    HolderAnswers(run[l], choices[l], run[l + 1], read, to, x);
    HolderAnswers(run[l], choices[l], run[l + 1], read, to, y);
    PlaceOf(run[l], x);
    PlaceOf(run[l], y);
  }

  /** Read-after-write: what a later successful read finds is what the update wrote. */
  lemma ReadsFindUpdate(run: seq<Group>, choices: seq<Choice>, k: nat, update: Message, l: nat, read: Message, to: set<Address>,
                        i: nat, j: nat, value: string)
    requires Story(run, choices, k, update, l, read, to) && Coordinating(run, k, i, update) && Coordinating(run, l, j, read)
    requires update.value != "" && ':' !in update.value
    requires Shaped(run[k + 1], choices[k + 1]) && Verdict(run[k + 1], choices[k + 1], i, update.transID) == Some(true)
    requires Shaped(run[l + 1], choices[l + 1]) && Outcome(run[l + 1], choices[l + 1], j, read.transID) == Some(Some(value))
    ensures value == update.value
  {
    hide Agreed, Verdict, Outcome, Tick, Answer, CalmTick, Asked;
    var who := WriteQuorum(run, choices, k, update, to, i);
    var x, y := ReadQuorum(run, choices, l, read, to, j, value);
    var a := Overlap(to, who, {run[l].nodes[x].addr, run[l].nodes[y].addr});
    ConfirmerDecides(run, choices, k, update, l, read, to, if run[l].nodes[x].addr == a then x else y, value);
  }

  lemma ConfirmerDecides(run: seq<Group>, choices: seq<Choice>, k: nat, update: Message, l: nat, read: Message, to: set<Address>,
                         n: nat, value: string)
    requires Story(run, choices, k, update, l, read, to) && update.value != "" && ':' !in update.value
    requires Shaped(run[k], choices[k]) && Shaped(run[l], choices[l]) && n < |run[l].nodes| && !run[l].nodes[n].failed
    requires run[l].nodes[n].addr in to && ConfirmerAt(run[k], choices[k], update, run[l].nodes[n].addr)
    requires exists x, y :: Agreed(Transactions.Answers(run[l], choices[l], read.transID), value, x, y)
    ensures value == update.value
  {
    hide Tick, Asked, CalmTick, Spared, Answer, TickAt, Q.Wrapped, SparedAt, ParseEntry;
    SameNodes(run, choices, k, l);
    var m: nat :| m < |run[k].nodes| && run[k].nodes[m].addr == run[l].nodes[n].addr
      && Answer(run[k], choices[k], m, update.transID) == Some(Reply(update, run[l].nodes[n].addr, true));
    TwoTicks(run, choices, k);
    PlaceOf(run[k], m);
    PlaceOf(run[k], n);
    var text := ConfirmerTells(run, choices, k, update, l, read, to, n);
    var says := Transactions.Answers(run[l], choices[l], read.transID);
    assert Carries(says[n]) && says[n].value.msg.value == text;
    PlainIsRead(text, update.value);
  }

  // ---------------------------------------------------------------- and a later read does succeed

  /** Besides, what is created under the key is a copy of this entry. */
  ghost predicate Copies(m: Message, key: string, value: string)
  {
    Spares(m, key, value) && (Recreates(m, key) ==> Q.Wrapped(m.value, value))
  }

  /** The holder has the value, or nothing. */
  ghost predicate HasNoOther(table: map<string, string>, key: string, value: string)
  {
    ReadOf(table, key) != "" ==> Q.Has(table, key, value)
  }

  lemma HandleHasNoOther(s: Server, me: Address, time: int, m: Message, key: string, value: string)
    requires HasNoOther(s.table, key, value) && Copies(m, key, value)
    ensures HasNoOther(Handle(s, me, time, m).server.table, key, value)
  {
    if m.key != key || (m.kind != CREATE && m.kind != UPDATE && m.kind != DELETE) {
      Servers.OthersUntouched(s, me, time, m, key);
    } else if ReadOf(s.table, key) != "" {
      HandleKeeps(s, me, time, m, key, value);
    } else if m.kind == CREATE {
      Q.NextWrap(m.value, value, time, s.role);
      WrapNotEmpty(m.value, time, s.role);
    }
  }

  lemma {:induction false} AllHaveNoOther(s: Server, me: Address, time: int, queue: seq<Message>, key: string, value: string)
    requires HasNoOther(s.table, key, value) && forall m :: m in queue ==> Copies(m, key, value)
    ensures HasNoOther(HandleAll(s, me, time, queue).server.table, key, value)
  {
    if queue != [] {
      var n := |queue| - 1;
      AllHaveNoOther(s, me, time, queue[..n], key, value);
      HandleAllLast(s, me, time, queue);
      assert queue[n] in queue;
      HandleHasNoOther(HandleAll(s, me, time, queue[..n]).server, me, time, queue[n], key, value);
    }
  }

  lemma {:induction false} ReadTellsNoOther(s: Server, me: Address, time: int, queue: seq<Message>, req: Message, value: string)
    returns (text: string)
    requires req.kind == READ && OfId(queue, req.transID) == [req]
    requires HasNoOther(s.table, req.key, value) && forall m :: m in queue ==> Copies(m, req.key, value)
    ensures WiresOfId(HandleAll(s, me, time, queue).sends, req.transID) == [ReadReply(req, me, text)]
    ensures text == "" || Q.Wrapped(text, value)
  {
    OnlyOne(queue, req);
    var n := |queue| - 1;
    var h := HandleAll(s, me, time, queue[..n]);
    HandleLast(s, me, time, queue, req.transID);
    if queue[n].transID == req.transID {
      SendsOfId(s, me, time, queue[..n], req.transID);
      AllHaveNoOther(s, me, time, queue[..n], req.key, value);
      text := ReadOf(h.server.table, req.key);
    } else {
      text := ReadTellsNoOther(s, me, time, queue[..n], req, value);
    }
  }

  /** When the read is handled, this holder has the value or nothing. */
  ghost predicate NoOtherAt(s: Group, c: Choice, i: nat, key: string, value: string)
    requires i < |s.nodes| && Shaped(s, c)
  {
    HasNoOther(c.tables[i], key, value) && forall m :: m in c.inbox[i] ==> Copies(m, key, value)
  }

  lemma NoOtherAnswer(s: Group, c: Choice, t: Group, req: Message, to: set<Address>, i: nat, value: string) returns (text: string)
    requires Tick(s, c, t) && Asked(s, req, to) && req.kind == READ && i < |s.nodes|
    requires !s.nodes[i].failed && s.nodes[i].addr in to && NoOtherAt(s, c, i, req.key, value)
    ensures Answer(s, c, i, req.transID) == Some(ReadReply(req, s.nodes[i].addr, text)) && (text == "" || Q.Wrapped(text, value))
  {
    InboxOfId(s, c, t, req.transID, i);
    OfIdOne(c.inbox[i], req.transID, req);
    text := ReadTellsNoOther(Server(c.tables[i], map[], map[], c.roles[i]), s.nodes[i].addr, c.time, c.inbox[i], req, value);
  }

  /** No live holder has another value when the read is handled. */
  ghost predicate NoOtherValue(s: Group, c: Choice, to: set<Address>, key: string, value: string)
  {
    Shaped(s, c) && forall n: nat :: n < |s.nodes| && !s.nodes[n].failed && s.nodes[n].addr in to ==> NoOtherAt(s, c, n, key, value)
  }

  /** All answers hold this value or nothing, and these two hold it. */
  ghost predicate Harmonious(says: seq<Option<Wire>>, value: string, x: nat, y: nat)
  {
    && x < |says| && y < |says| && x != y && Carries(says[x]) && Carries(says[y])
    && forall n: nat :: n < |says| && Carries(says[n]) ==> Reads(says[n].value.msg.value, value)
  }

  lemma PlaceInArrival(arrival: seq<Message>, says: seq<Option<Wire>>, n: nat) returns (p: nat)
    requires multiset(arrival) == multiset(MessagesOf(says)) && n < |says| && says[n].Some?
    ensures p < |arrival| && arrival[p] == says[n].value.msg
  {
    SayIsMessage(says, n);
    Arrived(arrival, says, says[n].value.msg);
    p :| 0 <= p < |arrival| && arrival[p] == says[n].value.msg;
  }

  lemma HarmonySucceeds(says: seq<Option<Wire>>, arrival: seq<Message>, value: string, x: nat, y: nat)
    requires Harmonious(says, value, x, y) && value != "" && says[x].value.msg != says[y].value.msg
    requires multiset(arrival) == multiset(MessagesOf(says)) && forall m :: m in arrival ==> m.kind == READREPLY
    ensures OutcomeFrom(says, arrival) == Some(Some(value))
  {
    AllTelling(arrival);
    var values := ValuesOf(arrival);
    var p := PlaceInArrival(arrival, says, x);
    var q := PlaceInArrival(arrival, says, y);
    forall i: nat | Servers.Answers(values, i) ensures Reads(values[i], value) {
      assert arrival[i] in arrival;
      Arrived(arrival, says, arrival[i]);
      var n := MessageOfSay(says, arrival[i]);
      assert Carries(says[n]);
    }
    AgreeingRead(values, value, p, q);
  }

  lemma PlainReads(text: string, value: string)
    requires Q.Wrapped(text, value) && ':' !in value
    ensures Reads(text, value)
  {
    Q.WrappedReads(text, value);
    EndsColon(value);
    NoColonLegible(value);
    assert value[..|value|] == value;
  }

  lemma NoColonLegible(value: string)
    requires ':' !in value
    ensures Legible(value)
  {
    EndsColon(value);
  }

  /** The answers to the read, when two confirmers are live to give them. */
  lemma ReadHarmony(run: seq<Group>, choices: seq<Choice>, k: nat, update: Message, l: nat, read: Message, to: set<Address>, x: nat, y: nat)
    requires Story(run, choices, k, update, l, read, to) && ':' !in update.value
    requires LiveConfirmer(run, choices, k, update, l, to, x) && LiveConfirmer(run, choices, k, update, l, to, y) && x != y
    requires NoOtherValue(run[l], choices[l], to, update.key, update.value)
    ensures var says := Transactions.Answers(run[l], choices[l], read.transID);
      Harmonious(says, update.value, x, y) && says[x].value.msg != says[y].value.msg
  {
    var says := Transactions.Answers(run[l], choices[l], read.transID);
    TwoTicks(run, choices, l);
    var a := ConfirmerTells(run, choices, k, update, l, read, to, x);
    var b := ConfirmerTells(run, choices, k, update, l, read, to, y);
    forall n: nat | n < |says| && Carries(says[n]) ensures Reads(says[n].value.msg.value, update.value) {
      HolderAnswers(run[l], choices[l], run[l + 1], read, to, n);
      var text := NoOtherAnswer(run[l], choices[l], run[l + 1], read, to, n, update.value);
      PlainReads(text, update.value);
    }
    PlaceOf(run[l], x);
    PlaceOf(run[l], y);
  }

  /** Node `n` has confirmed the update and is live to answer the read. */
  ghost predicate LiveConfirmer(run: seq<Group>, choices: seq<Choice>, k: nat, update: Message, l: nat, to: set<Address>, n: nat)
    requires k < |run| && k < |choices| && l < |run|
  {
    && n < |run[k].nodes| && |run[l].nodes| == |run[k].nodes| && run[l].nodes[n].addr == run[k].nodes[n].addr
    && run[l].nodes[n].addr in to && !run[l].nodes[n].failed && Shaped(run[k], choices[k])
    && Answer(run[k], choices[k], n, update.transID) == Some(Reply(update, run[k].nodes[n].addr, true))
  }

  /**
   Reads do succeed: if two holders that confirmed the update are live to answer, and no live holder has
   another value, the coordinator logs the read as a success, with the value of the update.
   */
  lemma ReadSucceeds(run: seq<Group>, choices: seq<Choice>, k: nat, update: Message, l: nat, read: Message, to: set<Address>,
                     j: nat, x: nat, y: nat)
    requires Story(run, choices, k, update, l, read, to) && Coordinating(run, l, j, read)
    requires update.value != "" && ':' !in update.value && x != y
    requires LiveConfirmer(run, choices, k, update, l, to, x) && LiveConfirmer(run, choices, k, update, l, to, y)
    requires NoOtherValue(run[l], choices[l], to, update.key, update.value)
    ensures Shaped(run[l + 1], choices[l + 1]) && Outcome(run[l + 1], choices[l + 1], j, read.transID) == Some(Some(update.value))
  {
    TwoTicks(run, choices, l);
    ReadHarmony(run, choices, k, update, l, read, to, x, y);
    var arrival := OutcomeTwoTicksLater(run, choices, l, read, to, j);
    HarmonySucceeds(Transactions.Answers(run[l], choices[l], read.transID), arrival, update.value, x, y);
  }

  // ---------------------------------------------------------------- a delete and a later read

  lemma {:induction false} DeleteLands(s: Server, me: Address, time: int, queue: seq<Message>, req: Message)
    requires req.kind == DELETE && OfId(queue, req.transID) == [req] && forall m :: m in queue ==> !Recreates(m, req.key)
    ensures ReadOf(HandleAll(s, me, time, queue).server.table, req.key) == ""
  {
    OnlyOne(queue, req);
    var n := |queue| - 1;
    HandleAllLast(s, me, time, queue);
    assert queue[n] in queue;
    var h := HandleAll(s, me, time, queue[..n]).server;
    if queue[n].transID == req.transID {
      DeleteErases(h, me, time, req);
    } else {
      DeleteLands(s, me, time, queue[..n], req);
      GoneNext(h, me, time, queue[n], req.key);
    }
  }

  lemma {:induction false} ReadTellsNothing(s: Server, me: Address, time: int, queue: seq<Message>, req: Message)
    requires req.kind == READ && OfId(queue, req.transID) == [req]
    requires ReadOf(s.table, req.key) == "" && forall m :: m in queue ==> !Recreates(m, req.key)
    ensures WiresOfId(HandleAll(s, me, time, queue).sends, req.transID) == [ReadReply(req, me, "")]
  {
    OnlyOne(queue, req);
    var n := |queue| - 1;
    HandleLast(s, me, time, queue, req.transID);
    if queue[n].transID == req.transID {
      SendsOfId(s, me, time, queue[..n], req.transID);
      GoneStays(s, me, time, queue[..n], req.key);
    } else {
      ReadTellsNothing(s, me, time, queue[..n], req);
    }
  }

  /** In this tick nobody creates the key, by message or by stabilization. */
  ghost predicate NoCreates(s: Group, c: Choice, key: string)
  {
    Shaped(s, c) && forall i: nat :: i < |s.nodes| ==>
      && (ReadOf(s.nodes[i].table, key) == "" ==> ReadOf(c.tables[i], key) == "")
      && forall m :: m in c.inbox[i] ==> !Recreates(m, key)
  }

  lemma DeleteTick(s: Group, c: Choice, t: Group, req: Message, to: set<Address>, i: nat)
    requires Tick(s, c, t) && Asked(s, req, to) && req.kind == DELETE && NoCreates(s, c, req.key)
    requires i < |s.nodes| && !s.nodes[i].failed && s.nodes[i].addr in to
    ensures ReadOf(t.nodes[i].table, req.key) == ""
  {
    InboxOfId(s, c, t, req.transID, i);
    OfIdOne(c.inbox[i], req.transID, req);
    DeleteLands(Server(c.tables[i], map[], map[], c.roles[i]), s.nodes[i].addr, c.time, c.inbox[i], req);
  }

  lemma GoneTick(s: Group, c: Choice, t: Group, i: nat, key: string)
    requires Tick(s, c, t) && NoCreates(s, c, key) && i < |s.nodes| && !s.nodes[i].failed && ReadOf(s.nodes[i].table, key) == ""
    ensures ReadOf(t.nodes[i].table, key) == ""
  {
    GoneStays(Server(c.tables[i], map[], map[], c.roles[i]), s.nodes[i].addr, c.time, c.inbox[i], key);
  }

  lemma GoneAnswer(s: Group, c: Choice, t: Group, req: Message, to: set<Address>, i: nat)
    requires Tick(s, c, t) && Asked(s, req, to) && req.kind == READ && NoCreates(s, c, req.key)
    requires i < |s.nodes| && !s.nodes[i].failed && s.nodes[i].addr in to && ReadOf(s.nodes[i].table, req.key) == ""
    ensures Answer(s, c, i, req.transID) == Some(ReadReply(req, s.nodes[i].addr, ""))
  {
    InboxOfId(s, c, t, req.transID, i);
    OfIdOne(c.inbox[i], req.transID, req);
    ReadTellsNothing(Server(c.tables[i], map[], map[], c.roles[i]), s.nodes[i].addr, c.time, c.inbox[i], req);
  }

  ghost predicate NoCreatesAt(run: seq<Group>, choices: seq<Choice>, k: nat, key: string)
    requires k < |choices| && |run| == |choices| + 1
  {
    NoCreates(run[k], choices[k], key)
  }

  lemma {:induction false} GoneUntil(run: seq<Group>, choices: seq<Choice>, k: nat, l: nat, i: nat, key: string)
    requires Run(run, choices) && k <= l < |run| && i < |run[k].nodes| && ReadOf(run[k].nodes[i].table, key) == ""
    requires i < |run[l].nodes| && !run[l].nodes[i].failed
    requires forall m: nat :: k <= m < l ==> NoCreatesAt(run, choices, m, key)
    ensures ReadOf(run[l].nodes[i].table, key) == ""
    decreases l
  {
    if k < l {
      assert TickAt(run, choices, l - 1) && NoCreatesAt(run, choices, l - 1, key);
      GoneUntil(run, choices, k, l - 1, i, key);
      GoneTick(run[l - 1], choices[l - 1], run[l], i, key);
    }
  }

  /** A delete asked at time `k`, and a read of its key asked later of the same holders; nobody creates the key from then on. */
  ghost predicate Erasure(run: seq<Group>, choices: seq<Choice>, k: nat, delete: Message, l: nat, read: Message, to: set<Address>)
  {
    && Run(run, choices) && k < l && l + 1 < |choices| && |to| == 3
    && Asked(run[k], delete, to) && delete.kind == DELETE && Asked(run[l], read, to) && read.kind == READ && read.key == delete.key
    && forall m: nat :: k <= m <= l ==> NoCreatesAt(run, choices, m, delete.key)
  }

  /** Whoever was live to handle the delete, confirming it or not, and is live to answer the read tells nothing. */
  lemma DeletedTells(run: seq<Group>, choices: seq<Choice>, k: nat, delete: Message, l: nat, read: Message, to: set<Address>, n: nat)
    requires Erasure(run, choices, k, delete, l, read, to)
    requires n < |run[l].nodes| && run[l].nodes[n].addr in to && !run[l].nodes[n].failed
    ensures Shaped(run[l], choices[l]) && Answer(run[l], choices[l], n, read.transID) == Some(ReadReply(read, run[l].nodes[n].addr, ""))
  {
    hide Tick, Asked, NoCreates, Answer, TickAt;
    TwoTicks(run, choices, k);
    TwoTicks(run, choices, l);
    SameNodes(run, choices, k, l);
    SameNodes(run, choices, k, k + 1);
    StillFailed(run, choices, k, l, n);
    assert NoCreatesAt(run, choices, k, delete.key);
    assert NoCreatesAt(run, choices, l, delete.key);
    DeleteTick(run[k], choices[k], run[k + 1], delete, to, n);
    GoneUntil(run, choices, k + 1, l, n, delete.key);
    GoneAnswer(run[l], choices[l], run[l + 1], read, to, n);
  }

  lemma {:induction false} StillFailed(run: seq<Group>, choices: seq<Choice>, k: nat, l: nat, n: nat)
    requires Run(run, choices) && k <= l < |run| && n < |run[k].nodes|
    ensures n < |run[l].nodes| && (run[k].nodes[n].failed ==> run[l].nodes[n].failed)
    decreases l
  {
    if k < l {
      StillFailed(run, choices, k, l - 1, n);
      assert TickAt(run, choices, l - 1);
    }
  }

  /** So no later read of a deleted key is logged as a success, until somebody creates it again. */
  lemma DeletedIsNotRead(run: seq<Group>, choices: seq<Choice>, k: nat, delete: Message, l: nat, read: Message, to: set<Address>, j: nat)
    requires Erasure(run, choices, k, delete, l, read, to) && Coordinating(run, l, j, read)
    ensures Shaped(run[l + 1], choices[l + 1])
    ensures Outcome(run[l + 1], choices[l + 1], j, read.transID) in [None, Some(None)]
  {
    TwoTicks(run, choices, l);
    var outcome := Outcome(run[l + 1], choices[l + 1], j, read.transID);
    if outcome.Some? && outcome.value.Some? {
      var x, y := ReadQuorum(run, choices, l, read, to, j, outcome.value.value);
      DeletedTells(run, choices, k, delete, l, read, to, x);
    }
  }

  // ---------------------------------------------------------------- when a write succeeds

  /** The message neither adds the key nor takes it away. */
  predicate KeepsPresence(m: Message, key: string)
  {
    m.key == key ==> m.kind != CREATE && m.kind != DELETE
  }

  lemma HandleKeepsPresence(s: Server, me: Address, time: int, m: Message, key: string)
    requires KeepsPresence(m, key)
    ensures ReadOf(Handle(s, me, time, m).server.table, key) == "" <==> ReadOf(s.table, key) == ""
  {
    WrapNotEmpty(m.value, time, s.role);
    if m.key != key {
      Servers.OthersUntouched(s, me, time, m, key);
    }
  }

  lemma {:induction false} PresenceKept(s: Server, me: Address, time: int, queue: seq<Message>, key: string, id: int)
    requires OfId(queue, id) == [] && forall m :: m in queue ==> m.transID == id || KeepsPresence(m, key)
    ensures ReadOf(HandleAll(s, me, time, queue).server.table, key) == "" <==> ReadOf(s.table, key) == ""
  {
    if queue != [] {
      var n := |queue| - 1;
      OfIdLast(queue, id);
      HandleAllLast(s, me, time, queue);
      assert queue[n] in queue;
      PresenceKept(s, me, time, queue[..n], key, id);
      HandleKeepsPresence(HandleAll(s, me, time, queue[..n]).server, me, time, queue[n], key);
    }
  }

  /** A holder confirms every create, and another write if it has the key. */
  predicate Confirms(table: map<string, string>, req: Message)
  {
    req.kind == CREATE || ReadOf(table, req.key) != ""
  }

  lemma WriteAnswered(h: Server, me: Address, time: int, req: Message)
    requires Writing(req)
    ensures Handle(h, me, time, req).sends == [Reply(req, me, Confirms(h.table, req))]
  {
  }

  lemma {:induction false} WriteConfirmed(s: Server, me: Address, time: int, queue: seq<Message>, req: Message)
    requires Writing(req) && OfId(queue, req.transID) == [req]
    requires forall m :: m in queue ==> m.transID == req.transID || KeepsPresence(m, req.key)
    ensures WiresOfId(HandleAll(s, me, time, queue).sends, req.transID) == [Reply(req, me, Confirms(s.table, req))]
  {
    OnlyOne(queue, req);
    var n := |queue| - 1;
    var h := HandleAll(s, me, time, queue[..n]);
    HandleLast(s, me, time, queue, req.transID);
    assert queue[n] in queue;
    if queue[n].transID == req.transID {
      SendsOfId(s, me, time, queue[..n], req.transID);
      PresenceKept(s, me, time, queue[..n], req.key, req.transID);
      WriteAnswered(h.server, me, time, req);
    } else {
      WriteConfirmed(s, me, time, queue[..n], req);
    }
  }

  /** No other message of the tick creates or deletes the key. */
  ghost predicate Alone(s: Group, c: Choice, req: Message)
  {
    Shaped(s, c) && forall i: nat :: i < |s.nodes| ==> forall m :: m in c.inbox[i] ==> m.transID == req.transID || KeepsPresence(m, req.key)
  }

  /** A live holder that confirms the write. */
  ghost predicate ConfirmingAt(s: Group, c: Choice, req: Message, to: set<Address>, i: nat)
    requires Shaped(s, c)
  {
    i < |s.nodes| && !s.nodes[i].failed && s.nodes[i].addr in to && Confirms(c.tables[i], req)
  }

  lemma AnswerIs(s: Group, c: Choice, t: Group, req: Message, to: set<Address>, i: nat)
    requires Tick(s, c, t) && Asked(s, req, to) && Writing(req) && Alone(s, c, req) && i < |s.nodes|
    ensures var say := Answer(s, c, i, req.transID);
      Succeeds(say) <==> ConfirmingAt(s, c, req, to, i)
  {
    HolderAnswers(s, c, t, req, to, i);
    AskedInbox(s, c, t, req, to, i);
    if !s.nodes[i].failed && s.nodes[i].addr in to {
      WriteConfirmed(Server(c.tables[i], map[], map[], c.roles[i]), s.nodes[i].addr, c.time, c.inbox[i], req);
    }
  }

  predicate Succeeds(say: Option<Wire>)
  {
    say.Some? && say.value.msg.success
  }

  lemma {:induction false} OneSuccess(says: seq<Option<Wire>>)
    ensures Successes(says) >= 1 <==> exists x: nat :: x < |says| && Succeeds(says[x])
  {
    if says != [] {
      var n := |says| - 1;
      OneSuccess(says[..n]);
      if x: nat :| x < |says| && Succeeds(says[x]) {
        assert x < n ==> Succeeds(says[..n][x]);
      }
      if x: nat :| x < n && Succeeds(says[..n][x]) {
        assert Succeeds(says[x]);
      }
    }
  }

  lemma {:induction false} TwoSuccesses(says: seq<Option<Wire>>)
    ensures Successes(says) >= 2 <==> exists x: nat, y: nat :: x < y < |says| && Succeeds(says[x]) && Succeeds(says[y])
  {
    if says != [] {
      var n := |says| - 1;
      TwoSuccesses(says[..n]);
      OneSuccess(says[..n]);
      if x: nat, y: nat :| x < y < |says| && Succeeds(says[x]) && Succeeds(says[y]) {
        assert Succeeds(says[..n][x]);
        assert y < n ==> Succeeds(says[..n][y]);
      }
      if Succeeds(says[n]) {
        if x: nat :| x < n && Succeeds(says[..n][x]) {
          assert Succeeds(says[x]);
        }
      }
      if x: nat, y: nat :| x < y < n && Succeeds(says[..n][x]) && Succeeds(says[..n][y]) {
        assert Succeeds(says[x]) && Succeeds(says[y]);
      }
    }
  }

  /** A write is logged as a success if and only if two or more live holders confirm it: for a create all do, otherwise those with the key. */
  lemma WriteSucceeds(run: seq<Group>, choices: seq<Choice>, k: nat, req: Message, to: set<Address>, i: nat)
    requires Run(run, choices) && k + 1 < |choices| && Asked(run[k], req, to) && Writing(req) && Coordinating(run, k, i, req)
    requires Alone(run[k], choices[k], req)
    ensures Shaped(run[k + 1], choices[k + 1])
    ensures Verdict(run[k + 1], choices[k + 1], i, req.transID) == Some(true) <==>
      exists x: nat, y: nat :: x < y && ConfirmingAt(run[k], choices[k], req, to, x) && ConfirmingAt(run[k], choices[k], req, to, y)
  {
    TwoTicks(run, choices, k);
    AskedTick(run[k], choices[k], run[k + 1], req, to);
    VerdictTwoTicksLater(run, choices, k, req, to, i);
    var says := Transactions.Answers(run[k], choices[k], req.transID);
    forall n: nat | n < |says| ensures Succeeds(says[n]) <==> ConfirmingAt(run[k], choices[k], req, to, n) {
      AnswerIs(run[k], choices[k], run[k + 1], req, to, n);
    }
    TwoSuccesses(says);
    if x: nat, y: nat :| x < y && ConfirmingAt(run[k], choices[k], req, to, x) && ConfirmingAt(run[k], choices[k], req, to, y) {
      assert Succeeds(says[x]) && Succeeds(says[y]);
    }
  }
}
