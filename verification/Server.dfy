/**
 The server side of the key-value store (key-value-store/MP2Node.cpp): what a node makes of each message,
 and what the coordinator makes of the replies.
 */
module Servers {
  import opened Collections
  import opened Addresses
  import opened Decimal
  import opened Entries
  import opened HashTables
  import opened Messages

  datatype Wire = Wire(to: Address, msg: Message)

  /** The table, the replies gathered so far by transaction, and the role seen last. */
  datatype Server = Server(table: map<string, string>, results: map<int, seq<bool>>, readValues: map<int, seq<string>>, role: int)

  datatype Handled = Handled(server: Server, sends: seq<Wire>)

  function Wrap(value: string, time: int, role: int): string
  {
    EntryText(StoredEntry(value, time, role))
  }

  function Gather<T>(replies: map<int, seq<T>>, id: int, reply: T): map<int, seq<T>>
  {
    replies[id := (if id in replies then replies[id] else []) + [reply]]
  }

  function Reply(m: Message, me: Address, ok: bool): Wire
  {
    Wire(m.fromAddr, Message(m.transID, me, REPLY, "", "", 0, ok))
  }

  function ReadReply(m: Message, me: Address, value: string): Wire
  {
    Wire(m.fromAddr, Message(m.transID, me, READREPLY, "", value, 0, false))
  }

  /** One message. A new entry is wrapped with the role of the message before. */
  function Handle(s: Server, me: Address, time: int, m: Message): Handled
  {
    if m.kind == CREATE then
      Handled(s.(table := Created(s.table, m.key, Wrap(m.value, time, s.role)), role := m.replica), [Reply(m, me, true)])
    else if m.kind == DELETE then
      Handled(s.(table := Deleted(s.table, m.key)), [Reply(m, me, ReadOf(s.table, m.key) != "")])
    else if m.kind == READ then
      Handled(s, [ReadReply(m, me, ReadOf(s.table, m.key))])
    else if m.kind == UPDATE then
      Handled(s.(table := Updated(s.table, m.key, Wrap(m.value, time, s.role))), [Reply(m, me, ReadOf(s.table, m.key) != "")])
    else if m.kind == REPLY then
      Handled(s.(results := Gather(s.results, m.transID, m.success)), [])
    else
      Handled(s.(readValues := Gather(s.readValues, m.transID, m.value)), [])
  }

  function HandleAll(s: Server, me: Address, time: int, queue: seq<Message>): Handled
  {
    if queue == [] then Handled(s, [])
    else
      var n := |queue| - 1;
      var h := HandleAll(s, me, time, queue[..n]);
      var g := Handle(h.server, me, time, queue[n]);
      Handled(g.server, h.sends + g.sends)
  }

  lemma WrapNotEmpty(value: string, time: int, role: int)
    ensures Wrap(value, time, role) != ""
  {
  }

  lemma HandleKeepsNoneEmpty(s: Server, me: Address, time: int, m: Message)
    requires NoneEmpty(s.table)
    ensures NoneEmpty(Handle(s, me, time, m).server.table)
  {
    WrapNotEmpty(m.value, time, s.role);
    OperationsKeepNoneEmpty(s.table, m.key, Wrap(m.value, time, s.role));
  }

  /** No message makes a table hold an empty text, so a read finds nothing exactly for the keys that are absent. */
  lemma {:induction false} NeverEmpty(s: Server, me: Address, time: int, queue: seq<Message>)
    requires NoneEmpty(s.table)
    ensures var table := HandleAll(s, me, time, queue).server.table;
      NoneEmpty(table) && forall key :: ReadOf(table, key) == "" <==> key !in table
  {
    if queue != [] {
      var n := |queue| - 1;
      NeverEmpty(s, me, time, queue[..n]);
      HandleKeepsNoneEmpty(HandleAll(s, me, time, queue[..n]).server, me, time, queue[n]);
    }
  }

  // ---------------------------------------------------------------- the coordinator's verdicts

  function CountTrue(answers: seq<bool>): (c: nat)
    ensures c <= |answers|
  {
    if answers == [] then 0 else CountTrue(answers[..|answers| - 1]) + if answers[|answers| - 1] then 1 else 0
  }

  /** `check_update_operations`: more than one replica must have succeeded. */
  predicate Quorum(answers: seq<bool>)
  {
    CountTrue(answers) > 1
  }

  /** The state of the loop over the values read. */
  datatype Tally = Tally(value: string, counter: nat, several: bool)

  function CountOne(t: Tally, value: string): Tally
  {
    if !t.several && t.value == "" then Tally(value, t.counter + 1, false)
    else if t.value != "" && t.value != value then Tally(t.value, t.counter + 1, true)
    else Tally(t.value, t.counter + 1, t.several)
  }

  /** An entry that cannot be parsed ends the program. */
  function Count(values: seq<string>): Result<Tally>
  {
    if values == [] then Ok(Tally("", 0, false))
    else
      var n := |values| - 1;
      var t := Count(values[..n]);
      if t.Err? || values[n] == "" then t
      else
        var e := ParseEntry(values[n]);
        if e.Err? then Err(e.error) else Ok(CountOne(t.value, e.value.value))
  }

  /** `check_read_operations`: the value, if the read is logged as a success. */
  function ReadVerdict(values: seq<string>): Option<string>
  {
    var t := Count(values);
    if t.Ok? && t.value.counter > 1 && t.value.value != "" && !t.value.several then Some(t.value.value) else None
  }

  // ---------------------------------------------------------------- what a successful read means

  /** A reply that carries an entry. */
  predicate Answers(values: seq<string>, k: nat)
  {
    k < |values| && values[k] != ""
  }

  ghost predicate Agree(values: seq<string>, t: Tally)
  {
    && (forall k: nat :: Answers(values, k) ==> ParseEntry(values[k]).Ok?)
    && (t.value != "" && !t.several ==>
        forall k: nat :: Answers(values, k) ==> ParseEntry(values[k]).value.value in ["", t.value])
    && (t.value == "" ==> !t.several && forall k: nat :: Answers(values, k) ==> ParseEntry(values[k]).value.value == "")
  }

  lemma {:induction false} CountAgrees(values: seq<string>)
    requires Count(values).Ok?
    ensures Agree(values, Count(values).value)
  {
    if values != [] {
      var n := |values| - 1;
      CountAgrees(values[..n]);
      AgreeNext(values, Count(values[..n]).value, Count(values).value);
    }
  }

  lemma AgreeNext(values: seq<string>, t: Tally, t': Tally)
    requires values != [] && Agree(values[..|values| - 1], t)
    requires var x := values[|values| - 1];
      if x == "" then t' == t else ParseEntry(x).Ok? && t' == CountOne(t, ParseEntry(x).value.value)
    ensures Agree(values, t')
  {
    hide ParseEntry;
    var n := |values| - 1;
    forall k: nat | Answers(values, k) ensures ParseEntry(values[k]).Ok? && (k < n ==> Answers(values[..n], k) && values[..n][k] == values[k]) {
      if k < n {
        assert Answers(values[..n], k);
      }
    }
  }

  lemma {:induction false} OneAnswer(values: seq<string>) returns (k: nat)
    requires Count(values).Ok? && Count(values).value.counter > 0
    ensures Answers(values, k)
  {
    var n := |values| - 1;
    if values[n] == "" {
      k := OneAnswer(values[..n]);
    } else {
      k := n;
    }
  }

  lemma {:induction false} TwoAnswers(values: seq<string>) returns (j: nat, k: nat)
    requires Count(values).Ok? && Count(values).value.counter > 1
    ensures j < k && Answers(values, j) && Answers(values, k)
  {
    var n := |values| - 1;
    if values[n] == "" {
      j, k := TwoAnswers(values[..n]);
    } else {
      j := OneAnswer(values[..n]);
      k := n;
    }
  }

  /** A successful read saw two entries at least, and every entry it saw holds its value or nothing. */
  lemma SuccessMeans(values: seq<string>) returns (j: nat, k: nat)
    requires ReadVerdict(values).Some?
    ensures j < k && Answers(values, j) && Answers(values, k)
    ensures forall i: nat :: Answers(values, i) ==>
      ParseEntry(values[i]).Ok? && ParseEntry(values[i]).value.value in ["", ReadVerdict(values).value]
  {
    CountAgrees(values);
    j, k := TwoAnswers(values);
  }

  // ---------------------------------------------------------------- and exactly when a read succeeds

  ghost predicate Readable(values: seq<string>)
  {
    forall k: nat :: Answers(values, k) ==> ParseEntry(values[k]).Ok?
  }

  /** What the replies that carry an entry tell, in their order. */
  function Told(values: seq<string>): (p: seq<string>)
  {
    if values == [] then []
    else
      var n := |values| - 1;
      var e := ParseEntry(values[n]);
      Told(values[..n]) + if values[n] == "" || e.Err? then [] else [e.value.value]
  }

  /** The first value told that is not empty. */
  function FirstTold(p: seq<string>): (f: nat)
    ensures f <= |p| && (forall i :: 0 <= i < f ==> p[i] == "") && (f < |p| ==> p[f] != "")
  {
    if p == [] || p[0] != "" then 0 else 1 + FirstTold(p[1..])
  }

  ghost predicate TallyOf(t: Tally, p: seq<string>)
  {
    var f := FirstTold(p);
    && t.counter == |p| && t.value == (if f < |p| then p[f] else "")
    && (t.several <==> exists i :: f < i < |p| && p[i] != p[f])
  }

  lemma FirstToldNext(p: seq<string>, v: string)
    ensures FirstTold(p + [v]) == if FirstTold(p) < |p| || v != "" then FirstTold(p) else |p| + 1
  {
    var q, f := p + [v], FirstTold(p + [v]);
    var g := FirstTold(p);
    if g < |p| {
      assert q[g] != "" && forall i :: 0 <= i < g ==> q[i] == "";
    } else {
      assert q[|p|] == v && forall i :: 0 <= i < |p| ==> q[i] == "";
    }
  }

  lemma TallyNext(t: Tally, p: seq<string>, v: string)
    requires TallyOf(t, p)
    ensures TallyOf(CountOne(t, v), p + [v])
  {
    FirstToldNext(p, v);
    var q, f := p + [v], FirstTold(p);
    if f < |p| {
      assert q[f] == p[f] && q[|p|] == v;
      if i :| f < i < |p| && p[i] != p[f] {
        assert q[i] != q[f];
      }
      if i :| f < i < |q| && q[i] != q[f] {
        assert i < |p| ==> p[i] != p[f];
      }
    }
  }

  lemma {:induction false} CountIsTally(values: seq<string>)
    ensures Count(values).Ok? <==> Readable(values)
    ensures Count(values).Ok? ==> TallyOf(Count(values).value, Told(values))
  {
    if values != [] {
      var n := |values| - 1;
      CountIsTally(values[..n]);
      ReadableNext(values);
      assert Told(values[..n]) + [] == Told(values[..n]);
      if Readable(values) && values[n] != "" {
        TallyNext(Count(values[..n]).value, Told(values[..n]), ParseEntry(values[n]).value.value);
      }
    }
  }

  lemma ReadableNext(values: seq<string>)
    requires values != []
    ensures var n := |values| - 1;
      Readable(values) <==> Readable(values[..n]) && (values[n] != "" ==> ParseEntry(values[n]).Ok?)
  {
    var n := |values| - 1;
    hide ParseEntry;
    if Readable(values) {
      forall k: nat | Answers(values[..n], k) ensures ParseEntry(values[..n][k]).Ok? {
        assert Answers(values, k);
      }
      assert values[n] != "" ==> Answers(values, n);
    }
    if Readable(values[..n]) && (values[n] != "" ==> ParseEntry(values[n]).Ok?) {
      forall k: nat | Answers(values, k) ensures ParseEntry(values[k]).Ok? {
        assert k < n ==> Answers(values[..n], k);
      }
    }
  }

  /** Two or more entries, and from the first that holds anything on they all hold this value. */
  ghost predicate Unanimous(p: seq<string>, v: string)
  {
    v != "" && |p| >= 2 && exists f: nat :: f < |p| && AllFrom(p, f, v)
  }

  predicate AllFrom(p: seq<string>, f: nat, v: string)
  {
    forall i :: 0 <= i < |p| ==> p[i] == if i < f then "" else v
  }

  /** A read is logged as a success, with this value, exactly for such replies. */
  lemma ReadVerdictExactly(values: seq<string>, v: string)
    ensures ReadVerdict(values) == Some(v) <==> Readable(values) && Unanimous(Told(values), v)
  {
    CountIsTally(values);
    if Readable(values) {
      var t, p := Count(values).value, Told(values);
      var f := FirstTold(p);
      if t.counter > 1 && t.value == v && v != "" && !t.several {
        assert AllFrom(p, f, v);
      }
      if Unanimous(p, v) {
        var g: nat :| g < |p| && AllFrom(p, g, v);
        assert p[g] == v && f == g;
      }
    }
  }

  /** In particular, two or more entries that all hold the value make a success. */
  lemma AgreeingRead(values: seq<string>, v: string, j: nat, k: nat)
    requires v != "" && j != k && Answers(values, j) && Answers(values, k)
    requires forall i: nat :: Answers(values, i) ==> Reads(values[i], v)
    ensures ReadVerdict(values) == Some(v)
  {
    ToldAgree(values, v);
    ToldTwo(values, if j < k then j else k, if j < k then k else j);
    ReadVerdictExactly(values, v);
    assert AllFrom(Told(values), 0, v);
  }

  lemma {:induction false} ToldAgree(values: seq<string>, v: string)
    requires forall i: nat :: Answers(values, i) ==> Reads(values[i], v)
    ensures Readable(values) && forall i :: 0 <= i < |Told(values)| ==> Told(values)[i] == v
  {
    hide ParseEntry;
    if values != [] {
      var n := |values| - 1;
      forall i: nat | Answers(values[..n], i) ensures Reads(values[..n][i], v) {
        assert Answers(values, i);
      }
      ToldAgree(values[..n], v);
      assert values[n] != "" ==> Answers(values, n);
    }
  }

  lemma {:induction false} ToldTwo(values: seq<string>, j: nat, k: nat)
    requires Readable(values) && Answers(values, j) && Answers(values, k) && j < k
    ensures |Told(values)| >= 2
  {
    hide ParseEntry;
    var n := |values| - 1;
    ReadableNext(values);
    if k < n {
      ToldTwo(values[..n], j, k);
    } else {
      ToldOne(values[..n], j);
    }
  }

  lemma {:induction false} ToldOne(values: seq<string>, j: nat)
    requires Readable(values) && Answers(values, j)
    ensures |Told(values)| >= 1
  {
    hide ParseEntry;
    var n := |values| - 1;
    ReadableNext(values);
    if j < n {
      ToldOne(values[..n], j);
    }
  }

  // ---------------------------------------------------------------- what a message does to the table

  /** A message touches the table under its own key only, and only if it is a create, an update or a delete. */
  lemma OthersUntouched(s: Server, me: Address, time: int, m: Message, key: string)
    requires key != m.key || (m.kind != CREATE && m.kind != UPDATE && m.kind != DELETE)
    ensures var table := Handle(s, me, time, m).server.table;
      (key in table <==> key in s.table) && ReadOf(table, key) == ReadOf(s.table, key)
  {
  }

  /** What is there is read back; a create adds what is not there, a delete leaves nothing, an update changes what is there. */
  lemma OwnKey(s: Server, me: Address, time: int, m: Message)
    requires NoneEmpty(s.table)
    ensures var found := ReadOf(Handle(s, me, time, m).server.table, m.key);
      && (m.kind == CREATE ==> found == if m.key in s.table then s.table[m.key] else Wrap(m.value, time, s.role))
      && (m.kind == UPDATE ==> found == if m.key in s.table then Wrap(m.value, time, s.role) else "")
      && (m.kind == DELETE ==> found == "")
  {
    WrapNotEmpty(m.value, time, s.role);
  }

  /** A new entry, and one that is updated, is read back with value, time and role, if the value has no colon. */
  lemma StoredAsAsked(s: Server, me: Address, time: int, m: Message)
    requires NoneEmpty(s.table) && ':' !in m.value && IsInt(time) && IsInt(s.role)
    requires (m.kind == CREATE && m.key !in s.table) || (m.kind == UPDATE && m.key in s.table)
    ensures ParseEntry(ReadOf(Handle(s, me, time, m).server.table, m.key)) == Ok(StoredEntry(m.value, time, s.role))
  {
    OwnKey(s, me, time, m);
    WrapIsRead(m.value, time, s.role);
  }

  /** The role that new entries are wrapped with is that of the last create before, whatever was sent with this one. */
  lemma {:induction false} RoleLags(s: Server, me: Address, time: int, queue: seq<Message>)
    ensures var role := HandleAll(s, me, time, queue).server.role;
      && (role == s.role || exists k :: 0 <= k < |queue| && queue[k].kind == CREATE && queue[k].replica == role)
      && (forall k :: 0 <= k < |queue| && queue[k].kind == CREATE && NoCreateAfter(queue, k) ==> role == queue[k].replica)
      && ((forall k :: 0 <= k < |queue| ==> queue[k].kind != CREATE) ==> role == s.role)
  {
    if queue != [] {
      var n := |queue| - 1;
      var front := queue[..n];
      RoleLags(s, me, time, front);
      HandleAllLast(s, me, time, queue);
      RoleNext(HandleAll(s, me, time, front).server, me, time, queue[n]);
      hide HandleAll, Handle;
      assert forall k :: 0 <= k < n ==> front[k] == queue[k];
      if queue[n].kind != CREATE {
        assert forall k :: 0 <= k < n && NoCreateAfter(queue, k) ==> NoCreateAfter(front, k);
      }
    }
  }

  lemma RoleNext(s: Server, me: Address, time: int, m: Message)
    ensures Handle(s, me, time, m).server.role == if m.kind == CREATE then m.replica else s.role
  {
  }

  predicate NoCreateAfter(queue: seq<Message>, k: int)
    requires 0 <= k < |queue|
  {
    forall j :: k < j < |queue| ==> queue[j].kind != CREATE
  }

  /** A write is confirmed exactly if the key was there, and a create always; a read is answered with what is there. */
  lemma AnswerTells(s: Server, me: Address, time: int, m: Message)
    requires NoneEmpty(s.table)
    ensures var sends := Handle(s, me, time, m).sends;
      && (m.kind == CREATE ==> sends == [Reply(m, me, true)])
      && (m.kind == UPDATE || m.kind == DELETE ==> sends == [Reply(m, me, m.key in s.table)])
      && (m.kind == READ ==> sends == [ReadReply(m, me, if m.key in s.table then s.table[m.key] else "")])
      && (m.kind == REPLY || m.kind == READREPLY ==> sends == [])
  {
  }

  /** A delete erases, whatever the table held. */
  lemma DeleteErases(s: Server, me: Address, time: int, m: Message)
    requires m.kind == DELETE
    ensures ReadOf(Handle(s, me, time, m).server.table, m.key) == ""
  {
  }

  lemma HandleAllLast(s: Server, me: Address, time: int, queue: seq<Message>)
    requires queue != []
    ensures var n := |queue| - 1;
      HandleAll(s, me, time, queue).server == Handle(HandleAll(s, me, time, queue[..n]).server, me, time, queue[n]).server
  {
    hide Handle;
  }

  predicate Recreates(m: Message, key: string)
  {
    m.kind == CREATE && m.key == key
  }

  lemma GoneNext(s: Server, me: Address, time: int, m: Message, key: string)
    requires ReadOf(s.table, key) == "" && !Recreates(m, key)
    ensures ReadOf(Handle(s, me, time, m).server.table, key) == ""
  {
  }

  /** And what is gone stays gone until it is created again. */
  lemma {:induction false} GoneStays(s: Server, me: Address, time: int, queue: seq<Message>, key: string)
    requires ReadOf(s.table, key) == "" && forall m :: m in queue ==> !Recreates(m, key)
    ensures ReadOf(HandleAll(s, me, time, queue).server.table, key) == ""
  {
    if queue != [] {
      var n := |queue| - 1;
      GoneStays(s, me, time, queue[..n], key);
      HandleAllLast(s, me, time, queue);
      assert queue[n] in queue;
      GoneNext(HandleAll(s, me, time, queue[..n]).server, me, time, queue[n], key);
    }
  }
}
