/**
 A node of the key-value store (key-value-store/MP2Node.cpp): a class over its ring, its hash table and the
 tables of its open transactions, proved to do what Servers, Rings and Stabilization say.
 */
module KeyValueNode {
  import opened Collections
  import opened Addresses
  import opened Decimal
  import opened Entries
  import opened HashTables
  import opened Messages
  import opened Rings
  import opened Servers
  import opened Stabilization

  /** What is handed to the network: a message as text. */
  datatype Letter = Letter(to: Address, text: string)

  /** A verdict of the coordinator, as it is logged. */
  datatype LogEntry =
    | WriteVerdict(id: int, coordinator: Address, kind: int, key: string, value: string, ok: bool)
    | ReadOutcome(id: int, coordinator: Address, key: string, found: Option<string>)

  /** A list of log entries, and whether the text of an operation or entry could not be read. */
  datatype Logged = Logged(log: seq<LogEntry>, ok: bool)

  /** The counter that all nodes share. */
  class TransactionCounter {
    var value: int

    constructor ()
      ensures value == 0
    {
      value := 0;
    }
  }

  function LettersOf(wires: seq<Wire>): (letters: seq<Letter>)
    ensures |letters| == |wires|
  {
    seq(|wires|, k requires 0 <= k < |wires| => Letter(wires[k].to, Text(wires[k].msg)))
  }

  /** The messages for the copies of an entry, numbered from `id + 1`. */
  function CopiesOf(me: Address, id: int, key: string, value: string, copies: seq<Copy>): (letters: seq<Letter>)
    ensures |letters| == |copies|
  {
    seq(|copies|, k requires 0 <= k < |copies| =>
      Letter(copies[k].to, Text(Message(id + 1 + k, me, copies[k].kind, key, value, copies[k].role, false))))
  }

  // ---------------------------------------------------------------- stabilization, key by key

  datatype Stable = Stable(table: map<string, string>, id: int, letters: seq<Letter>)

  function StabilizeKey(s: Stable, me: Address, ring: seq<RingNode>, newRing: seq<RingNode>, pos: nat, key: string, time: int): Stable
    requires |ring| >= 3 && |newRing| >= 3
  {
    Apply(s, me, key, time, PlanFor(me, ring, newRing, pos))
  }

  /** Carries out a plan for a key. */
  function Apply(s: Stable, me: Address, key: string, time: int, plan: Plan): Stable
  {
    var value := ReadOf(s.table, key);
    match plan
    case Drop(sends) => Stable(Deleted(s.table, key), s.id + |sends|, s.letters + CopiesOf(me, s.id, key, value, sends))
    case Keep(role, sends) =>
      Stable(Updated(s.table, key, Wrap(value, time, role)), s.id + 1 + |sends|,
             s.letters + CopiesOf(me, s.id + 1, key, value, sends))
  }

  function StabilizeAll(s: Stable, me: Address, ring: seq<RingNode>, newRing: seq<RingNode>, hash: string -> nat,
                        order: seq<string>, time: int): Stable
    requires |ring| >= 3 && |newRing| >= 3
  {
    if order == [] then s
    else
      var n := |order| - 1;
      StabilizeKey(StabilizeAll(s, me, ring, newRing, hash, order[..n], time), me, ring, newRing, hash(order[n]), order[n], time)
  }

  /** Each element once, in some order. */
  ghost predicate Enumerates<T(!new)>(order: seq<T>, elements: set<T>)
  {
    && (forall x :: x in order <==> x in elements)
    && (forall i, j :: 0 <= i < j < |order| ==> order[i] != order[j])
  }

  /** Of the elements, those in `order` have been taken and those in `todo` have not. */
  ghost predicate Remaining<T(!new)>(todo: set<T>, order: seq<T>, elements: set<T>)
  {
    todo <= elements && Enumerates(order, elements - todo)
  }

  method TakeOne<T(==, !new)>(todo: set<T>, ghost order: seq<T>, ghost elements: set<T>) returns (x: T, rest: set<T>)
    requires todo != {} && Remaining(todo, order, elements)
    ensures x in todo && rest == todo - {x} && Remaining(rest, order + [x], elements)
  {
    x :| x in todo;
    rest := todo - {x};
    assert elements - rest == (elements - todo) + {x};
  }

  lemma AllTaken<T(!new)>(order: seq<T>, elements: set<T>)
    requires Remaining({}, order, elements)
    ensures Enumerates(order, elements)
  {
    assert elements - {} == elements;
  }

  // ---------------------------------------------------------------- the loops over the replies

  function WriteLog(order: seq<int>, results: map<int, seq<bool>>, operations: map<int, string>): Logged
  {
    if order == [] then Logged([], true)
    else
      var n := |order| - 1;
      var rest := WriteLog(order[..n], results, operations);
      var id := order[n];
      if !rest.ok || id !in results || id !in operations then rest
      else
        var m := Parse(operations[id]);
        if m.Err? then Logged(rest.log, false)
        else Logged(rest.log + WriteEntry(id, m.value, results[id]), true)
  }

  function WriteEntry(id: int, m: Message, answers: seq<bool>): seq<LogEntry>
  {
    if m.kind == CREATE || m.kind == UPDATE || m.kind == DELETE then
      [WriteVerdict(id, m.fromAddr, m.kind, m.key, if m.kind == DELETE then "" else m.value, Quorum(answers))]
    else []
  }

  function ReadLog(order: seq<int>, values: map<int, seq<string>>, operations: map<int, string>): Logged
  {
    if order == [] then Logged([], true)
    else
      var n := |order| - 1;
      var rest := ReadLog(order[..n], values, operations);
      var id := order[n];
      if !rest.ok || id !in values || id !in operations then rest
      else
        var m := Parse(operations[id]);
        if m.Err? || Count(values[id]).Err? then Logged(rest.log, false)
        else Logged(rest.log + ReadEntry(id, m.value, values[id]), true)
  }

  function ReadEntry(id: int, m: Message, values: seq<string>): seq<LogEntry>
  {
    if m.kind == READ then [ReadOutcome(id, m.fromAddr, m.key, ReadVerdict(values))] else []
  }

  lemma WriteLogOne(order: seq<int>, id: int, results: map<int, seq<bool>>, operations: map<int, string>)
    ensures var rest := WriteLog(order, results, operations);
      WriteLog(order + [id], results, operations) ==
      if !rest.ok || id !in results || id !in operations then rest
      else if Parse(operations[id]).Err? then Logged(rest.log, false)
      else Logged(rest.log + WriteEntry(id, Parse(operations[id]).value, results[id]), true)
  {
    assert (order + [id])[..|order + [id]| - 1] == order;
  }

  lemma ReadLogOne(order: seq<int>, id: int, values: map<int, seq<string>>, operations: map<int, string>)
    ensures var rest := ReadLog(order, values, operations);
      ReadLog(order + [id], values, operations) ==
      if !rest.ok || id !in values || id !in operations then rest
      else if Parse(operations[id]).Err? || Count(values[id]).Err? then Logged(rest.log, false)
      else Logged(rest.log + ReadEntry(id, Parse(operations[id]).value, values[id]), true)
  {
    assert (order + [id])[..|order + [id]| - 1] == order;
  }

  /** How many verdicts a list holds for a transaction. */
  function VerdictsFor(log: seq<LogEntry>, id: int): nat
  {
    if log == [] then 0 else VerdictsFor(log[..|log| - 1], id) + if log[|log| - 1].id == id then 1 else 0
  }

  lemma {:induction false} VerdictsAppend(x: seq<LogEntry>, y: seq<LogEntry>, id: int)
    ensures VerdictsFor(x + y, id) == VerdictsFor(x, id) + VerdictsFor(y, id)
  {
    if y == [] {
      assert x + y == x;
    } else {
      var n := |y| - 1;
      VerdictsAppend(x, y[..n], id);
      assert (x + y)[..|x + y| - 1] == x + y[..n];
    }
  }

  /** The transaction is a write that this node coordinates, and it has replies. */
  predicate Due(id: int, results: map<int, seq<bool>>, operations: map<int, string>)
  {
    && id in results && id in operations && Parse(operations[id]).Ok?
    && (Parse(operations[id]).value.kind == CREATE || Parse(operations[id]).value.kind == UPDATE
        || Parse(operations[id]).value.kind == DELETE)
  }

  lemma VerdictsOfEntry(other: int, id: int, m: Message, answers: seq<bool>)
    ensures VerdictsFor(WriteEntry(other, m, answers), id)
         == if other == id && (m.kind == CREATE || m.kind == UPDATE || m.kind == DELETE) then 1 else 0
  {
    var e := WriteEntry(other, m, answers);
    if e != [] {
      assert e[..0] == [];
    }
  }

  /** In one pass over the replies each transaction that is due gets one verdict, and no other gets any. */
  lemma {:induction false} OneVerdictEach(order: seq<int>, results: map<int, seq<bool>>, operations: map<int, string>, id: int)
    requires WriteLog(order, results, operations).ok && forall i, j :: 0 <= i < j < |order| ==> order[i] != order[j]
    ensures VerdictsFor(WriteLog(order, results, operations).log, id) == if id in order && Due(id, results, operations) then 1 else 0
  {
    if order != [] {
      var n := |order| - 1;
      var front, last := order[..n], order[n];
      assert order == front + [last];
      WriteLogOne(front, last, results, operations);
      OneVerdictEach(front, results, operations, id);
      if last in results && last in operations {
        var m := Parse(operations[last]).value;
        VerdictsAppend(WriteLog(front, results, operations).log, WriteEntry(last, m, results[last]), id);
        VerdictsOfEntry(last, id, m, results[last]);
      }
    }
  }

  /** The verdict of the quorum, on the operation that was noted. */
  ghost predicate IsVerdict(e: LogEntry, results: map<int, seq<bool>>, operations: map<int, string>)
  {
    && e.WriteVerdict? && Due(e.id, results, operations) && e.ok == Quorum(results[e.id])
    && var m := Parse(operations[e.id]).value;
      e.coordinator == m.fromAddr && e.kind == m.kind && e.key == m.key && e.value == (if m.kind == DELETE then "" else m.value)
  }

  lemma EntryIsVerdict(id: int, results: map<int, seq<bool>>, operations: map<int, string>, e: LogEntry)
    requires id in results && id in operations && Parse(operations[id]).Ok?
    requires e in WriteEntry(id, Parse(operations[id]).value, results[id])
    ensures IsVerdict(e, results, operations)
  {
    hide Parse, Quorum;
  }

  /** Every verdict of a pass is that, and names coordinator, kind, key and value of the operation. */
  lemma {:induction false} VerdictIsQuorum(order: seq<int>, results: map<int, seq<bool>>, operations: map<int, string>, e: LogEntry)
    requires WriteLog(order, results, operations).ok && e in WriteLog(order, results, operations).log
    ensures IsVerdict(e, results, operations)
  {
    if order != [] {
      var n := |order| - 1;
      hide WriteLog, IsVerdict, WriteEntry, Parse;
      WriteLogOne(order[..n], order[n], results, operations);
      assert order == order[..n] + [order[n]];
      if e in WriteLog(order[..n], results, operations).log {
        VerdictIsQuorum(order[..n], results, operations, e);
      } else {
        EntryIsVerdict(order[n], results, operations, e);
      }
    }
  }

  /** So a write noted as it was asked for is logged as it was asked for. */
  lemma LoggedAsAsked(m: Message, order: seq<int>, results: map<int, seq<bool>>, operations: map<int, string>, e: LogEntry)
    requires Ranges(m) && Safe(m) && m.transID in operations && operations[m.transID] == Text(m)
    requires WriteLog(order, results, operations).ok && e in WriteLog(order, results, operations).log && e.id == m.transID
    ensures e.WriteVerdict? && e.coordinator == m.fromAddr && e.kind == m.kind && e.key == m.key
    ensures e.value == if m.kind == DELETE then "" else m.value
    ensures m.transID in results && e.ok == Quorum(results[m.transID])
  {
    VerdictIsQuorum(order, results, operations, e);
    RoundTrip(m);
  }

  /** The transaction is a read that this node coordinates, and it has answers. */
  predicate ReadDue(id: int, values: map<int, seq<string>>, operations: map<int, string>)
  {
    id in values && id in operations && Parse(operations[id]).Ok? && Parse(operations[id]).value.kind == READ
  }

  /** The outcome of the answers, on the read that was noted. */
  ghost predicate IsOutcome(e: LogEntry, values: map<int, seq<string>>, operations: map<int, string>)
  {
    && e.ReadOutcome? && ReadDue(e.id, values, operations) && e.found == ReadVerdict(values[e.id])
    && var m := Parse(operations[e.id]).value;
      e.coordinator == m.fromAddr && e.key == m.key
  }

  lemma EntryIsOutcome(id: int, values: map<int, seq<string>>, operations: map<int, string>, e: LogEntry)
    requires id in values && id in operations && Parse(operations[id]).Ok?
    requires e in ReadEntry(id, Parse(operations[id]).value, values[id])
    ensures IsOutcome(e, values, operations)
  {
    hide Parse, ReadVerdict;
  }

  /** And likewise for reads: each that is due gets one outcome, of its answers, naming coordinator and key. */
  lemma {:induction false} OutcomeIsVerdict(order: seq<int>, values: map<int, seq<string>>, operations: map<int, string>, e: LogEntry)
    requires ReadLog(order, values, operations).ok && e in ReadLog(order, values, operations).log
    ensures IsOutcome(e, values, operations)
  {
    if order != [] {
      var n := |order| - 1;
      hide ReadLog, IsOutcome, ReadEntry, Parse, Count;
      ReadLogOne(order[..n], order[n], values, operations);
      assert order == order[..n] + [order[n]];
      if e in ReadLog(order[..n], values, operations).log {
        OutcomeIsVerdict(order[..n], values, operations, e);
      } else {
        EntryIsOutcome(order[n], values, operations, e);
      }
    }
  }

  lemma {:induction false} OneOutcomeEach(order: seq<int>, values: map<int, seq<string>>, operations: map<int, string>, id: int)
    requires ReadLog(order, values, operations).ok && forall i, j :: 0 <= i < j < |order| ==> order[i] != order[j]
    ensures VerdictsFor(ReadLog(order, values, operations).log, id) == if id in order && ReadDue(id, values, operations) then 1 else 0
  {
    if order != [] {
      var n := |order| - 1;
      var front, last := order[..n], order[n];
      assert order == front + [last];
      ReadLogOne(front, last, values, operations);
      OneOutcomeEach(front, values, operations, id);
      if last in values && last in operations {
        var m := Parse(operations[last]).value;
        VerdictsAppend(ReadLog(front, values, operations).log, ReadEntry(last, m, values[last]), id);
        OutcomesOfEntry(last, id, m, values[last]);
      }
    }
  }

  lemma OutcomesOfEntry(other: int, id: int, m: Message, values: seq<string>)
    ensures VerdictsFor(ReadEntry(other, m, values), id) == if other == id && m.kind == READ then 1 else 0
  {
    var e := ReadEntry(other, m, values);
    if e != [] {
      assert e[..0] == [];
    }
  }

  lemma ReadLoggedAsAsked(m: Message, order: seq<int>, values: map<int, seq<string>>, operations: map<int, string>, e: LogEntry)
    requires Ranges(m) && Safe(m) && m.transID in operations && operations[m.transID] == Text(m)
    requires ReadLog(order, values, operations).ok && e in ReadLog(order, values, operations).log && e.id == m.transID
    ensures e.ReadOutcome? && m.kind == READ && e.coordinator == m.fromAddr && e.key == m.key
    ensures m.transID in values && e.found == ReadVerdict(values[m.transID])
  {
    OutcomeIsVerdict(order, values, operations, e);
    RoundTrip(m);
  }

  /** A pass comes to its end exactly when every operation that has replies can be read. */
  lemma {:induction false} WritesEndWell(order: seq<int>, results: map<int, seq<bool>>, operations: map<int, string>)
    ensures WriteLog(order, results, operations).ok <==>
      forall id :: id in order && id in results && id in operations ==> Parse(operations[id]).Ok?
  {
    if order != [] {
      var n := |order| - 1;
      hide WriteLog, Parse;
      WritesEndWell(order[..n], results, operations);
      WriteLogOne(order[..n], order[n], results, operations);
      assert order == order[..n] + [order[n]];
    }
  }

  /** And for reads, when moreover every entry that came back can. */
  lemma {:induction false} ReadsEndWell(order: seq<int>, values: map<int, seq<string>>, operations: map<int, string>)
    ensures ReadLog(order, values, operations).ok <==>
      forall id :: id in order && id in values && id in operations ==> Parse(operations[id]).Ok? && Count(values[id]).Ok?
  {
    if order != [] {
      var n := |order| - 1;
      hide ReadLog, Parse, Count;
      ReadsEndWell(order[..n], values, operations);
      ReadLogOne(order[..n], order[n], values, operations);
      assert order == order[..n] + [order[n]];
    }
  }

  // ---------------------------------------------------------------- the messages in the queue

  predicate AllParse(queue: seq<string>)
  {
    forall k :: 0 <= k < |queue| ==> Parse(queue[k]).Ok?
  }

  function ParsedAll(queue: seq<string>): (r: seq<Message>)
    requires AllParse(queue)
    ensures |r| == |queue|
  {
    seq(|queue|, k requires 0 <= k < |queue| => Parse(queue[k]).value)
  }

  lemma ParsedOne(done: seq<string>, text: string)
    requires AllParse(done) && Parse(text).Ok?
    ensures AllParse(done + [text]) && ParsedAll(done + [text]) == ParsedAll(done) + [Parse(text).value]
  {
  }

  lemma HandleAllOne(s: Server, me: Address, time: int, done: seq<Message>, m: Message)
    ensures var h := HandleAll(s, me, time, done);
      var g := Handle(h.server, me, time, m);
      HandleAll(s, me, time, done + [m]) == Handled(g.server, h.sends + g.sends)
  {
    assert (done + [m])[..|done + [m]| - 1] == done;
  }

  lemma LettersAppend(x: seq<Wire>, y: seq<Wire>)
    ensures LettersOf(x + y) == LettersOf(x) + LettersOf(y)
  {
    var a, b := LettersOf(x + y), LettersOf(x) + LettersOf(y);
    forall k | 0 <= k < |a| ensures a[k] == b[k] {
      if k < |x| {
        assert (x + y)[k] == x[k];
      } else {
        assert (x + y)[k] == y[k - |x|];
      }
    }
  }

  /** Handling these messages leaves this server, and these letters sent. */
  ghost predicate Outcome(start: Server, me: Address, time: int, done: seq<string>, s: Server, before: seq<Letter>, sent: seq<Letter>)
  {
    && AllParse(done)
    && var h := HandleAll(start, me, time, ParsedAll(done));
      s == h.server && sent == before + LettersOf(h.sends)
  }

  lemma OutcomeNext(start: Server, me: Address, time: int, done: seq<string>, s: Server, before: seq<Letter>, sent: seq<Letter>,
                    text: string, m: Message)
    requires Outcome(start, me, time, done, s, before, sent) && Parse(text) == Ok(m)
    ensures var g := Handle(s, me, time, m);
      Outcome(start, me, time, done + [text], g.server, before, sent + LettersOf(g.sends))
  {
    ParsedOne(done, text);
    HandleAllOne(start, me, time, ParsedAll(done), m);
    SentNext(before, HandleAll(start, me, time, ParsedAll(done)).sends, Handle(s, me, time, m).sends);
  }

  lemma SentNext(before: seq<Letter>, x: seq<Wire>, y: seq<Wire>)
    ensures before + LettersOf(x) + LettersOf(y) == before + LettersOf(x + y)
  {
    hide LettersOf;
    LettersAppend(x, y);
    ThreeParts(before, LettersOf(x), LettersOf(y));
  }

  lemma ThreeParts(x: seq<Letter>, y: seq<Letter>, z: seq<Letter>)
    ensures x + (y + z) == x + y + z
  {
  }

  lemma NotAllParse(queue: seq<string>, k: nat)
    requires k < |queue| && Parse(queue[k]).Err?
    ensures !AllParse(queue)
  {
  }

  lemma NextInQueue(queue: seq<string>, done: seq<string>, text: string, rest: seq<string>)
    requires queue == done + ([text] + rest)
    ensures queue == (done + [text]) + rest
  {
  }

  lemma OutcomeOfNone(start: Server, me: Address, time: int, before: seq<Letter>)
    ensures Outcome(start, me, time, [], start, before, before)
  {
    assert ParsedAll([]) == [];
  }

  // ---------------------------------------------------------------- the node

  class MP2Node {
    const addr: Address
    const hash: string -> nat
    const addressHash: Address -> nat
    const transactions: TransactionCounter
    const ht: HashTable
    var ring: seq<RingNode>
    var resultTable: map<int, seq<bool>>
    var operationTable: map<int, string>
    var readValueTable: map<int, seq<string>>
    var mp2q: seq<string>
    var outbox: seq<Letter>             // every ENsend of this node, in order
    var log: seq<LogEntry>

    constructor (addr: Address, hash: string -> nat, addressHash: Address -> nat, counter: TransactionCounter)
      ensures this.addr == addr && this.hash == hash && this.addressHash == addressHash && transactions == counter && fresh(ht) && ht.hashTable == map[]
      ensures ring == [] && resultTable == map[] && operationTable == map[] && readValueTable == map[]
      ensures mp2q == [] && outbox == [] && log == []
    {
      this.addr, this.hash, this.addressHash, transactions := addr, hash, addressHash, counter;
      ht := new HashTable();
      ring, resultTable, operationTable, readValueTable, mp2q, outbox, log := [], map[], map[], map[], [], [], [];
    }

    // -------------------------------------------------------------- client side

    /** Sends the text to the three holders of the key. */
    method SendToReplicas(key: string, text: string)
      requires Ring(ring) && |ring| >= 3
      modifies this`outbox
      ensures var r := Replicas(ring, hash(key));
        outbox == old(outbox) + [Letter(r[0].nodeAddress, text), Letter(r[1].nodeAddress, text), Letter(r[2].nodeAddress, text)]
    {
      var replicas := FindNodes(ring, hash(key));
      var i := 0;
      while i < 3
        invariant 0 <= i <= 3
        invariant outbox == old(outbox) + [Letter(replicas[0].nodeAddress, text), Letter(replicas[1].nodeAddress, text),
                                           Letter(replicas[2].nodeAddress, text)][..i]
      {
        outbox := outbox + [Letter(replicas[i].nodeAddress, text)];
        i := i + 1;
      }
    }

    /** A client operation: a new number, a note of the operation, and the same text to each holder. */
    ghost predicate Issued(m: Message, before: seq<Letter>, operations: map<int, string>)
      requires |ring| >= 3
      reads this
    {
      var r := Replicas(ring, hash(m.key));
      && operationTable == operations[m.transID := Text(m)]
      && outbox == before + [Letter(r[0].nodeAddress, Text(m)), Letter(r[1].nodeAddress, Text(m)), Letter(r[2].nodeAddress, Text(m))]
    }

    method ClientCreate(key: string, value: string)
      requires Ring(ring) && |ring| >= 3
      modifies this`outbox, this`operationTable, transactions
      ensures transactions.value == old(transactions.value) + 1
      ensures exists role :: Issued(Message(transactions.value, addr, CREATE, key, value, role, false), old(outbox), old(operationTable))
    {
      var role: int := *;                  // never set before the message is printed
      transactions.value := transactions.value + 1;
      var m := Message(transactions.value, addr, CREATE, key, value, role, false);
      var text := Text(m);
      operationTable := operationTable[transactions.value := text];
      SendToReplicas(key, text);
      assert Issued(m, old(outbox), old(operationTable));
    }

    method ClientUpdate(key: string, value: string)
      requires Ring(ring) && |ring| >= 3
      modifies this`outbox, this`operationTable, transactions
      ensures transactions.value == old(transactions.value) + 1
      ensures exists role :: Issued(Message(transactions.value, addr, UPDATE, key, value, role, false), old(outbox), old(operationTable))
    {
      var role: int := *;
      transactions.value := transactions.value + 1;
      var m := Message(transactions.value, addr, UPDATE, key, value, role, false);
      var text := Text(m);
      operationTable := operationTable[transactions.value := text];
      SendToReplicas(key, text);
      assert Issued(m, old(outbox), old(operationTable));
    }

    method ClientRead(key: string)
      requires Ring(ring) && |ring| >= 3
      modifies this`outbox, this`operationTable, transactions
      ensures transactions.value == old(transactions.value) + 1
      ensures Issued(Message(transactions.value, addr, READ, key, "", 0, false), old(outbox), old(operationTable))
    {
      transactions.value := transactions.value + 1;
      var text := Text(Message(transactions.value, addr, READ, key, "", 0, false));
      operationTable := operationTable[transactions.value := text];
      SendToReplicas(key, text);
    }

    method ClientDelete(key: string)
      requires Ring(ring) && |ring| >= 3
      modifies this`outbox, this`operationTable, transactions
      ensures transactions.value == old(transactions.value) + 1
      ensures Issued(Message(transactions.value, addr, DELETE, key, "", 0, false), old(outbox), old(operationTable))
    {
      transactions.value := transactions.value + 1;
      var text := Text(Message(transactions.value, addr, DELETE, key, "", 0, false));
      operationTable := operationTable[transactions.value := text];
      SendToReplicas(key, text);
    }

    // -------------------------------------------------------------- server side

    method CreateKeyValue(key: string, value: string, replica: int, time: int) returns (ok: bool)
      modifies ht
      ensures ok && ht.hashTable == Created(old(ht.hashTable), key, Wrap(value, time, replica))
    {
      ok := ht.Create(key, Wrap(value, time, replica));
    }

    method UpdateKeyValue(key: string, value: string, replica: int, time: int) returns (ok: bool)
      modifies ht
      ensures ht.hashTable == Updated(old(ht.hashTable), key, Wrap(value, time, replica))
      ensures ok == (ReadOf(old(ht.hashTable), key) != "")
    {
      ok := ht.Update(key, Wrap(value, time, replica));
    }

    /** What the node knows, for the messages of one tick. */
    function Server(role: int): Server
      reads this`resultTable, this`readValueTable, ht
    {
      Servers.Server(ht.hashTable, resultTable, readValueTable, role)
    }

    /** One message, when it can be read; the role is that of the last CREATE before it. */
    method HandleMessage(m: Message, role: int, time: int) returns (role': int)
      modifies this`resultTable, this`readValueTable, this`outbox, ht
      ensures var h := Handle(old(Server(role)), addr, time, m);
        Server(role') == h.server && outbox == old(outbox) + LettersOf(h.sends)
    {
      role' := role;
      var ok;
      if m.kind == CREATE {
        ok := CreateKeyValue(m.key, m.value, role, time);
        role' := m.replica;
        Answer(Reply(m, addr, ok));
      } else if m.kind == DELETE {
        ok := ht.DeleteKey(m.key);
        Answer(Reply(m, addr, ok));
      } else if m.kind == READ {
        var value := ht.Read(m.key);
        Answer(ReadReply(m, addr, value));
      } else if m.kind == UPDATE {
        ok := UpdateKeyValue(m.key, m.value, role, time);
        Answer(Reply(m, addr, ok));
      } else if m.kind == REPLY {
        resultTable := Gather(resultTable, m.transID, m.success);
        assert outbox == outbox + LettersOf([]);
      } else {
        readValueTable := Gather(readValueTable, m.transID, m.value);
        assert outbox == outbox + LettersOf([]);
      }
    }

    method Answer(w: Wire)
      modifies this`outbox
      ensures outbox == old(outbox) + LettersOf([w])
    {
      outbox := outbox + [Letter(w.to, Text(w.msg))];
      assert LettersOf([w]) == [Letter(w.to, Text(w.msg))];
    }

    /** The messages `done` have been handled. */
    ghost predicate HandledSoFar(start: Server, time: int, done: seq<string>, role: int, before: seq<Letter>)
      reads this`outbox, this`resultTable, this`readValueTable, ht
    {
      Outcome(start, addr, time, done, Server(role), before, outbox)
    }

    method HandleNext(text: string, m: Message, role: int, time: int, ghost start: Server, ghost done: seq<string>, ghost before: seq<Letter>)
      returns (role': int)
      requires HandledSoFar(start, time, done, role, before) && Parse(text) == Ok(m)
      modifies this`resultTable, this`readValueTable, this`outbox, ht
      ensures HandledSoFar(start, time, done + [text], role', before)
    {
      ghost var s, sent := Server(role), outbox;
      role' := HandleMessage(m, role, time);
      OutcomeNext(start, addr, time, done, s, before, sent, text, m);
    }

    method PopMessage(ghost queue: seq<string>, ghost done: seq<string>) returns (text: string)
      requires mp2q != [] && queue == done + mp2q
      modifies this`mp2q
      ensures |mp2q| < old(|mp2q|) && queue == (done + [text]) + mp2q && |done| < |queue| && queue[|done|] == text
    {
      text := mp2q[0];
      mp2q := mp2q[1..];
      NextInQueue(queue, done, text, mp2q);
    }

    /** Empties the queue, from the front; a text that cannot be read ends the program. */
    method DrainQueue(time: int) returns (ok: bool, ghost role: int, ghost role': int)
      modifies this`resultTable, this`readValueTable, this`outbox, this`mp2q, ht
      ensures ok == AllParse(old(mp2q))
      ensures ok ==> mp2q == [] && HandledSoFar(old(Server(role)), time, old(mp2q), role', old(outbox))
    {
      var current: int := *;               // not set before the first CREATE
      role, role' := current, current;
      ghost var queue, start := mp2q, Server(current);
      ghost var done: seq<string> := [];
      OutcomeOfNone(start, addr, time, outbox);
      while mp2q != []
        invariant queue == done + mp2q && HandledSoFar(start, time, done, current, old(outbox))
        decreases |mp2q|
      {
        var text := PopMessage(queue, done);
        var m := FromText(text);
        if m.Err? {
          NotAllParse(queue, |done|);
          return false, role, current;
        }
        current := HandleNext(text, m.value, current, time, start, done, old(outbox));
        done := done + [text];
      }
      assert done == queue;
      ok, role' := true, current;
    }

    // -------------------------------------------------------------- verdicts

    /** Every transaction with replies is looked at once, and the replies are then dropped. */
    method CheckUpdateOperations() returns (ok: bool, ghost order: seq<int>)
      modifies this`log, this`resultTable
      ensures ok ==> Enumerates(order, old(resultTable).Keys) && resultTable == map[]
      ensures var logged := WriteLog(order, old(resultTable), operationTable);
        ok == logged.ok && log == old(log) + logged.log
    {
      order := [];
      var todo := resultTable.Keys;
      while todo != {}
        invariant resultTable == old(resultTable) && Remaining(todo, order, resultTable.Keys)
        invariant var logged := WriteLog(order, resultTable, operationTable);
          logged.ok && log == old(log) + logged.log
        decreases |todo|
      {
        var id;
        id, todo := TakeOne(todo, order, resultTable.Keys);
        ok := LogWrite(id, order, old(log));
        order := order + [id];
        if !ok {
          return;
        }
      }
      AllTaken(order, resultTable.Keys);
      ok := true;
      resultTable := map[];
    }

    method LogWrite(id: int, ghost order: seq<int>, ghost before: seq<LogEntry>) returns (ok: bool)
      requires id in resultTable
      requires var logged := WriteLog(order, resultTable, operationTable);
        logged.ok && log == before + logged.log
      modifies this`log
      ensures var logged := WriteLog(order + [id], resultTable, operationTable);
        ok == logged.ok && log == before + logged.log
    {
      WriteLogOne(order, id, resultTable, operationTable);
      if id in operationTable {
        var m := FromText(operationTable[id]);
        if m.Err? {
          return false;
        }
        var counter := Tallied(resultTable[id]);
        if m.value.kind == CREATE || m.value.kind == UPDATE || m.value.kind == DELETE {
          var value := if m.value.kind == DELETE then "" else m.value.value;
          log := log + [WriteVerdict(id, m.value.fromAddr, m.value.kind, m.value.key, value, counter > 1)];
        }
      }
      ok := true;
    }

    method Tallied(answers: seq<bool>) returns (counter: nat)
      ensures counter == CountTrue(answers)
    {
      counter := 0;
      for i := 0 to |answers|
        invariant counter == CountTrue(answers[..i])
      {
        CountTrueNext(answers, i);
        if answers[i] {
          counter := counter + 1;
        }
      }
      assert answers[..|answers|] == answers;
    }

    method CheckReadOperations() returns (ok: bool, ghost order: seq<int>)
      modifies this`log, this`readValueTable
      ensures ok ==> Enumerates(order, old(readValueTable).Keys) && readValueTable == map[]
      ensures var logged := ReadLog(order, old(readValueTable), operationTable);
        ok == logged.ok && log == old(log) + logged.log
    {
      order := [];
      var todo := readValueTable.Keys;
      while todo != {}
        invariant readValueTable == old(readValueTable) && Remaining(todo, order, readValueTable.Keys)
        invariant var logged := ReadLog(order, readValueTable, operationTable);
          logged.ok && log == old(log) + logged.log
        decreases |todo|
      {
        var id;
        id, todo := TakeOne(todo, order, readValueTable.Keys);
        ok := LogRead(id, order, old(log));
        order := order + [id];
        if !ok {
          return;
        }
      }
      AllTaken(order, readValueTable.Keys);
      ok := true;
      readValueTable := map[];
    }

    method LogRead(id: int, ghost order: seq<int>, ghost before: seq<LogEntry>) returns (ok: bool)
      requires id in readValueTable
      requires var logged := ReadLog(order, readValueTable, operationTable);
        logged.ok && log == before + logged.log
      modifies this`log
      ensures var logged := ReadLog(order + [id], readValueTable, operationTable);
        ok == logged.ok && log == before + logged.log
    {
      ReadLogOne(order, id, readValueTable, operationTable);
      if id in operationTable {
        var m := FromText(operationTable[id]);
        if m.Err? {
          return false;
        }
        var t := TallyValues(readValueTable[id]);
        if t.Err? {
          return false;
        }
        if m.value.kind == READ {
          var success := t.value.counter > 1 && t.value.value != "" && !t.value.several;
          var found := if success then Some(t.value.value) else None;
          log := log + [ReadOutcome(id, m.value.fromAddr, m.value.key, found)];
        }
      }
      ok := true;
    }

    method TallyOne(value: string, counter: nat, several: bool, read: string) returns (value': string, counter': nat, several': bool)
      ensures Tally(value', counter', several') == CountOne(Tally(value, counter, several), read)
    {
      value', counter', several' := value, counter + 1, several;
      if !several && value == "" {
        value' := read;
      } else if value != "" && value != read {
        several' := true;
      }
    }

    /** Counts the entries read, and notes whether they hold different values. */
    method TallyValues(values: seq<string>) returns (t: Result<Tally>)
      ensures t == Count(values)
    {
      var value, counter, several := "", 0, false;
      for i := 0 to |values|
        invariant Count(values[..i]) == Ok(Tally(value, counter, several))
      {
        CountNext(values, i);
        if values[i] != "" {
          var e := EntryFromText(values[i]);
          if e.Err? {
            CountStops(values, i);
            return Err(e.error);
          }
          value, counter, several := TallyOne(value, counter, several, e.value.value);
        }
      }
      assert values[..|values|] == values;
      t := Ok(Tally(value, counter, several));
    }

    /** A tick's messages, and then the verdicts; any text that cannot be read ends the program. */
    method CheckMessages(time: int) returns (ok: bool, ghost start: Server, ghost done: Server, ghost writes: seq<int>, ghost lookups: seq<int>)
      modifies this`resultTable, this`readValueTable, this`outbox, this`mp2q, this`log, ht
      ensures start == old(Server(start.role))
      ensures ok ==>
        && AllParse(old(mp2q)) && Outcome(start, addr, time, old(mp2q), done, old(outbox), outbox)
        && mp2q == [] && resultTable == map[] && readValueTable == map[] && ht.hashTable == done.table
        && Enumerates(writes, done.results.Keys) && Enumerates(lookups, done.readValues.Keys)
        && log == old(log) + WriteLog(writes, done.results, operationTable).log + ReadLog(lookups, done.readValues, operationTable).log
    {
      ghost var role, role';
      writes, lookups := [], [];
      ghost var s := Server(0);
      ok, role, role' := DrainQueue(time);
      start, done := s.(role := role), Server(role');
      if !ok {
        return;
      }
      ok, writes := CheckUpdateOperations();
      if !ok {
        return;
      }
      ok, lookups := CheckReadOperations();
    }

    // -------------------------------------------------------------- stabilization

    method SendMessage(transID: int, to: Address, key: string, value: string, kind: int, role: int)
      requires kind == CREATE || kind == UPDATE || kind == DELETE
      modifies this`outbox
      ensures kind != DELETE ==> outbox == old(outbox) + [Letter(to, Text(Message(transID, addr, kind, key, value, role, false)))]
      ensures kind == DELETE ==> outbox == old(outbox) + [Letter(to, Text(Message(transID, addr, DELETE, key, "", 0, false)))]
    {
      if kind == CREATE || kind == UPDATE {
        outbox := outbox + [Letter(to, Text(Message(transID, addr, kind, key, value, role, false)))];
      } else if kind == DELETE {
        outbox := outbox + [Letter(to, Text(Message(transID, addr, DELETE, key, "", 0, false)))];
      }
    }

    /** These copies have been sent since the counter was `id`. */
    ghost predicate Sent(id: int, before: seq<Letter>, key: string, value: string, copies: seq<Copy>)
      reads this`outbox, transactions
    {
      transactions.value == id + |copies| && outbox == before + CopiesOf(addr, id, key, value, copies)
    }

    method SendCopy(c: Copy, key: string, value: string, ghost id: int, ghost before: seq<Letter>, ghost copies: seq<Copy>)
      requires (c.kind == CREATE || c.kind == UPDATE) && Sent(id, before, key, value, copies)
      modifies this`outbox, transactions
      ensures Sent(id, before, key, value, copies + [c])
    {
      hide Text, CopiesOf;
      transactions.value := transactions.value + 1;
      SendMessage(transactions.value, c.to, key, value, c.kind, c.role);
      CopiesNext(addr, id, key, value, copies, c);
      OneMore(before, CopiesOf(addr, id, key, value, copies),
              Letter(c.to, Text(Message(id + 1 + |copies|, addr, c.kind, key, value, c.role, false))));
    }

    /** The last place of this node among the holders, or -1. */
    method PlaceAmong(replicas: seq<RingNode>) returns (pos: int)
      requires |replicas| == 3
      ensures pos == RoleOf(addr, TrioOf(replicas))
    {
      pos := -1;
      var i := 0;
      while i < 3
        invariant 0 <= i <= 3 && -1 <= pos < i
        invariant pos >= 0 ==> replicas[pos].nodeAddress == addr
        invariant forall j :: pos < j < i ==> replicas[j].nodeAddress != addr
      {
        if replicas[i].nodeAddress == addr {
          pos := i;
        }
        i := i + 1;
      }
    }

    /** A holder that moves into this role is updated, a new one gets the entry. */
    method SendRefill(was: Address, other: Address, now: Address, role: int, key: string, value: string,
                      ghost id: int, ghost before: seq<Letter>, ghost copies: seq<Copy>)
      requires Sent(id, before, key, value, copies)
      modifies this`outbox, transactions
      ensures Sent(id, before, key, value, copies + Refill(was, other, now, role))
    {
      if now == other {
        SendCopy(Copy(UPDATE, other, role), key, value, id, before, copies);
      } else if !(was == now) {
        SendCopy(Copy(CREATE, now, role), key, value, id, before, copies);
      } else {
        assert copies + [] == copies;
      }
    }

    method SendMoved(was: Address, now: Address, to: Address, role: int, key: string, value: string,
                     ghost id: int, ghost before: seq<Letter>, ghost copies: seq<Copy>)
      requires Sent(id, before, key, value, copies)
      modifies this`outbox, transactions
      ensures Sent(id, before, key, value, copies + Moved(was, now, to, role))
    {
      if !(was == now) {
        SendCopy(Copy(CREATE, to, role), key, value, id, before, copies);
      } else {
        assert copies + [] == copies;
      }
    }

    /** The key belongs to others now. */
    method GiveAway(key: string, value: string, n: Trio, ghost time: int)
      requires value == ReadOf(ht.hashTable, key)
      modifies this`outbox, transactions, ht
      ensures StableNow() == Apply(old(StableNow()), addr, key, time,
                                   Drop([Copy(CREATE, n.first, PRIMARY), Copy(CREATE, n.second, SECONDARY), Copy(CREATE, n.third, TERTIARY)]))
    {
      ghost var id, before := transactions.value, outbox;
      SendCopy(Copy(CREATE, n.first, PRIMARY), key, value, id, before, []);
      SendCopy(Copy(CREATE, n.second, SECONDARY), key, value, id, before, [Copy(CREATE, n.first, PRIMARY)]);
      SendCopy(Copy(CREATE, n.third, TERTIARY), key, value, id, before,
               [Copy(CREATE, n.first, PRIMARY), Copy(CREATE, n.second, SECONDARY)]);
      var ok := ht.DeleteKey(key);
    }

    /** Rewrites the own copy with its role, under a number of its own. */
    method RewriteOwn(key: string, value: string, role: int, time: int)
      modifies transactions, ht
      ensures ht.hashTable == Updated(old(ht.hashTable), key, Wrap(value, time, role))
      ensures transactions.value == old(transactions.value) + 1
    {
      transactions.value := transactions.value + 1;
      var ok := UpdateKeyValue(key, value, role, time);
    }

    method AsPrimary(key: string, value: string, o: Trio, n: Trio, time: int)
      requires value == ReadOf(ht.hashTable, key)
      modifies this`outbox, transactions, ht
      ensures StableNow() == Apply(old(StableNow()), addr, key, time,
                                   Keep(PRIMARY, Refill(o.second, o.third, n.second, SECONDARY) + Refill(o.third, o.second, n.third, TERTIARY)))
    {
      ghost var id, before := transactions.value + 1, outbox;
      RewriteOwn(key, value, PRIMARY, time);
      SendRefill(o.second, o.third, n.second, SECONDARY, key, value, id, before, []);
      assert [] + Refill(o.second, o.third, n.second, SECONDARY) == Refill(o.second, o.third, n.second, SECONDARY);
      SendRefill(o.third, o.second, n.third, TERTIARY, key, value, id, before, Refill(o.second, o.third, n.second, SECONDARY));
    }

    method AsSecondary(key: string, value: string, o: Trio, n: Trio, b: Neighbours, time: int)
      requires value == ReadOf(ht.hashTable, key)
      modifies this`outbox, transactions, ht
      ensures StableNow() == Apply(old(StableNow()), addr, key, time,
                                   Keep(SECONDARY, Moved(o.second, n.second, n.second, TERTIARY) + Moved(b.old1, b.new1, b.new1, PRIMARY)))
    {
      ghost var id, before := transactions.value + 1, outbox;
      RewriteOwn(key, value, SECONDARY, time);
      SendMoved(o.second, n.second, n.second, TERTIARY, key, value, id, before, []);
      assert [] + Moved(o.second, n.second, n.second, TERTIARY) == Moved(o.second, n.second, n.second, TERTIARY);
      SendMoved(b.old1, b.new1, b.new1, PRIMARY, key, value, id, before, Moved(o.second, n.second, n.second, TERTIARY));
    }

    method AsTertiary(key: string, value: string, b: Neighbours, time: int)
      requires value == ReadOf(ht.hashTable, key)
      modifies this`outbox, transactions, ht
      ensures StableNow() == Apply(old(StableNow()), addr, key, time,
                                   Keep(TERTIARY, Moved(b.old2, b.new2, b.new2, PRIMARY) + Moved(b.old1, b.new1, b.new1, SECONDARY)))
    {
      ghost var id, before := transactions.value + 1, outbox;
      RewriteOwn(key, value, TERTIARY, time);
      SendMoved(b.old2, b.new2, b.new2, PRIMARY, key, value, id, before, []);
      assert [] + Moved(b.old2, b.new2, b.new2, PRIMARY) == Moved(b.old2, b.new2, b.new2, PRIMARY);
      SendMoved(b.old1, b.new1, b.new1, SECONDARY, key, value, id, before, Moved(b.old2, b.new2, b.new2, PRIMARY));
    }

    method FindNeighbours(newRing: seq<RingNode>) returns (b: Neighbours)
      requires Ring(ring) && Ring(newRing) && |ring| >= 3 && |newRing| >= 3
      ensures b == NeighboursOf(addr, ring, newRing)
    {
      hide Ring, Position;
      var newPos := FindPosition(addr, newRing);
      var oldPos := FindPosition(addr, ring);
      b := Neighbours(ring[(oldPos + |ring| - 1) % |ring|].nodeAddress, ring[(oldPos + |ring| - 2) % |ring|].nodeAddress,
                      newRing[(newPos + |newRing| - 1) % |newRing|].nodeAddress,
                      newRing[(newPos + |newRing| - 2) % |newRing|].nodeAddress);
    }

    ghost function StableNow(): Stable
      reads this`outbox, ht, transactions
    {
      Stable(ht.hashTable, transactions.value, outbox)
    }

    /** One key of the table. */
    method StabilizeOne(key: string, newRing: seq<RingNode>, time: int)
      requires Ring(ring) && Ring(newRing) && |ring| >= 3 && |newRing| >= 3
      modifies this`outbox, transactions, ht
      ensures StableNow() == StabilizeKey(old(StableNow()), addr, ring, newRing, hash(key), key, time)
    {
      var value := ht.Read(key);
      var new3 := FindNodes(newRing, hash(key));
      var old3 := FindNodes(ring, hash(key));
      var o, n := TrioOf(old3), TrioOf(new3);
      var pos := PlaceAmong(new3);
      if pos == -1 {
        GiveAway(key, value, n, time);
      } else if pos == 0 {
        AsPrimary(key, value, o, n, time);
      } else {
        var b := FindNeighbours(newRing);
        if pos == 1 {
          AsSecondary(key, value, o, n, b, time);
        } else {
          AsTertiary(key, value, b, time);
        }
      }
    }

    /** All keys that the table holds at the start, in some order. */
    method StabilizationProtocol(newRing: seq<RingNode>, time: int) returns (ghost order: seq<string>)
      requires Ring(ring) && Ring(newRing) && |ring| >= 3 && |newRing| >= 3
      modifies this`outbox, transactions, ht
      ensures Enumerates(order, old(ht.hashTable.Keys))
      ensures StableNow() == StabilizeAll(old(StableNow()), addr, ring, newRing, hash, order, time)
    {
      order := [];
      ghost var keys := ht.hashTable.Keys;
      ghost var start := StableNow();
      var todo := ht.hashTable.Keys;
      while todo != {}
        invariant Remaining(todo, order, keys)
        invariant StableNow() == StabilizeAll(start, addr, ring, newRing, hash, order, time)
        decreases |todo|
      {
        var key;
        key, todo := TakeOne(todo, order, keys);
        StabilizeOne(key, newRing, time);
        StabilizeAllOne(start, addr, ring, newRing, hash, order, key, time);
        order := order + [key];
      }
      AllTaken(order, keys);
    }

    /** The members with their hash codes. */
    method GetMembershipList(memberList: seq<Address>) returns (curMemList: seq<RingNode>)
      ensures curMemList == NodesOf(memberList, addressHash)
    {
      curMemList := [];
      var i := 0;
      while i < |memberList|
        invariant 0 <= i <= |memberList| && curMemList == NodesOf(memberList[..i], addressHash)
      {
        curMemList := curMemList + [RingNode(memberList[i], addressHash(memberList[i]))];
        assert memberList[..i + 1] == memberList[..i] + [memberList[i]];
        i := i + 1;
      }
      assert memberList[..i] == memberList;
    }

    /** Is stabilization run, for this new ring? */
    ghost predicate Runs(cur: seq<RingNode>)
      reads this`ring, ht
    {
      ring != [] && ht.hashTable != map[] && (|ring| != |cur| || ShareHash(ring, cur))
    }

    /**
     Takes over the first ring, and later ones only after stabilization, which waits until the table holds
     something: with an empty table the ring stays what it was.
     */
    method Refresh(cur: seq<RingNode>, time: int) returns (ghost order: seq<string>)
      requires Ring(ring) && Ring(cur) && (Runs(cur) ==> |ring| >= 3 && |cur| >= 3)
      modifies this`ring, this`outbox, transactions, ht
      ensures ring == if old(ring) == [] || old(Runs(cur)) then cur else old(ring)
      ensures old(Runs(cur)) ==>
        && Enumerates(order, old(ht.hashTable.Keys))
        && StableNow() == StabilizeAll(old(StableNow()), addr, old(ring), cur, hash, order, time)
      ensures !old(Runs(cur)) ==> StableNow() == old(StableNow())
    {
      order := [];
      var isRingChanges := false;
      if |ring| == 0 {
        ring := cur;
      } else {
        isRingChanges := RingChanged(ring, cur);
      }
      if ht.CurrentSize() > 0 && isRingChanges {
        order := StabilizationProtocol(cur, time);
        ring := cur;
      }
    }

    /** The ring of the current members. */
    method CurrentRing(memberList: seq<Address>) returns (cur: seq<RingNode>)
      requires AllDistinct(NodesOf(memberList, addressHash))
      ensures cur == Sort(NodesOf(memberList, addressHash)) && Ring(cur) && |cur| == |memberList|
    {
      var curMemList := GetMembershipList(memberList);
      SortIsRing(curMemList);
      SortSize(curMemList);
      cur := Sort(curMemList);
    }

    method UpdateRing(memberList: seq<Address>, time: int) returns (ghost cur: seq<RingNode>, ghost order: seq<string>)
      requires Ring(ring) && AllDistinct(NodesOf(memberList, addressHash))
      requires Runs(Sort(NodesOf(memberList, addressHash))) ==> |ring| >= 3 && |memberList| >= 3
      modifies this`ring, this`outbox, transactions, ht
      ensures cur == Sort(NodesOf(memberList, addressHash)) && Ring(cur) && |cur| == |memberList|
      ensures ring == if old(ring) == [] || old(Runs(cur)) then cur else old(ring)
      ensures old(Runs(cur)) ==> Enumerates(order, old(ht.hashTable.Keys))
      ensures old(Runs(cur)) ==> StableNow() == StabilizeAll(old(StableNow()), addr, old(ring), cur, hash, order, time)
      ensures !old(Runs(cur)) ==> StableNow() == old(StableNow())
    {
      hide Sort, StabilizeAll, NodesOf, Enumerates;
      var curMemList := CurrentRing(memberList);
      cur := curMemList;
      order := Refresh(curMemList, time);
      SortAgain();
    }

    /** Sorting a ring once more changes nothing. */
    method SortAgain()
      requires Ring(ring)
      modifies this`ring
      ensures ring == old(ring)
    {
      SortOfRing(ring);
      ring := Sort(ring);
    }
  }

  function NodesOf(memberList: seq<Address>, addressHash: Address -> nat): (nodes: seq<RingNode>)
    ensures |nodes| == |memberList|
  {
    seq(|memberList|, i requires 0 <= i < |memberList| => RingNode(memberList[i], addressHash(memberList[i])))
  }

  lemma SortSize(nodes: seq<RingNode>)
    ensures |Sort(nodes)| == |nodes|
  {
    assert |multiset(Sort(nodes))| == |Sort(nodes)| && |multiset(nodes)| == |nodes|;
  }

  /** The ring that is made of a member list holds each member once, with its own hash code, and nobody else. */
  lemma RingOfMembers(memberList: seq<Address>, addressHash: Address -> nat, x: RingNode)
    ensures x in Sort(NodesOf(memberList, addressHash)) <==> x.nodeAddress in memberList && x.nodeHashCode == addressHash(x.nodeAddress)
  {
    hide Sort;
    var nodes := NodesOf(memberList, addressHash);
    SortMembers(nodes);
    if x in nodes {
      var i :| 0 <= i < |nodes| && nodes[i] == x;
      assert memberList[i] in memberList;
    }
    if x.nodeAddress in memberList && x.nodeHashCode == addressHash(x.nodeAddress) {
      var i :| 0 <= i < |memberList| && memberList[i] == x.nodeAddress;
      assert nodes[i] == x;
    }
  }

  // ---------------------------------------------------------------- what stabilization amounts to

  /** The letter that creates an entry there. */
  function Creation(id: int, me: Address, to: Address, key: string, text: string, role: int): Letter
  {
    Letter(to, Text(Message(id, me, CREATE, key, text, role, false)))
  }

  /** A node that is no holder any more sends what it has stored to the three that are, and then has it no more. */
  lemma GivingUp(s: Stable, me: Address, ring: seq<RingNode>, newRing: seq<RingNode>, pos: nat, key: string, time: int)
    requires |ring| >= 3 && |newRing| >= 3 && key in s.table && s.table[key] != "" && !Among(me, TrioOf(Replicas(newRing, pos)))
    ensures var t, n := StabilizeKey(s, me, ring, newRing, pos, key, time), TrioOf(Replicas(newRing, pos));
      && t.letters == s.letters + [Creation(s.id + 1, me, n.first, key, s.table[key], PRIMARY),
                                   Creation(s.id + 2, me, n.second, key, s.table[key], SECONDARY),
                                   Creation(s.id + 3, me, n.third, key, s.table[key], TERTIARY)]
      && t.table == s.table - {key}
  {
    hide Text, Replicas, Predecessor;
  }

  /** One that is keeps it, with its role written behind; the number after the counter is its own, those after that its letters'. */
  lemma Keeping(s: Stable, me: Address, ring: seq<RingNode>, newRing: seq<RingNode>, pos: nat, key: string, time: int)
    requires |ring| >= 3 && |newRing| >= 3 && key in s.table && s.table[key] != "" && Among(me, TrioOf(Replicas(newRing, pos)))
    ensures StabilizeKey(s, me, ring, newRing, pos, key, time).table
         == s.table[key := Wrap(s.table[key], time, RoleOf(me, TrioOf(Replicas(newRing, pos))))]
    ensures var t, sends := StabilizeKey(s, me, ring, newRing, pos, key, time), PlanFor(me, ring, newRing, pos).sends;
      && t.id == s.id + 1 + |sends| && |t.letters| == |s.letters| + |sends|
      && forall k :: 0 <= k < |sends| ==>
        t.letters[|s.letters| + k] == Letter(sends[k].to, Text(Message(s.id + 2 + k, me, sends[k].kind, key, s.table[key], sends[k].role, false)))
  {
    hide Text, Replicas, Predecessor;
  }

  ghost predicate ToHoldersOf(letters: seq<Letter>, from: nat, keys: seq<string>, newRing: seq<RingNode>, hash: string -> nat)
    requires |newRing| >= 3
  {
    forall k :: from <= k < |letters| ==> ToHolderOf(letters[k], keys, newRing, hash)
  }

  ghost predicate ToHolderOf(letter: Letter, keys: seq<string>, newRing: seq<RingNode>, hash: string -> nat)
    requires |newRing| >= 3
  {
    exists key :: key in keys && Among(letter.to, TrioOf(Replicas(newRing, hash(key))))
  }

  lemma OneKeyToHolders(s: Stable, me: Address, ring: seq<RingNode>, newRing: seq<RingNode>, pos: nat, key: string, time: int)
    requires Ring(newRing) && |ring| >= 3 && |newRing| >= 3
    ensures var letters := StabilizeKey(s, me, ring, newRing, pos, key, time).letters;
      && |s.letters| <= |letters| && s.letters == letters[..|s.letters|]
      && forall k :: |s.letters| <= k < |letters| ==> Among(letters[k].to, TrioOf(Replicas(newRing, pos)))
  {
    SendsToHolders(me, ring, newRing, pos);
    var sends := PlanFor(me, ring, newRing, pos).sends;
    assert forall j :: 0 <= j < |sends| ==> sends[j] in sends;
  }

  /** Every message of a whole run of stabilization goes to a holder of one of the keys, in the new ring. */
  lemma {:induction false} LettersToHolders(s: Stable, me: Address, ring: seq<RingNode>, newRing: seq<RingNode>, hash: string -> nat,
                                            order: seq<string>, time: int)
    requires Ring(newRing) && |ring| >= 3 && |newRing| >= 3
    ensures var letters := StabilizeAll(s, me, ring, newRing, hash, order, time).letters;
      |s.letters| <= |letters| && ToHoldersOf(letters, |s.letters|, order, newRing, hash)
  {
    if order != [] {
      var n := |order| - 1;
      var before := StabilizeAll(s, me, ring, newRing, hash, order[..n], time);
      LettersToHolders(s, me, ring, newRing, hash, order[..n], time);
      OneKeyToHolders(before, me, ring, newRing, hash(order[n]), order[n], time);
      LettersGrow(before.letters, StabilizeAll(s, me, ring, newRing, hash, order, time).letters, |s.letters|, order, newRing, hash);
    }
  }

  lemma LettersGrow(x: seq<Letter>, y: seq<Letter>, from: nat, order: seq<string>, newRing: seq<RingNode>, hash: string -> nat)
    requires order != [] && |newRing| >= 3 && from <= |x| <= |y| && x == y[..|x|]
    requires ToHoldersOf(x, from, order[..|order| - 1], newRing, hash)
    requires forall k :: |x| <= k < |y| ==> Among(y[k].to, TrioOf(Replicas(newRing, hash(order[|order| - 1]))))
    ensures ToHoldersOf(y, from, order, newRing, hash)
  {
    forall k | from <= k < |y| ensures ToHolderOf(y[k], order, newRing, hash) {
      if k < |x| {
        assert x[k] == y[k] && ToHolderOf(x[k], order[..|order| - 1], newRing, hash);
        var key :| key in order[..|order| - 1] && Among(x[k].to, TrioOf(Replicas(newRing, hash(key))));
        assert key in order;
      } else {
        var key := order[|order| - 1];
        assert key in order && Among(y[k].to, TrioOf(Replicas(newRing, hash(key))));
      }
    }
  }

  /** Stabilization does not make a table hold an empty text either. */
  lemma {:induction false} StabilizeNeverEmpty(s: Stable, me: Address, ring: seq<RingNode>, newRing: seq<RingNode>,
                                               hash: string -> nat, order: seq<string>, time: int)
    requires |ring| >= 3 && |newRing| >= 3 && NoneEmpty(s.table)
    ensures NoneEmpty(StabilizeAll(s, me, ring, newRing, hash, order, time).table)
  {
    if order != [] {
      var n := |order| - 1;
      StabilizeNeverEmpty(s, me, ring, newRing, hash, order[..n], time);
      var before := StabilizeAll(s, me, ring, newRing, hash, order[..n], time);
      ApplyNeverEmpty(before, me, order[n], time, PlanFor(me, ring, newRing, hash(order[n])));
    }
  }

  lemma ApplyNeverEmpty(s: Stable, me: Address, key: string, time: int, plan: Plan)
    requires NoneEmpty(s.table)
    ensures NoneEmpty(Apply(s, me, key, time, plan).table)
  {
    if plan.Keep? {
      WrapNotEmpty(ReadOf(s.table, key), time, plan.role);
      OperationsKeepNoneEmpty(s.table, key, Wrap(ReadOf(s.table, key), time, plan.role));
    }
  }

  /** The same keys, each with an entry that readers cannot tell from the one before. */
  ghost predicate SameForReaders(x: map<string, string>, y: map<string, string>)
  {
    && x.Keys == y.Keys
    && forall key :: key in x ==> ParseEntry(x[key]) == ParseEntry(y[key]) && y[key] != ""
  }

  ghost predicate Readable(table: map<string, string>)
  {
    forall key :: key in table ==> ParseEntry(table[key]).Ok? && table[key] != ""
  }

  lemma OneKeyHarmless(s: Stable, me: Address, ring: seq<RingNode>, pos: nat, key: string, time: int)
    requires Ring(ring) && |ring| >= 3 && Among(me, TrioOf(Replicas(ring, pos))) && Readable(s.table) && key in s.table
    ensures var t := StabilizeKey(s, me, ring, ring, pos, key, time);
      t.letters == s.letters && SameForReaders(s.table, t.table) && Readable(t.table)
  {
    hide EntryText, ParseEntry, Replicas, PlanFor, RoleOf, Ring;
    QuietWhenUnchanged(me, ring, pos);
    RewrapInvisible(s.table[key], time, RoleOf(me, TrioOf(Replicas(ring, pos))));
    WrapNotEmpty(s.table[key], time, RoleOf(me, TrioOf(Replicas(ring, pos))));
    assert CopiesOf(me, s.id + 1, key, s.table[key], []) == [];
  }

  /**
   With an unchanged ring, which stabilization is run for at every tick, a holder of all its keys sends
   nothing, and the rewriting of its entries is invisible to readers.
   */
  lemma {:induction false} HarmlessWhenUnchanged(s: Stable, me: Address, ring: seq<RingNode>, hash: string -> nat, order: seq<string>, time: int)
    requires Ring(ring) && |ring| >= 3 && Readable(s.table)
    requires forall k :: 0 <= k < |order| ==> order[k] in s.table && Among(me, TrioOf(Replicas(ring, hash(order[k]))))
    ensures var t := StabilizeAll(s, me, ring, ring, hash, order, time);
      t.letters == s.letters && SameForReaders(s.table, t.table) && Readable(t.table)
  {
    if order != [] {
      var n := |order| - 1;
      HarmlessWhenUnchanged(s, me, ring, hash, order[..n], time);
      var before := StabilizeAll(s, me, ring, ring, hash, order[..n], time);
      assert order[n] in before.table;
      OneKeyHarmless(before, me, ring, hash(order[n]), order[n], time);
    }
  }

  lemma StabilizeAllOne(s: Stable, me: Address, ring: seq<RingNode>, newRing: seq<RingNode>, hash: string -> nat,
                        order: seq<string>, key: string, time: int)
    requires |ring| >= 3 && |newRing| >= 3
    ensures StabilizeAll(s, me, ring, newRing, hash, order + [key], time) ==
            StabilizeKey(StabilizeAll(s, me, ring, newRing, hash, order, time), me, ring, newRing, hash(key), key, time)
  {
    assert (order + [key])[..|order + [key]| - 1] == order;
  }

  lemma OneMore(before: seq<Letter>, x: seq<Letter>, l: Letter)
    ensures (before + x) + [l] == before + (x + [l])
  {
  }

  lemma CopiesNext(me: Address, id: int, key: string, value: string, copies: seq<Copy>, c: Copy)
    ensures CopiesOf(me, id, key, value, copies + [c]) == CopiesOf(me, id, key, value, copies)
            + [Letter(c.to, Text(Message(id + 1 + |copies|, me, c.kind, key, value, c.role, false)))]
  {
  }

  lemma CountTrueNext(answers: seq<bool>, i: nat)
    requires i < |answers|
    ensures CountTrue(answers[..i + 1]) == CountTrue(answers[..i]) + if answers[i] then 1 else 0
  {
    assert answers[..i + 1][..i] == answers[..i];
  }

  lemma CountNext(values: seq<string>, i: nat)
    requires i < |values|
    ensures var t := Count(values[..i]);
      Count(values[..i + 1]) ==
      if t.Err? || values[i] == "" then t
      else if ParseEntry(values[i]).Err? then Err(ParseEntry(values[i]).error)
      else Ok(CountOne(t.value, ParseEntry(values[i]).value.value))
  {
    assert values[..i + 1][..i] == values[..i];
  }

  /** After an entry that cannot be parsed nothing is counted. */
  lemma {:induction false} CountStops(values: seq<string>, i: nat)
    requires i < |values| && Count(values[..i + 1]).Err?
    ensures Count(values) == Count(values[..i + 1])
    decreases |values| - i
  {
    if i + 1 == |values| {
      assert values[..i + 1] == values;
    } else {
      CountNext(values, i + 1);
      CountStops(values, i + 1);
    }
  }
}
