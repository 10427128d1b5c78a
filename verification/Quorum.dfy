/**
 Read-after-write by quorum (key-value-store/MP2Node.cpp): an update that two of the three holders have
 confirmed is what every successful read finds, whoever answers it.
 */
module QuorumReads {
  import opened Collections
  import opened Addresses
  import opened Decimal
  import opened Delimited
  import opened Entries
  import opened HashTables
  import opened Messages
  import opened Servers

  // ---------------------------------------------------------------- the history of a key at one holder

  /** What may happen to a table: a message, or a rewrite of the own copy. */
  datatype Event = Incoming(msg: Message, time: int, role: int) | Rewrite(key: string, time: int, role: int)

  function After(table: map<string, string>, e: Event, me: Address): map<string, string>
  {
    match e
    case Incoming(m, time, role) => Handle(Server(table, map[], map[], role), me, time, m).server.table
    case Rewrite(key, time, role) => Updated(table, key, Wrap(ReadOf(table, key), time, role))
  }

  function AfterAll(table: map<string, string>, history: seq<Event>, me: Address): map<string, string>
  {
    if history == [] then table
    else After(AfterAll(table, history[..|history| - 1], me), history[|history| - 1], me)
  }

  /** A text that tells the reader what `text` tells, however often it is wrapped. */
  predicate Same(x: string, text: string)
  {
    ParseEntry(x) == ParseEntry(text) && |Split(x, ":")| >= 3
  }

  lemma RewrapSame(x: string, text: string, time: int, role: int)
    requires Same(x, text)
    ensures Same(Wrap(x, time, role), text)
  {
    EntrySplits(StoredEntry(x, time, role));
    MoreFields(Split(x, ":"), [ToString(time), ToString(role)]);
  }

  lemma MoreFields(tuple: seq<string>, more: seq<string>)
    requires |tuple| >= 3
    ensures EntryOfTuple(tuple + more) == EntryOfTuple(tuple)
  {
  }

  /** What a holder may have for a value: the value wrapped once, and then any number of times. */
  ghost predicate Wrapped(text: string, value: string)
  {
    exists time, role, wraps :: IsInt(time) && IsInt(role) && text == Rewrapped(Wrap(value, time, role), wraps)
  }

  lemma FirstWrap(value: string, time: int, role: int)
    requires IsInt(time) && IsInt(role)
    ensures Wrapped(Wrap(value, time, role), value)
  {
    assert Wrap(value, time, role) == Rewrapped(Wrap(value, time, role), []);
  }

  lemma NextWrap(text: string, value: string, time: int, role: int)
    requires Wrapped(text, value)
    ensures Wrapped(Wrap(text, time, role), value)
  {
    var t, r, wraps :| IsInt(t) && IsInt(r) && text == Rewrapped(Wrap(value, t, r), wraps);
    assert (wraps + [(time, role)])[..|wraps|] == wraps;
    assert Wrap(text, time, role) == Rewrapped(Wrap(value, t, r), wraps + [(time, role)]);
  }

  lemma {:induction false} RewrappedSame(text: string, wraps: seq<(int, int)>)
    requires |Split(text, ":")| >= 3
    ensures Same(Rewrapped(text, wraps), text)
    ensures SafeField(text) ==> SafeField(Rewrapped(text, wraps))
  {
    if wraps != [] {
      var n := |wraps| - 1;
      RewrappedSame(text, wraps[..n]);
      RewrapSame(Rewrapped(text, wraps[..n]), text, wraps[n].0, wraps[n].1);
      if SafeField(text) {
        WrapSafe(Rewrapped(text, wraps[..n]), wraps[n].0, wraps[n].1);
      }
    }
  }

  /** It can be read exactly if the value is legible; and it travels whole if the value does. */
  lemma WrappedReads(text: string, value: string)
    requires Wrapped(text, value)
    ensures ParseEntry(text).Ok? <==> Legible(value)
    ensures ParseEntry(text).Ok? ==> ParseEntry(text).value.value == value[..Find(value, ":")]
    ensures SafeField(value) ==> SafeField(text)
  {
    var t, r, wraps :| IsInt(t) && IsInt(r) && text == Rewrapped(Wrap(value, t, r), wraps);
    EntrySplits(StoredEntry(value, t, r));
    RewrappedSame(Wrap(value, t, r), wraps);
    WrapReads(value, t, r);
    if SafeField(value) {
      WrapSafe(value, t, r);
    }
  }

  /** No delete of the key, and no update but with a copy of what some holder has. */
  ghost predicate Preserves(e: Event, key: string, value: string)
  {
    e.Rewrite? || e.msg.key != key || (e.msg.kind != DELETE && (e.msg.kind == UPDATE ==> Wrapped(e.msg.value, value)))
  }

  ghost predicate AllPreserve(history: seq<Event>, key: string, value: string)
  {
    forall k :: 0 <= k < |history| ==> Preserves(history[k], key, value)
  }

  /** The holder has the value. */
  ghost predicate Has(table: map<string, string>, key: string, value: string)
  {
    key in table && Wrapped(table[key], value) && table[key] != ""
  }

  lemma AfterKeeps(table: map<string, string>, e: Event, me: Address, key: string, value: string)
    requires Has(table, key, value) && Preserves(e, key, value)
    ensures Has(After(table, e, me), key, value)
  {
    match e
    case Incoming(m, time, role) =>
      if m.key == key && m.kind == UPDATE {
        NextWrap(m.value, value, time, role);
        WrapNotEmpty(m.value, time, role);
      }
    case Rewrite(k, time, role) =>
      if k == key {
        NextWrap(table[key], value, time, role);
        WrapNotEmpty(table[key], time, role);
      }
  }

  lemma {:induction false} AllKeep(table: map<string, string>, history: seq<Event>, me: Address, key: string, value: string)
    requires Has(table, key, value) && AllPreserve(history, key, value)
    ensures Has(AfterAll(table, history, me), key, value)
  {
    if history != [] {
      var n := |history| - 1;
      AllKeep(table, history[..n], me, key, value);
      AfterKeeps(AfterAll(table, history[..n], me), history[n], me, key, value);
    }
  }

  // ---------------------------------------------------------------- an update and a later read

  /** One of the three holders: whether it got the update, and its history from then to the read. */
  datatype Holder = Holder(addr: Address, before: map<string, string>, updated: bool, time: int, role: int, history: seq<Event>)

  /** The client's update, three holders, a read, and the holders whose answers to it arrive, in their order. */
  datatype Scenario = Scenario(update: Message, holders: seq<Holder>, read: Message, answering: seq<nat>)

  function Updating(h: Holder, m: Message): Handled
  {
    Handle(Server(h.before, map[], map[], h.role), h.addr, h.time, m)
  }

  /** The holder got the text of the update, could parse it, and answered that it succeeded. */
  predicate Confirmed(h: Holder, update: Message)
  {
    && h.updated && Parse(Text(update)).Ok?
    && var m := Parse(Text(update)).value;
      Updating(h, m).sends == [Reply(m, h.addr, true)]
  }

  /** What the holder has when the read arrives. */
  function Later(h: Holder, update: Message): map<string, string>
  {
    var m := Parse(Text(update));
    AfterAll(if h.updated && m.Ok? then Updating(h, m.value).server.table else h.before, h.history, h.addr)
  }

  /** What the coordinator parses from the text of a holder's answer. */
  function Received(reply: Message): string
  {
    var m := Parse(Text(reply));
    if m.Ok? then m.value.value else ""
  }

  ghost predicate Legal(sc: Scenario)
  {
    && sc.update.kind == UPDATE && Ranges(sc.update) && SafeField(sc.update.key)
    && sc.read.kind == READ && Ranges(sc.read) && sc.read.key == sc.update.key
    && |sc.holders| == 3 && (forall j :: 0 <= j < 3 ==> LegalHolder(sc.holders[j], sc.update))
    && (forall i :: 0 <= i < |sc.answering| ==> sc.answering[i] < 3)
    && (forall i, j :: 0 <= i < j < |sc.answering| ==> sc.answering[i] != sc.answering[j])
  }

  /** From the update to the read nothing but stabilization changes the entry. */
  ghost predicate LegalHolder(h: Holder, update: Message)
  {
    && Addressable(h.addr) && IsInt(h.time) && IsInt(h.role)
    && AllPreserve(h.history, update.key, update.value[..Find(update.value, "::")])
  }

  /** The coordinator logged the update as a success. */
  ghost predicate UpdateSucceeded(sc: Scenario)
    requires |sc.holders| == 3
  {
    Quorum([Confirmed(sc.holders[0], sc.update), Confirmed(sc.holders[1], sc.update), Confirmed(sc.holders[2], sc.update)])
  }

  function Answer(sc: Scenario, j: nat): string
    requires j < |sc.holders|
  {
    Received(ReadReply(sc.read, sc.holders[j].addr, ReadOf(Later(sc.holders[j], sc.update), sc.update.key)).msg)
  }

  function ValuesRead(sc: Scenario): (values: seq<string>)
    requires |sc.holders| == 3 && forall i :: 0 <= i < |sc.answering| ==> sc.answering[i] < 3
    ensures |values| == |sc.answering|
  {
    seq(|sc.answering|, i requires 0 <= i < |sc.answering| => Answer(sc, sc.answering[i]))
  }

  /** A read logged as a success found the value that the client gave. */
  ghost predicate ReadsBack(sc: Scenario)
    requires Legal(sc)
  {
    ReadVerdict(ValuesRead(sc)).Some? ==> ReadVerdict(ValuesRead(sc)).value == sc.update.value
  }

  /**
   A value that holds a colon, with numbers wherever the parsers of messages and of entries look for them:
   readers find what is in front of the first colon.
   */
  ghost predicate CutShort(value: string)
  {
    ':' in value && Travels(value) && Legible(value[..Find(value, "::")])
  }

  lemma NoColonWhole(value: string)
    requires ':' !in value
    ensures Find(value, "::") == |value| == Find(value, ":") && value[..|value|] == value
  {
    NoColonSafe(value);
    NoPairFinds(value);
    EndsColon(value);
  }

  /** What readers find of a value with a colon is shorter. */
  lemma FoundIsShorter(value: string)
    requires ':' in value
    ensures var front := value[..Find(value, "::")];
      |front[..Find(front, ":")]| < |value|
  {
    EndsColon(value);
    var k := Find(value, "::");
    if k == |value| {
      assert value[..k] == value;
    }
  }

  lemma ReplyArrives(m: Message, me: Address, text: string)
    requires Ranges(m) && Addressable(me) && NoPair(text)
    ensures Received(ReadReply(m, me, text).msg) == text
  {
    RoundTrip(ReadReply(m, me, text).msg);
  }

  lemma ConfirmedHas(h: Holder, update: Message)
    requires update.kind == UPDATE && Ranges(update) && SafeField(update.key)
    requires LegalHolder(h, update) && Confirmed(h, update)
    ensures Has(Later(h, update), update.key, update.value[..Find(update.value, "::")])
  {
    ParsedUpdate(update);
    var m := Parse(Text(update)).value;
    FirstWrap(m.value, h.time, h.role);
    WrapNotEmpty(m.value, h.time, h.role);
    assert Updating(h, m).sends[0] == Reply(m, h.addr, true);
    assert ReadOf(h.before, m.key) != "";
    AllKeep(Updating(h, m).server.table, h.history, h.addr, m.key, m.value);
  }

  /** Of any two different holders one has confirmed, if two have. */
  lemma Intersect(a: bool, b: bool, c: bool, i: nat, j: nat)
    requires Quorum([a, b, c]) && i < 3 && j < 3 && i != j
    ensures [a, b, c][i] || [a, b, c][j]
  {
    assert [a, b, c][..2] == [a, b] && [a, b][..1] == [a];
    assert CountTrue([a]) == if a then 1 else 0;
    assert CountTrue([a, b]) == CountTrue([a]) + if b then 1 else 0;
  }

  lemma OneConfirmed(sc: Scenario, i: nat, j: nat) returns (first: bool)
    requires |sc.holders| == 3 && UpdateSucceeded(sc) && i < 3 && j < 3 && i != j
    ensures Confirmed(sc.holders[if first then i else j], sc.update)
  {
    Intersect(Confirmed(sc.holders[0], sc.update), Confirmed(sc.holders[1], sc.update), Confirmed(sc.holders[2], sc.update), i, j);
    first := Confirmed(sc.holders[i], sc.update);
  }

  /** Read-after-write: for every pattern of holders that got the update and of holders that answered the read. */
  lemma ReadAfterWrite(sc: Scenario)
    requires Legal(sc) && UpdateSucceeded(sc) && sc.update.value != "" && !CutShort(sc.update.value)
    ensures ReadsBack(sc)
  {
    var values := ValuesRead(sc);
    if ReadVerdict(values).Some? {
      var i, j := SuccessMeans(values);
      var first := OneConfirmed(sc, sc.answering[i], sc.answering[j]);
      if first {
        ConfirmedIsRead(sc, sc.answering[i]);
      } else {
        ConfirmedIsRead(sc, sc.answering[j]);
      }
    }
  }

  lemma ConfirmedAnswer(sc: Scenario, j: nat)
    requires Legal(sc) && j < 3 && Confirmed(sc.holders[j], sc.update)
    ensures Wrapped(Answer(sc, j), sc.update.value[..Find(sc.update.value, "::")]) && Travels(sc.update.value)
  {
    var h, front := sc.holders[j], sc.update.value[..Find(sc.update.value, "::")];
    ParsedUpdate(sc.update);
    ConfirmedHas(h, sc.update);
    var text := Later(h, sc.update)[sc.update.key];
    WrappedReads(text, front);
    ReplyArrives(sc.read, h.addr, text);
  }

  lemma ConfirmedIsRead(sc: Scenario, j: nat)
    requires Legal(sc) && sc.update.value != "" && !CutShort(sc.update.value) && j < 3
    requires Confirmed(sc.holders[j], sc.update) && ParseEntry(Answer(sc, j)).Ok?
    ensures ParseEntry(Answer(sc, j)).value.value == sc.update.value
  {
    ConfirmedAnswer(sc, j);
    WrappedReads(Answer(sc, j), sc.update.value[..Find(sc.update.value, "::")]);
    NoColonWhole(sc.update.value);
  }

  // ---------------------------------------------------------------- and for which values it fails

  function Keeper(table: map<string, string>, updated: bool): Holder
  {
    Holder(Address(1, 0), table, updated, 0, 0, [])
  }

  function UpdateOf(value: string): Message
  {
    Message(1, Address(1, 0), UPDATE, "k", value, 0, false)
  }

  function OldTable(): map<string, string>
  {
    map["k" := Wrap("x", 0, 0)]
  }

  /** Two holders get the update; the third has kept the entry "x". */
  function Clash(value: string, answering: seq<nat>): Scenario
  {
    Scenario(UpdateOf(value), [Keeper(OldTable(), true), Keeper(OldTable(), true), Keeper(OldTable(), false)],
             Message(2, Address(1, 0), READ, "k", "", 0, false), answering)
  }

  lemma ClashConfirmed(value: string)
    requires Travels(value)
    ensures Confirmed(Keeper(OldTable(), true), UpdateOf(value))
    ensures Later(Keeper(OldTable(), true), UpdateOf(value)) == map["k" := Wrap(value[..Find(value, "::")], 0, 0)]
    ensures Later(Keeper(OldTable(), false), UpdateOf(value)) == OldTable()
  {
    assert SafeField("k");
    ParsedUpdate(UpdateOf(value));
    var m := Parse(Text(UpdateOf(value))).value;
    WrapNotEmpty("x", 0, 0);
    assert Updating(Keeper(OldTable(), true), m).server.table == map["k" := Wrap(m.value, 0, 0)];
  }

  lemma ClashLegal(value: string, answering: seq<nat>)
    requires Travels(value) && (answering == [0, 1] || answering == [0, 2])
    ensures Legal(Clash(value, answering)) && UpdateSucceeded(Clash(value, answering))
  {
    var sc := Clash(value, answering);
    assert SafeField("k");
    ClashConfirmed(value);
    var a, b, c := Confirmed(sc.holders[0], sc.update), Confirmed(sc.holders[1], sc.update), Confirmed(sc.holders[2], sc.update);
    assert a && b;
    assert [a, b, c][..2] == [a, b] && [a, b][..1] == [a] && [a][..0] == [];
    assert CountTrue([a]) == 1 && CountTrue([a, b]) == 2;
  }

  lemma ClashAnswer(sc: Scenario, j: nat, text: string)
    requires Ranges(sc.read) && sc.update.key == "k" && j < |sc.holders| && Addressable(sc.holders[j].addr)
    requires Later(sc.holders[j], sc.update) == map["k" := text] && SafeField(text)
    ensures Answer(sc, j) == text
  {
    ReplyArrives(sc.read, sc.holders[j].addr, text);
  }

  lemma ClashAnswers(value: string, answering: seq<nat>)
    requires Travels(value) && (answering == [0, 1] || answering == [0, 2])
    ensures Legal(Clash(value, answering))
    ensures var w := Wrap(value[..Find(value, "::")], 0, 0);
      ValuesRead(Clash(value, answering)) == [w, if answering[1] == 1 then w else Wrap("x", 0, 0)]
  {
    var sc, front := Clash(value, answering), value[..Find(value, "::")];
    ClashLegal(value, answering);
    ClashConfirmed(value);
    FrontIsSafe(value);
    WrapSafe(front, 0, 0);
    assert SafeField("x");
    WrapSafe("x", 0, 0);
    ClashAnswer(sc, 0, Wrap(front, 0, 0));
    ClashAnswer(sc, 1, Wrap(front, 0, 0));
    ClashAnswer(sc, 2, Wrap("x", 0, 0));
  }

  lemma CountOfTwo(x: string, y: string)
    requires x != "" && y != "" && ParseEntry(x).Ok? && ParseEntry(y).Ok?
    ensures Count([x, y]) == Ok(CountOne(CountOne(Tally("", 0, false), ParseEntry(x).value.value), ParseEntry(y).value.value))
  {
    assert [x, y][..1] == [x] && [x][..0] == [];
    assert Count([x]) == Ok(CountOne(Tally("", 0, false), ParseEntry(x).value.value));
  }

  lemma VerdictOfTwo(x: string, y: string, a: string, b: string)
    requires x != "" && y != "" && Reads(x, a) && Reads(y, b)
    ensures a == "" && b != "" ==> ReadVerdict([x, y]) == Some(b)
    ensures a != "" && a == b ==> ReadVerdict([x, y]) == Some(a)
  {
    CountOfTwo(x, y);
  }

  lemma OldIsRead()
    ensures Reads(Wrap("x", 0, 0), "x") && Wrap("x", 0, 0) != ""
  {
    assert ':' !in "x";
    WrapIsRead("x", 0, 0);
    WrapNotEmpty("x", 0, 0);
  }

  /** What readers find of a value. */
  function Found(value: string): string
  {
    var front := value[..Find(value, "::")];
    front[..Find(front, ":")]
  }

  lemma FoundIsRead(value: string)
    requires Legible(value[..Find(value, "::")])
    ensures Reads(Wrap(value[..Find(value, "::")], 0, 0), Found(value)) && Wrap(value[..Find(value, "::")], 0, 0) != ""
  {
    WrapReads(value[..Find(value, "::")], 0, 0);
    WrapNotEmpty(value[..Find(value, "::")], 0, 0);
  }

  /** A value of which readers find nothing loses against an old one. */
  lemma EmptyLoses(value: string)
    requires Travels(value) && Legible(value[..Find(value, "::")]) && Found(value) == "" && value != "x"
    ensures Legal(Clash(value, [0, 2])) && UpdateSucceeded(Clash(value, [0, 2])) && !ReadsBack(Clash(value, [0, 2]))
  {
    ClashLegal(value, [0, 2]);
    ClashAnswers(value, [0, 2]);
    FoundIsRead(value);
    OldIsRead();
    VerdictOfTwo(Wrap(value[..Find(value, "::")], 0, 0), Wrap("x", 0, 0), "", "x");
  }

  /** A value of which they find a part is read as that. */
  lemma PartIsRead(value: string)
    requires Travels(value) && Legible(value[..Find(value, "::")]) && Found(value) != ""
    ensures Legal(Clash(value, [0, 1])) && UpdateSucceeded(Clash(value, [0, 1]))
    ensures ReadVerdict(ValuesRead(Clash(value, [0, 1]))) == Some(Found(value))
  {
    ClashLegal(value, [0, 1]);
    ClashAnswers(value, [0, 1]);
    FoundIsRead(value);
    var w := Wrap(value[..Find(value, "::")], 0, 0);
    VerdictOfTwo(w, w, Found(value), Found(value));
  }

  lemma EmptyIsNothing()
    ensures Travels("") && Legible("") && Found("") == "" && Find("", "::") == 0
  {
    NoColonWhole("");
  }

  lemma ValueIsLost(value: string) returns (sc: Scenario)
    requires value == "" || CutShort(value)
    ensures Legal(sc) && sc.update.value == value && UpdateSucceeded(sc) && !ReadsBack(sc)
  {
    if value == "" {
      EmptyIsNothing();
      sc := Clash(value, [0, 2]);
      EmptyLoses(value);
    } else {
      FoundIsShorter(value);
      if Found(value) == "" {
        assert ':' !in "x";
        sc := Clash(value, [0, 2]);
        EmptyLoses(value);
      } else {
        sc := Clash(value, [0, 1]);
        PartIsRead(value);
      }
    }
  }

  lemma OneIsNumber()
    ensures BeginsWithInt("1")
  {
    assert Value("1"[..0]) == 0;
    assert IsNumeral("1", "", "", "1", "");
  }

  lemma CutAfterFirst(value: string, k: nat)
    requires PairAt(value, k) && (forall j: nat :: j < k ==> !PairAt(value, j)) && ':' !in value[..k]
    requires BeginsWithInt(value[k + 2..])
    ensures Travels(value) && Legible(value[..Find(value, "::")]) && Found(value) == value[..k]
  {
    PairOccurs(value, k);
    forall j: nat | j < k ensures !OccursAt(value, "::", j) {
      PairOccurs(value, j);
    }
    FindIs(value, "::", k);
    NoColonWhole(value[..k]);
  }

  /** For example, all that follows the colons of "a::1" is lost: every holder takes the 1 for the role. */
  lemma LostAfterColons() returns (sc: Scenario)
    ensures Legal(sc) && sc.update.value == "a::1" && UpdateSucceeded(sc) && ReadVerdict(ValuesRead(sc)) == Some("a")
  {
    var value := "a::1";
    assert value[3..] == "1" && value[..1] == "a";
    OneIsNumber();
    CutAfterFirst(value, 1);
    sc := Clash(value, [0, 1]);
    PartIsRead(value);
  }

  /** Whatever the schedule, reads give the value back. */
  ghost predicate AlwaysReadsBack(value: string)
  {
    forall sc :: Legal(sc) && sc.update.value == value && UpdateSucceeded(sc) ==> ReadsBack(sc)
  }

  /** So read-after-write holds exactly for the values that are neither empty nor cut short. */
  lemma ReadAfterWriteExactly(value: string)
    ensures AlwaysReadsBack(value) <==> value != "" && !CutShort(value)
  {
    if value != "" && !CutShort(value) {
      forall sc | Legal(sc) && sc.update.value == value && UpdateSucceeded(sc) ensures ReadsBack(sc) {
        ReadAfterWrite(sc);
      }
    } else {
      var sc := ValueIsLost(value);
    }
  }
}
