/**
 The repair of a key from end to end (key-value-store/MP2Node.cpp, key-value-store/Readme.md): nodes fail
 and join, all run stabilization, their letters arrive as text, and every holder in the new ring has the
 entry, but for one case.
 */
module Repair {
  import opened Addresses
  import opened Decimal
  import opened Delimited
  import opened Entries
  import opened HashTables
  import opened KeyValueNode
  import opened Messages
  import opened Rings
  import opened Servers
  import opened Stabilization

  /** The table has an entry for the key that is read as `value`. */
  predicate HoldsValue(table: map<string, string>, key: string, value: string)
  {
    key in table && table[key] != "" && Reads(table[key], value)
  }

  /** It has that, or nothing, for the key. */
  predicate HoldsNoOther(table: map<string, string>, key: string, value: string)
  {
    key in table ==> HoldsValue(table, key, value)
  }

  /** A message about another key, a read or a reply, or a copy that is read as `value`. */
  predicate Harmless(m: Message, key: string, value: string)
  {
    m.key == key ==> m.kind != DELETE && (m.kind == CREATE || m.kind == UPDATE ==> Reads(m.value, value))
  }

  predicate Creates(m: Message, key: string)
  {
    m.kind == CREATE && m.key == key
  }

  lemma HandleHarmless(s: Server, me: Address, time: int, m: Message, key: string, value: string)
    requires HoldsNoOther(s.table, key, value) && Harmless(m, key, value)
    ensures HoldsNoOther(Handle(s, me, time, m).server.table, key, value)
    ensures key in s.table || Creates(m, key) ==> key in Handle(s, me, time, m).server.table
  {
    if m.key == key && (m.kind == CREATE || m.kind == UPDATE) {
      RewrapInvisible(m.value, time, s.role);
    }
  }

  // ---------------------------------------------------------------- what stabilization does about one key

  lemma {:induction false} OthersUntouched(s: Stable, me: Address, ring: seq<RingNode>, newRing: seq<RingNode>, hash: string -> nat,
                                           order: seq<string>, time: int, key: string)
    requires |ring| >= 3 && |newRing| >= 3 && key !in order
    ensures var t := StabilizeAll(s, me, ring, newRing, hash, order, time);
      (key in t.table <==> key in s.table) && ReadOf(t.table, key) == ReadOf(s.table, key)
  {
    if order != [] {
      var n := |order| - 1;
      OthersUntouched(s, me, ring, newRing, hash, order[..n], time, key);
      var before := StabilizeAll(s, me, ring, newRing, hash, order[..n], time);
      ApplyElsewhere(before, me, order[n], time, PlanFor(me, ring, newRing, hash(order[n])), key);
    }
  }

  lemma ApplyElsewhere(s: Stable, me: Address, k: string, time: int, plan: Plan, key: string)
    requires k != key
    ensures var t := Apply(s, me, k, time, plan);
      (key in t.table <==> key in s.table) && ReadOf(t.table, key) == ReadOf(s.table, key)
  {
  }

  lemma ApplyHolds(s: Stable, me: Address, k: string, time: int, plan: Plan, key: string, value: string)
    requires HoldsNoOther(s.table, key, value)
    ensures HoldsNoOther(Apply(s, me, k, time, plan).table, key, value)
    ensures key in s.table && (k == key ==> plan.Keep?) ==> key in Apply(s, me, k, time, plan).table
  {
    if k == key && key in s.table && plan.Keep? {
      RewrapInvisible(s.table[key], time, plan.role);
      WrapNotEmpty(s.table[key], time, plan.role);
    }
  }

  /** A key is kept by those whose plan is to keep it, and always read as before. */
  lemma {:induction false} StabilizeHolds(s: Stable, me: Address, ring: seq<RingNode>, newRing: seq<RingNode>, hash: string -> nat,
                                          order: seq<string>, time: int, key: string, value: string)
    requires |ring| >= 3 && |newRing| >= 3 && HoldsNoOther(s.table, key, value)
    ensures var t := StabilizeAll(s, me, ring, newRing, hash, order, time);
      && HoldsNoOther(t.table, key, value)
      && (key in s.table && PlanFor(me, ring, newRing, hash(key)).Keep? ==> key in t.table)
  {
    if order != [] {
      var n := |order| - 1;
      StabilizeHolds(s, me, ring, newRing, hash, order[..n], time, key, value);
      var before := StabilizeAll(s, me, ring, newRing, hash, order[..n], time);
      ApplyHolds(before, me, order[n], time, PlanFor(me, ring, newRing, hash(order[n])), key, value);
    }
  }

  // ---------------------------------------------------------------- the letters of stabilization

  /** A change of the ring: the rings before and after, and when stabilization runs for it. */
  datatype Change = Change(ring: seq<RingNode>, newRing: seq<RingNode>, hash: string -> nat, time: int)

  predicate Large(r: Change)
  {
    |r.ring| >= 3 && |r.newRing| >= 3
  }

  function PlanAt(r: Change, me: Address, key: string): Plan
    requires Large(r)
  {
    PlanFor(me, r.ring, r.newRing, r.hash(key))
  }

  function StableAfter(s: Stable, me: Address, r: Change, order: seq<string>): Stable
    requires Large(r)
  {
    StabilizeAll(s, me, r.ring, r.newRing, r.hash, order, r.time)
  }

  function CopyMessage(id: int, me: Address, c: Copy, key: string, text: string): Message
  {
    Message(id, me, c.kind, key, text, c.role, false)
  }

  predicate ProperCopy(c: Copy)
  {
    (c.kind == CREATE || c.kind == UPDATE) && PRIMARY <= c.role <= TERTIARY
  }

  lemma PlanCopies(me: Address, r: Change, key: string)
    requires Large(r)
    ensures forall c :: c in PlanAt(r, me, key).sends ==> ProperCopy(c)
  {
    var pos := r.hash(key);
    AnyPlanCopies(me, TrioOf(Replicas(r.ring, pos)), TrioOf(Replicas(r.newRing, pos)), NeighboursOf(me, r.ring, r.newRing));
  }

  lemma AnyPlanCopies(me: Address, o: Trio, n: Trio, b: Neighbours)
    ensures forall c :: c in PlanOf(me, o, n, b).sends ==> ProperCopy(c)
  {
  }

  /** The letter carries this text for the key, under a number between these. */
  ghost predicate IsCopy(l: Letter, me: Address, c: Copy, key: string, text: string, low: int, high: int)
  {
    ProperCopy(c) && exists id :: low < id <= high && l == Letter(c.to, Text(CopyMessage(id, me, c, key, text)))
  }

  lemma CopyBetween(l: Letter, me: Address, c: Copy, key: string, text: string, low: int, high: int, low': int, high': int)
    requires IsCopy(l, me, c, key, text, low, high) && low' <= low && high <= high'
    ensures IsCopy(l, me, c, key, text, low', high')
  {
  }

  /** It carries a copy, as the plan says, of an entry of this table. */
  ghost predicate CopyOf(l: Letter, me: Address, r: Change, table: map<string, string>, low: int, high: int)
    requires Large(r)
  {
    exists key, c :: key in table && c in PlanAt(r, me, key).sends && IsCopy(l, me, c, key, table[key], low, high)
  }

  lemma ApplyLetters(s: Stable, me: Address, key: string, time: int, plan: Plan)
    requires forall c :: c in plan.sends ==> ProperCopy(c)
    ensures var t := Apply(s, me, key, time, plan);
      && s.id <= t.id && |t.letters| == |s.letters| + |plan.sends| && t.letters[..|s.letters|] == s.letters
      && forall k :: 0 <= k < |plan.sends| ==>
        IsCopy(t.letters[|s.letters| + k], me, plan.sends[k], key, ReadOf(s.table, key), s.id, t.id)
  {
    var t := Apply(s, me, key, time, plan);
    forall k | 0 <= k < |plan.sends|
      ensures IsCopy(t.letters[|s.letters| + k], me, plan.sends[k], key, ReadOf(s.table, key), s.id, t.id)
    {
      var id := s.id + 1 + k + if plan.Keep? then 1 else 0;
      assert plan.sends[k] in plan.sends;
      assert t.letters[|s.letters| + k] == Letter(plan.sends[k].to, Text(CopyMessage(id, me, plan.sends[k], key, ReadOf(s.table, key))));
    }
  }

  ghost predicate AllCopies(letters: seq<Letter>, me: Address, r: Change, table: map<string, string>, low: int, high: int)
    requires Large(r)
  {
    forall k :: 0 <= k < |letters| ==> CopyOf(letters[k], me, r, table, low, high)
  }

  predicate DistinctKeys(order: seq<string>, table: map<string, string>)
  {
    (forall i :: 0 <= i < |order| ==> order[i] in table) && forall i, j :: 0 <= i < j < |order| ==> order[i] != order[j]
  }

  /** All letters of a run of stabilization are copies of what the table held at its start. */
  lemma {:induction false} LettersAreCopies(s: Stable, me: Address, r: Change, order: seq<string>)
    requires Large(r) && s.letters == [] && DistinctKeys(order, s.table)
    ensures var t := StableAfter(s, me, r, order);
      s.id <= t.id && AllCopies(t.letters, me, r, s.table, s.id, t.id)
  {
    if order != [] {
      var n := |order| - 1;
      LettersAreCopies(s, me, r, order[..n]);
      OthersUntouched(s, me, r.ring, r.newRing, r.hash, order[..n], r.time, order[n]);
      CopiesGrow(s, StableAfter(s, me, r, order[..n]), me, r, order[n]);
    }
  }

  lemma CopiesGrow(s: Stable, u: Stable, me: Address, r: Change, key: string)
    requires Large(r) && s.id <= u.id && AllCopies(u.letters, me, r, s.table, s.id, u.id)
    requires key in s.table && ReadOf(u.table, key) == s.table[key]
    ensures var t := Apply(u, me, key, r.time, PlanAt(r, me, key));
      s.id <= t.id && AllCopies(t.letters, me, r, s.table, s.id, t.id)
  {
    hide Apply, PlanAt, IsCopy, ProperCopy, ReadOf;
    var plan := PlanAt(r, me, key);
    PlanCopies(me, r, key);
    ApplyLetters(u, me, key, r.time, plan);
    var t := Apply(u, me, key, r.time, plan);
    forall k | 0 <= k < |t.letters| ensures CopyOf(t.letters[k], me, r, s.table, s.id, t.id) {
      if k < |u.letters| {
        assert t.letters[k] == u.letters[k];
        StillCopy(u.letters[k], me, r, s.table, s.id, u.id, t.id);
      } else {
        var c := plan.sends[k - |u.letters|];
        CopyBetween(t.letters[k], me, c, key, s.table[key], u.id, t.id, s.id, t.id);
      }
    }
  }

  lemma StillCopy(l: Letter, me: Address, r: Change, table: map<string, string>, low: int, high: int, high': int)
    requires Large(r) && CopyOf(l, me, r, table, low, high) && high <= high'
    ensures CopyOf(l, me, r, table, low, high')
  {
    hide PlanAt, IsCopy;
    var key, c :| key in table && c in PlanAt(r, me, key).sends && IsCopy(l, me, c, key, table[key], low, high);
    CopyBetween(l, me, c, key, table[key], low, high, low, high');
  }

  /** Among the letters is one that creates the key there, with this text. */
  ghost predicate CreationSent(letters: seq<Letter>, me: Address, key: string, text: string, to: Address, low: int, high: int)
  {
    exists l: Letter, c: Copy :: l in letters && c.kind == CREATE && c.to == to && IsCopy(l, me, c, key, text, low, high)
  }

  lemma CreationStays(x: seq<Letter>, y: seq<Letter>, me: Address, key: string, text: string, to: Address, low: int, high: int, high': int)
    requires CreationSent(x, me, key, text, to, low, high) && |x| <= |y| && y[..|x|] == x && high <= high'
    ensures CreationSent(y, me, key, text, to, low, high')
  {
    var l: Letter, c: Copy :| l in x && c.kind == CREATE && c.to == to && IsCopy(l, me, c, key, text, low, high);
    CopyBetween(l, me, c, key, text, low, high, low, high');
    assert l in y[..|x|];
  }

  lemma CreationApplied(u: Stable, me: Address, key: string, time: int, plan: Plan, to: Address, low: int)
    requires CreatesAt(plan.sends, to) && (forall c :: c in plan.sends ==> ProperCopy(c)) && low <= u.id
    ensures var t := Apply(u, me, key, time, plan);
      CreationSent(t.letters, me, key, ReadOf(u.table, key), to, low, t.id)
  {
    hide Apply, IsCopy, ProperCopy;
    ApplyLetters(u, me, key, time, plan);
    var c :| c in plan.sends && c.kind == CREATE && c.to == to;
    var k :| 0 <= k < |plan.sends| && plan.sends[k] == c;
    var t := Apply(u, me, key, time, plan);
    var l := t.letters[|u.letters| + k];
    assert l in t.letters;
    CopyBetween(l, me, c, key, ReadOf(u.table, key), u.id, t.id, low, t.id);
  }

  /** If the plan is to create the key at a node, a letter that does so is sent. */
  lemma {:induction false} CreationIsSent(s: Stable, me: Address, r: Change, order: seq<string>, key: string, to: Address)
    requires Large(r) && s.letters == [] && DistinctKeys(order, s.table) && key in order && CreatesAt(PlanAt(r, me, key).sends, to)
    ensures var t := StableAfter(s, me, r, order);
      CreationSent(t.letters, me, key, s.table[key], to, s.id, t.id)
  {
    hide StableAfter, CreationSent, CreatesAt, PlanAt, ProperCopy, Apply, AllCopies, ReadOf;
    var n := |order| - 1;
    var u, plan := StableAfter(s, me, r, order[..n]), PlanAt(r, me, order[n]);
    LastOfOrder(s, me, r, order);
    LettersAreCopies(s, me, r, order[..n]);
    PlanCopies(me, r, order[n]);
    if order[n] == key {
      CreationApplied(u, me, key, r.time, plan, to, s.id);
    } else {
      InFront(order, key);
      CreationIsSent(s, me, r, order[..n], key, to);
      ApplyLetters(u, me, order[n], r.time, plan);
      var t := Apply(u, me, order[n], r.time, plan);
      CreationStays(u.letters, t.letters, me, key, s.table[key], to, s.id, u.id, t.id);
    }
  }

  lemma LastOfOrder(s: Stable, me: Address, r: Change, order: seq<string>)
    requires Large(r) && order != [] && DistinctKeys(order, s.table)
    ensures var n := |order| - 1;
      && DistinctKeys(order[..n], s.table) && order[n] in s.table
      && ReadOf(StableAfter(s, me, r, order[..n]).table, order[n]) == s.table[order[n]]
      && StableAfter(s, me, r, order) == Apply(StableAfter(s, me, r, order[..n]), me, order[n], r.time, PlanAt(r, me, order[n]))
  {
    hide Apply, PlanFor;
    var n := |order| - 1;
    OthersUntouched(s, me, r.ring, r.newRing, r.hash, order[..n], r.time, order[n]);
  }

  lemma InFront(order: seq<string>, key: string)
    requires order != [] && key in order && order[|order| - 1] != key
    ensures key in order[..|order| - 1]
  {
  }

  // ---------------------------------------------------------------- the letters arrive

  /** Keys and texts that travel whole, as all do that have come by message. */
  predicate TableSafe(table: map<string, string>)
  {
    forall key :: key in table ==> SafeField(key) && SafeField(table[key])
  }

  lemma CopyArrives(me: Address, c: Copy, key: string, text: string, id: int)
    requires ProperCopy(c) && Addressable(me) && IsInt(id) && SafeField(key) && SafeField(text)
    ensures Parse(Text(CopyMessage(id, me, c, key, text))).Ok?
    ensures SameMessage(CopyMessage(id, me, c, key, text), Parse(Text(CopyMessage(id, me, c, key, text))).value)
  {
    RoundTrip(CopyMessage(id, me, c, key, text));
  }

  /** A text that can be parsed, and does not change what is read under the key. */
  predicate HarmlessText(text: string, key: string, value: string)
  {
    Parse(text).Ok? && Harmless(Parse(text).value, key, value)
  }

  /** A letter arrives as a copy of its sender's entry, as the sender's plan says. */
  lemma CopyIsRead(l: Letter, me: Address, r: Change, table: map<string, string>, low: int, high: int) returns (k: string, c: Copy)
    requires Large(r) && CopyOf(l, me, r, table, low, high) && Addressable(me) && 0 <= low && IsInt(high) && TableSafe(table)
    ensures k in table && c in PlanAt(r, me, k).sends && ProperCopy(c) && c.to == l.to && Parse(l.text).Ok?
    ensures var m := Parse(l.text).value;
      m.kind == c.kind && m.key == k && m.value == table[k]
  {
    k, c :| k in table && c in PlanAt(r, me, k).sends && IsCopy(l, me, c, k, table[k], low, high);
    var id :| low < id <= high && l == Letter(c.to, Text(CopyMessage(id, me, c, k, table[k])));
    CopyArrives(me, c, k, table[k], id);
  }

  // ---------------------------------------------------------------- what happens to a node afterwards

  /** A message is handled, or stabilization is run once more with the ring as it now is. */
  datatype Happening = Mail(text: string, time: int, role: int) | Again(id: int, order: seq<string>, time: int)

  function TableAfter(table: map<string, string>, me: Address, ring: seq<RingNode>, hash: string -> nat, history: seq<Happening>): map<string, string>
    requires |ring| >= 3
  {
    if history == [] then table
    else
      var n := |history| - 1;
      var before := TableAfter(table, me, ring, hash, history[..n]);
      match history[n]
      case Mail(text, time, role) =>
        var m := Parse(text);
        if m.Ok? then Handle(Server(before, map[], map[], role), me, time, m.value).server.table else before
      case Again(id, order, time) => StabilizeAll(Stable(before, id, []), me, ring, ring, hash, order, time).table
  }

  predicate AllMailHarmless(history: seq<Happening>, key: string, value: string)
  {
    forall k :: 0 <= k < |history| && history[k].Mail? ==> HarmlessText(history[k].text, key, value)
  }

  predicate CreatedBy(h: Happening, key: string)
  {
    h.Mail? && Parse(h.text).Ok? && Creates(Parse(h.text).value, key)
  }

  predicate MailCreates(history: seq<Happening>, key: string)
  {
    exists k :: 0 <= k < |history| && CreatedBy(history[k], key)
  }

  lemma {:induction false} HistoryHolds(table: map<string, string>, me: Address, ring: seq<RingNode>, hash: string -> nat,
                                        history: seq<Happening>, key: string, value: string)
    requires Ring(ring) && |ring| >= 3 && Among(me, TrioOf(Replicas(ring, hash(key))))
    requires HoldsNoOther(table, key, value) && AllMailHarmless(history, key, value)
    ensures HoldsNoOther(TableAfter(table, me, ring, hash, history), key, value)
    ensures key in table || MailCreates(history, key) ==> key in TableAfter(table, me, ring, hash, history)
  {
    if history != [] {
      var n := |history| - 1;
      HistoryHolds(table, me, ring, hash, history[..n], key, value);
      LastCreates(history, key);
      HappeningHolds(TableAfter(table, me, ring, hash, history[..n]), me, ring, hash, history, key, value);
    }
  }

  lemma LastCreates(history: seq<Happening>, key: string)
    requires history != []
    ensures MailCreates(history, key) ==> MailCreates(history[..|history| - 1], key) || CreatedBy(history[|history| - 1], key)
  {
    hide CreatedBy;
    var n := |history| - 1;
    if k :| 0 <= k < |history| && CreatedBy(history[k], key) {
      assert k < n ==> CreatedBy(history[..n][k], key);
    }
  }

  lemma HappeningHolds(before: map<string, string>, me: Address, ring: seq<RingNode>, hash: string -> nat,
                       history: seq<Happening>, key: string, value: string)
    requires Ring(ring) && |ring| >= 3 && Among(me, TrioOf(Replicas(ring, hash(key)))) && history != []
    requires HoldsNoOther(before, key, value) && AllMailHarmless(history, key, value)
    ensures var h := history[|history| - 1];
      var after := if h.Mail? then Handle(Server(before, map[], map[], h.role), me, h.time, Parse(h.text).value).server.table
        else StabilizeAll(Stable(before, h.id, []), me, ring, ring, hash, h.order, h.time).table;
      HoldsNoOther(after, key, value) && (key in before || CreatedBy(h, key) ==> key in after)
  {
    var h := history[|history| - 1];
    match h
    case Mail(text, time, role) =>
      HandleHarmless(Server(before, map[], map[], role), me, time, Parse(text).value, key, value);
    case Again(id, order, time) =>
      QuietWhenUnchanged(me, ring, hash(key));
      StabilizeHolds(Stable(before, id, []), me, ring, ring, hash, order, time, key, value);
  }

  // ---------------------------------------------------------------- tables are always fit to travel

  /** A text that some node printed. */
  ghost predicate Printed(text: string)
  {
    exists m: Message :: Ranges(m) && text == Text(m)
  }

  lemma MailKeepsSafe(table: map<string, string>, me: Address, time: int, role: int, text: string)
    requires TableSafe(table) && Printed(text) && Parse(text).Ok?
    ensures TableSafe(Handle(Server(table, map[], map[], role), me, time, Parse(text).value).server.table)
  {
    var m: Message :| Ranges(m) && text == Text(m);
    KindArrives(m);
    if m.kind == CREATE || m.kind == UPDATE {
      ArrivesSafe(m);
    }
    SafeMailKeepsSafe(table, me, time, role, Parse(text).value);
  }

  lemma SafeMailKeepsSafe(table: map<string, string>, me: Address, time: int, role: int, m: Message)
    requires TableSafe(table) && (m.kind == CREATE || m.kind == UPDATE ==> SafeField(m.key) && SafeField(m.value))
    ensures TableSafe(Handle(Server(table, map[], map[], role), me, time, m).server.table)
  {
    if m.kind == CREATE || m.kind == UPDATE {
      WrapSafe(m.value, time, role);
    }
    hide SafeField, Wrap;
  }

  lemma KindArrives(m: Message)
    requires Ranges(m) && Parse(Text(m)).Ok?
    ensures Parse(Text(m)).value.kind == m.kind
  {
    ParseOfText(m);
  }

  lemma ApplyKeepsSafe(s: Stable, me: Address, key: string, time: int, plan: Plan)
    requires TableSafe(s.table)
    ensures TableSafe(Apply(s, me, key, time, plan).table)
  {
    if plan.Keep? && key in s.table {
      WrapSafe(s.table[key], time, plan.role);
    }
  }

  lemma {:induction false} StabilizeKeepsSafe(s: Stable, me: Address, ring: seq<RingNode>, newRing: seq<RingNode>, hash: string -> nat,
                                              order: seq<string>, time: int)
    requires |ring| >= 3 && |newRing| >= 3 && TableSafe(s.table)
    ensures TableSafe(StabilizeAll(s, me, ring, newRing, hash, order, time).table)
  {
    if order != [] {
      var n := |order| - 1;
      StabilizeKeepsSafe(s, me, ring, newRing, hash, order[..n], time);
      ApplyKeepsSafe(StabilizeAll(s, me, ring, newRing, hash, order[..n], time), me, order[n], time, PlanFor(me, ring, newRing, hash(order[n])));
    }
  }

  /** Whatever clients give for keys and values: after any mail and any stabilization the table is fit to travel. */
  lemma {:induction false} AlwaysSafe(table: map<string, string>, me: Address, ring: seq<RingNode>, hash: string -> nat, history: seq<Happening>)
    requires |ring| >= 3 && TableSafe(table) && forall h :: h in history && h.Mail? ==> Printed(h.text)
    ensures TableSafe(TableAfter(table, me, ring, hash, history))
  {
    if history != [] {
      var n := |history| - 1;
      AlwaysSafe(table, me, ring, hash, history[..n]);
      var before := TableAfter(table, me, ring, hash, history[..n]);
      assert history[n] in history;
      match history[n]
      case Mail(text, time, role) =>
        if Parse(text).Ok? {
          MailKeepsSafe(before, me, time, role, text);
        }
      case Again(id, order, time) => StabilizeKeepsSafe(Stable(before, id, []), me, ring, ring, hash, order, time);
    }
  }

  // ---------------------------------------------------------------- from end to end

  /** A node: what it holds when it learns of the change, the order of its keys, and what happens to it afterwards. */
  datatype Peer = Peer(start: Stable, order: seq<string>, history: seq<Happening>)

  function OldHolders(r: Change, key: string): Trio
    requires Large(r)
  {
    TrioOf(Replicas(r.ring, r.hash(key)))
  }

  function NewHolders(r: Change, key: string): Trio
    requires Large(r)
  {
    TrioOf(Replicas(r.newRing, r.hash(key)))
  }

  /** Nodes fail and join, and a holder of the key is left. */
  ghost predicate Leaves(r: Change, key: string)
  {
    Changes(r.ring, r.newRing) && exists a :: Among(a, OldHolders(r, key)) && In(a, r.newRing)
  }

  /** All but the now second holder are gone, and the third is new. */
  ghost predicate OnlySecond(r: Change, key: string)
    requires Large(r)
  {
    OnlySecondIsLeft(r.ring, r.newRing, r.hash(key))
  }

  function Stabilized(p: Peer, b: Address, r: Change): Stable
    requires Large(r)
  {
    StableAfter(p.start, b, r, p.order)
  }

  /** Before the change: the old holders have the entry, nobody has another one, and all is fit to travel. */
  ghost predicate Ready(p: Peer, b: Address, r: Change, key: string, value: string)
    requires Large(r)
  {
    && Addressable(b) && p.start.letters == [] && 0 <= p.start.id && IsInt(Stabilized(p, b, r).id)
    && Enumerates(p.order, p.start.table.Keys) && TableSafe(p.start.table)
    && HoldsNoOther(p.start.table, key, value) && (Among(b, OldHolders(r, key)) ==> key in p.start.table)
  }

  ghost predicate AllReady(peers: map<Address, Peer>, r: Change, key: string, value: string)
    requires Large(r)
  {
    && (forall x :: x in r.newRing ==> x.nodeAddress in peers)
    && (forall b :: b in peers ==> Ready(peers[b], b, r, key, value))
  }

  /** A letter of some node's stabilization, to this one. */
  ghost predicate FromPeer(text: string, to: Address, peers: map<Address, Peer>, r: Change)
    requires Large(r)
  {
    exists b, l :: b in peers && l in Stabilized(peers[b], b, r).letters && l.to == to && l.text == text
  }

  /** Every letter to this node arrives, and what else arrives is harmless. */
  ghost predicate Informed(a: Address, peers: map<Address, Peer>, r: Change, key: string, value: string)
    requires a in peers && Large(r)
  {
    && (forall b, l :: b in peers && l in Stabilized(peers[b], b, r).letters && l.to == a ==> MailArrives(peers[a].history, l.text))
    && (forall h :: h in peers[a].history && h.Mail? ==> FromPeer(h.text, a, peers, r) || HarmlessText(h.text, key, value))
  }

  predicate MailArrives(history: seq<Happening>, text: string)
  {
    exists k :: 0 <= k < |history| && history[k].Mail? && history[k].text == text
  }

  /** The table of a node when all that has happened. */
  function Finally(a: Address, peers: map<Address, Peer>, r: Change): map<string, string>
    requires Large(r) && a in peers
  {
    TableAfter(Stabilized(peers[a], a, r).table, a, r.newRing, r.hash, peers[a].history)
  }

  lemma EachKeyOnce(order: seq<string>, table: map<string, string>)
    requires Enumerates(order, table.Keys)
    ensures DistinctKeys(order, table)
  {
  }

  /** Every letter of a node is read as a copy that its plan sends to the receiver. */
  lemma PeerMail(p: Peer, b: Address, r: Change, key: string, value: string, l: Letter) returns (k: string, c: Copy)
    requires Large(r) && Ready(p, b, r, key, value) && l in Stabilized(p, b, r).letters
    ensures k in p.start.table && c in PlanAt(r, b, k).sends && c.to == l.to && (c.kind == CREATE || c.kind == UPDATE)
    ensures Parse(l.text).Ok? && Parse(l.text).value.kind == c.kind && Parse(l.text).value.key == k
    ensures HarmlessText(l.text, key, value)
  {
    hide PlanAt, TableSafe;
    EachKeyOnce(p.order, p.start.table);
    LettersAreCopies(p.start, b, r, p.order);
    var letters := Stabilized(p, b, r).letters;
    var j :| 0 <= j < |letters| && letters[j] == l;
    assert CopyOf(letters[j], b, r, p.start.table, p.start.id, Stabilized(p, b, r).id);
    k, c := CopyIsRead(l, b, r, p.start.table, p.start.id, Stabilized(p, b, r).id);
  }

  lemma MailIsHarmless(a: Address, peers: map<Address, Peer>, r: Change, key: string, value: string)
    requires Large(r) && AllReady(peers, r, key, value) && a in peers && Informed(a, peers, r, key, value)
    ensures AllMailHarmless(peers[a].history, key, value)
  {
    hide HarmlessText, Ready;
    var history := peers[a].history;
    forall k | 0 <= k < |history| && history[k].Mail? ensures HarmlessText(history[k].text, key, value) {
      assert history[k] in history;
      if FromPeer(history[k].text, a, peers, r) {
        var b, l :| b in peers && l in Stabilized(peers[b], b, r).letters && l.to == a && l.text == history[k].text;
        var _, _ := PeerMail(peers[b], b, r, key, value, l);
      }
    }
  }

  lemma NewHoldersAreThere(a: Address, peers: map<Address, Peer>, r: Change, key: string, value: string)
    requires Large(r) && AllReady(peers, r, key, value) && Among(a, NewHolders(r, key))
    ensures a in peers
  {
    ReplicasAreMembers(r.newRing, r.hash(key));
    var three := Replicas(r.newRing, r.hash(key));
    var j :| 0 <= j < 3 && three[j].nodeAddress == a;
    assert three[j] in r.newRing;
  }

  /** A holder that stays one has the entry after stabilization, and nobody has another. */
  lemma HolderKeeps(a: Address, p: Peer, r: Change, key: string, value: string)
    requires Large(r) && Ready(p, a, r, key, value) && Among(a, NewHolders(r, key))
    ensures HoldsNoOther(Stabilized(p, a, r).table, key, value)
    ensures Among(a, OldHolders(r, key)) ==> key in Stabilized(p, a, r).table
  {
    hide Replicas, Predecessor;
    StabilizeHolds(p.start, a, r.ring, r.newRing, r.hash, p.order, r.time, key, value);
    GivenUp(a, r.ring, r.newRing, r.hash(key));
  }

  lemma TheCreation(letters: seq<Letter>, me: Address, key: string, text: string, to: Address, low: int, high: int) returns (l: Letter)
    requires CreationSent(letters, me, key, text, to, low, high)
    requires Addressable(me) && 0 <= low && IsInt(high) && SafeField(key) && SafeField(text)
    ensures l in letters && l.to == to && Parse(l.text).Ok? && Creates(Parse(l.text).value, key)
  {
    var c: Copy;
    l, c :| l in letters && c.kind == CREATE && c.to == to && IsCopy(l, me, c, key, text, low, high);
    var id :| low < id <= high && l == Letter(c.to, Text(CopyMessage(id, me, c, key, text)));
    CopyArrives(me, c, key, text, id);
  }

  /** A letter that is to create the key does so when it arrives. */
  lemma SenderSends(b: Address, p: Peer, r: Change, key: string, value: string, to: Address) returns (l: Letter)
    requires Large(r) && Ready(p, b, r, key, value) && Among(b, OldHolders(r, key)) && CreatesAt(PlanAt(r, b, key).sends, to)
    ensures l in Stabilized(p, b, r).letters && l.to == to && Parse(l.text).Ok? && Creates(Parse(l.text).value, key)
  {
    hide CreatesAt, PlanAt, CreationSent;
    EachKeyOnce(p.order, p.start.table);
    CreationIsSent(p.start, b, r, p.order, key, to);
    l := TheCreation(Stabilized(p, b, r).letters, b, key, p.start.table[key], to, p.start.id, Stabilized(p, b, r).id);
  }

  lemma NewcomerGetsMail(a: Address, peers: map<Address, Peer>, r: Change, key: string, value: string)
    requires Large(r) && AllReady(peers, r, key, value) && a in peers && Informed(a, peers, r, key, value)
    requires Served(a, r.ring, r.newRing, r.hash(key))
    ensures MailCreates(peers[a].history, key)
  {
    hide Replicas, Stabilized, Ready, PlanFor, Creates, CreatesAt;
    var b :| Among(b, OldHolders(r, key)) && In(b, r.newRing) && CreatesAt(PlanFor(b, r.ring, r.newRing, r.hash(key)).sends, a);
    assert In(b, r.newRing);
    var x :| x in r.newRing && x.nodeAddress == b;
    var l := SenderSends(b, peers[b], r, key, value, a);
    assert MailArrives(peers[a].history, l.text);
    var k :| 0 <= k < |peers[a].history| && peers[a].history[k].Mail? && peers[a].history[k].text == l.text;
    assert CreatedBy(peers[a].history[k], key);
  }

  /**
   Whatever nodes fail and join, if a holder of the key is left, and not just the now second one before a
   third that is new: once the letters that stabilization sends have arrived, in whatever order and among
   whatever harmless mail and further runs of stabilization, all three holders in the new ring have the
   entry, read as before.
   */
  lemma ChangeCompletes(a: Address, peers: map<Address, Peer>, r: Change, key: string, value: string)
    requires Leaves(r, key) && AllReady(peers, r, key, value) && Among(a, NewHolders(r, key)) && !OnlySecond(r, key)
    requires a in peers ==> Informed(a, peers, r, key, value)
    ensures a in peers && HoldsValue(Finally(a, peers, r), key, value)
  {
    hide Replicas, Ready, Informed, Stabilized, HoldsValue, Served;
    NewHoldersAreThere(a, peers, r, key, value);
    HolderKeeps(a, peers[a], r, key, value);
    MailIsHarmless(a, peers, r, key, value);
    if !Among(a, OldHolders(r, key)) {
      var left :| Among(left, OldHolders(r, key)) && In(left, r.newRing);
      ServedExactly(r.ring, r.newRing, r.hash(key), left);
      NewcomerGetsMail(a, peers, r, key, value);
    }
    HistoryHolds(Stabilized(peers[a], a, r).table, a, r.newRing, r.hash, peers[a].history, key, value);
  }

  // ---------------------------------------------------------------- failures alone, joins alone

  lemma SurvivorsChange(ring: seq<RingNode>, removed: set<Address>)
    requires Ring(ring) && |Survivors(ring, removed)| >= 3
    ensures Changes(ring, Survivors(ring, removed)) && forall x :: x in Survivors(ring, removed) ==> x in ring
    ensures Changes(Survivors(ring, removed), ring)
  {
    SurvivorsRing(ring, removed);
    SurvivorsMembers(ring, removed);
  }

  lemma SurvivorIsLeft(ring: seq<RingNode>, removed: set<Address>, pos: nat)
    requires Ring(ring) && |ring| >= 3 && Survivors(Replicas(ring, pos), removed) != []
    ensures exists a :: Among(a, TrioOf(Replicas(ring, pos))) && In(a, Survivors(ring, removed))
  {
    SurvivorsMembers(ring, removed);
    SurvivorsMembers(Replicas(ring, pos), removed);
    ReplicasAreMembers(ring, pos);
    var x := Survivors(Replicas(ring, pos), removed)[0];
    assert x in Survivors(Replicas(ring, pos), removed);
    assert In(x.nodeAddress, Survivors(ring, removed));
  }

  /** After any failures that leave a holder of the key and three nodes, all three holders end with the entry. */
  lemma RepairCompletes(a: Address, peers: map<Address, Peer>, r: Change, removed: set<Address>, key: string, value: string)
    requires Ring(r.ring) && |r.ring| >= 3 && r.newRing == Survivors(r.ring, removed) && |r.newRing| >= 3
    requires Survivors(Replicas(r.ring, r.hash(key)), removed) != []
    requires AllReady(peers, r, key, value) && Among(a, NewHolders(r, key)) && (a in peers ==> Informed(a, peers, r, key, value))
    ensures a in peers && HoldsValue(Finally(a, peers, r), key, value)
  {
    hide Ring, Replicas, AllReady, Informed, HoldsValue, Served, In;
    SurvivorsChange(r.ring, removed);
    SurvivorIsLeft(r.ring, removed, r.hash(key));
    var left :| Among(left, OldHolders(r, key)) && In(left, r.newRing);
    assert OldHolders(r, key) == TrioOf(Replicas(r.ring, r.hash(key)));
    OneKindServes(r.ring, r.newRing, r.hash(key), left);
    ServedExactly(r.ring, r.newRing, r.hash(key), left);
    ChangeCompletes(a, peers, r, key, value);
  }

  /** And so they do after any joins. */
  lemma JoinCompletes(a: Address, peers: map<Address, Peer>, r: Change, added: set<Address>, key: string, value: string)
    requires Ring(r.newRing) && r.ring == Survivors(r.newRing, added) && |r.ring| >= 3
    requires |r.newRing| >= 3 && AllReady(peers, r, key, value) && Among(a, NewHolders(r, key)) && (a in peers ==> Informed(a, peers, r, key, value))
    ensures a in peers && HoldsValue(Finally(a, peers, r), key, value)
  {
    hide Ring, AllReady, Informed, HoldsValue, Served;
    SurvivorsChange(r.newRing, added);
    ReplicasAreMembers(r.ring, r.hash(key));
    var left := OldHolders(r, key).first;
    assert In(left, r.newRing);
    OneKindServes(r.ring, r.newRing, r.hash(key), left);
    ServedExactly(r.ring, r.newRing, r.hash(key), left);
    ChangeCompletes(a, peers, r, key, value);
  }

  // ---------------------------------------------------------------- the third holder that is missed

  lemma AbsentAfterMail(s: Server, me: Address, time: int, m: Message, key: string)
    requires key !in s.table && !Creates(m, key)
    ensures key !in Handle(s, me, time, m).server.table
  {
  }

  lemma AbsentAfterOne(s: Stable, me: Address, k: string, time: int, plan: Plan, key: string)
    requires key !in s.table
    ensures key !in Apply(s, me, k, time, plan).table
  {
  }

  lemma {:induction false} AbsentAfterStabilizing(s: Stable, me: Address, ring: seq<RingNode>, newRing: seq<RingNode>, hash: string -> nat,
                                                  order: seq<string>, time: int, key: string)
    requires |ring| >= 3 && |newRing| >= 3 && key !in s.table
    ensures key !in StabilizeAll(s, me, ring, newRing, hash, order, time).table
  {
    if order != [] {
      hide Apply, PlanFor;
      var n := |order| - 1;
      AbsentAfterStabilizing(s, me, ring, newRing, hash, order[..n], time, key);
      AbsentAfterOne(StabilizeAll(s, me, ring, newRing, hash, order[..n], time), me, order[n], time,
                     PlanFor(me, ring, newRing, hash(order[n])), key);
    }
  }

  lemma {:induction false} AbsentAfterAll(table: map<string, string>, me: Address, ring: seq<RingNode>, hash: string -> nat,
                                          history: seq<Happening>, key: string)
    requires |ring| >= 3 && key !in table && !MailCreates(history, key)
    ensures key !in TableAfter(table, me, ring, hash, history)
  {
    if history != [] {
      var n := |history| - 1;
      assert forall k :: 0 <= k < n ==> history[..n][k] == history[k];
      AbsentAfterAll(table, me, ring, hash, history[..n], key);
      var before := TableAfter(table, me, ring, hash, history[..n]);
      assert !CreatedBy(history[n], key);
      match history[n]
      case Mail(text, time, role) =>
        if Parse(text).Ok? {
          AbsentAfterMail(Server(before, map[], map[], role), me, time, Parse(text).value, key);
        }
      case Again(id, order, time) => AbsentAfterStabilizing(Stable(before, id, []), me, ring, ring, hash, order, time, key);
    }
  }

  /** Only holders have the key, all nodes are left that still act, and only their letters can create it. */
  ghost predicate OnlyFromPeers(a: Address, peers: map<Address, Peer>, r: Change, key: string)
    requires Large(r) && a in peers
  {
    && (forall b :: b in peers && key in peers[b].start.table ==> Among(b, OldHolders(r, key)) && In(b, r.newRing))
    && (forall h :: h in peers[a].history && CreatedBy(h, key) ==> FromPeer(h.text, a, peers, r))
  }

  /** In the case left out above the third holder never gets the entry: its only source does not send it there. */
  lemma ThirdIsMissed(peers: map<Address, Peer>, r: Change, key: string, value: string)
    requires Leaves(r, key) && AllReady(peers, r, key, value) && OnlySecond(r, key)
    requires var third := NewHolders(r, key).third;
      third in peers ==> OnlyFromPeers(third, peers, r, key)
    ensures var third := NewHolders(r, key).third;
      third in peers && key !in Finally(third, peers, r)
  {
    hide Replicas, Ready, Stabilized;
    var third := NewHolders(r, key).third;
    NewHoldersAreThere(third, peers, r, key, value);
    NoSenderForThird(peers, r, key, value);
    StillAbsent(peers[third], third, r, key);
    AbsentAfterAll(Stabilized(peers[third], third, r).table, third, r.newRing, r.hash, peers[third].history, key);
  }

  lemma StillAbsent(p: Peer, a: Address, r: Change, key: string)
    requires Large(r) && key !in p.start.table
    ensures key !in Stabilized(p, a, r).table
  {
    AbsentAfterStabilizing(p.start, a, r.ring, r.newRing, r.hash, p.order, r.time, key);
  }

  lemma NoSenderForThird(peers: map<Address, Peer>, r: Change, key: string, value: string)
    requires Leaves(r, key) && AllReady(peers, r, key, value) && OnlySecond(r, key)
    requires var third := NewHolders(r, key).third;
      third in peers && OnlyFromPeers(third, peers, r, key)
    ensures !MailCreates(peers[NewHolders(r, key).third].history, key)
  {
    hide Replicas, Ready, Stabilized;
    var third := NewHolders(r, key).third;
    var history := peers[third].history;
    forall k | 0 <= k < |history| ensures !CreatedBy(history[k], key) {
      assert history[k] in history;
      if CreatedBy(history[k], key) {
        var b, l :| b in peers && l in Stabilized(peers[b], b, r).letters && l.to == third && l.text == history[k].text;
        var k', c := PeerMail(peers[b], b, r, key, value, l);
        assert k' == key && CreatesAt(PlanAt(r, b, key).sends, third);
        ChangeSends(b, r.ring, r.newRing, r.hash(key), third);
        assert false;
      }
    }
  }
}
