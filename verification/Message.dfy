/**
 Messages of the key-value store (key-value-store/Message.cpp) as text: fields joined by "::", numbers in
 decimal, the sender's address as id:port (key-value-store/Member.h).
 */
module Messages {
  import opened Addresses
  import opened Decimal
  import opened Delimited

  const CREATE := 0
  const READ := 1
  const UPDATE := 2
  const DELETE := 3
  const REPLY := 4
  const READREPLY := 5

  /** Which of the last four fields mean anything depends on the kind. */
  datatype Message = Message(transID: int, fromAddr: Address, kind: int,
                             key: string, value: string, replica: int, success: bool)

  function AddressText(a: Address): string
  {
    ToString(a.id) + ":" + ToString(a.port)
  }

  /** The cast of an int to a 16-bit short. */
  function Short(i: int): int
  {
    (i + 0x8000) % 0x1_0000 - 0x8000
  }

  predicate IsShort(i: int)
  {
    -0x8000 <= i < 0x8000
  }

  /** Without a colon, `npos` makes both numbers start at the beginning of the text. */
  function ParseAddress(s: string): Result<Address>
  {
    var pos := Find(s, ":");
    var id := Stoi(s[..pos]);
    var port := Stoi(if pos == |s| then s else s[pos + 1..]);
    if id.Err? then Err(id.error)
    else if port.Err? then Err(port.error)
    else Ok(Address(id.value, Short(port.value)))
  }

  function Payload(m: Message): seq<string>
  {
    if m.kind == CREATE || m.kind == UPDATE then [m.key, m.value, ToString(m.replica)]
    else if m.kind == READ || m.kind == DELETE then [m.key]
    else if m.kind == REPLY then [if m.success then "1" else "0"]
    else if m.kind == READREPLY then [m.value]
    else [""]
  }

  /** `toString`. */
  function Text(m: Message): string
  {
    Join([ToString(m.transID), AddressText(m.fromAddr), ToString(m.kind)] + Payload(m), "::")
  }

  /** `tuple.at(k)`, which throws when there is no such field. */
  function At(tuple: seq<string>, k: nat): Result<string>
  {
    if k < |tuple| then Ok(tuple[k]) else Err(OutOfRange)
  }

  function ParseTuple(tuple: seq<string>): Result<Message>
    requires tuple != []
  {
    var transID := Stoi(tuple[0]);
    if transID.Err? then Err(transID.error)
    else if |tuple| < 2 then Err(OutOfRange)
    else
      var from := ParseAddress(tuple[1]);
      if from.Err? then Err(from.error)
      else if |tuple| < 3 then Err(OutOfRange)
      else
        var kind := Stoi(tuple[2]);
        if kind.Err? then Err(kind.error)
        else ParsePayload(Message(transID.value, from.value, kind.value, "", "", 0, false), tuple)
  }

  /** Fields that the kind does not carry keep what they were. */
  function ParsePayload(m: Message, tuple: seq<string>): Result<Message>
  {
    if !(CREATE <= m.kind <= READREPLY) then Ok(m)
    else if |tuple| < 4 then Err(OutOfRange)
    else if m.kind == CREATE || m.kind == UPDATE then
      if |tuple| < 5 then Err(OutOfRange)
      else if |tuple| == 5 then Ok(m.(key := tuple[3], value := tuple[4]))
      else
        var replica := Stoi(tuple[5]);
        if replica.Err? then Err(replica.error) else Ok(m.(key := tuple[3], value := tuple[4], replica := replica.value))
    else if m.kind == READ || m.kind == DELETE then Ok(m.(key := tuple[3]))
    else if m.kind == REPLY then Ok(m.(success := tuple[3] == "1"))
    else Ok(m.(value := tuple[3]))
  }

  function Parse(text: string): Result<Message>
  {
    ParseTuple(Split(text, "::"))
  }

  /** The parsing constructor. */
  method FromText(text: string) returns (r: Result<Message>)
    ensures r == Parse(text)
  {
    var tuple := Tokenize(text, "::");
    r := ParseTuple(tuple);
  }

  // ---------------------------------------------------------------- the round trip

  /** The same message, as far as its kind carries it. */
  predicate SameMessage(m: Message, n: Message)
  {
    && m.transID == n.transID && m.fromAddr == n.fromAddr && m.kind == n.kind
    && (m.kind == CREATE || m.kind == UPDATE ==> m.key == n.key && m.value == n.value && m.replica == n.replica)
    && (m.kind == READ || m.kind == DELETE ==> m.key == n.key)
    && (m.kind == REPLY ==> m.success == n.success)
    && (m.kind == READREPLY ==> m.value == n.value)
  }

  predicate Ranges(m: Message)
  {
    && IsInt(m.transID) && IsInt(m.fromAddr.id) && IsShort(m.fromAddr.port) && IsInt(m.replica)
    && CREATE <= m.kind <= READREPLY
  }

  predicate Addressable(a: Address)
  {
    IsInt(a.id) && IsShort(a.port)
  }

  /** No field holds the delimiter, and none that is followed by one ends in a colon. */
  ghost predicate Safe(m: Message)
  {
    && (m.kind == CREATE || m.kind == UPDATE ==> SafeField(m.key) && SafeField(m.value))
    && (m.kind == READ || m.kind == DELETE ==> NoPair(m.key))
    && (m.kind == READREPLY ==> NoPair(m.value))
  }

  lemma ShortIs(i: int)
    requires IsShort(i)
    ensures Short(i) == i
  {
  }

  lemma NumberNoColon(i: int)
    ensures ToString(i) != [] && ':' !in ToString(i)
  {
    ToStringChars(i);
  }

  /** The fields of messages as they travel, one for each shape. */
  lemma Formats()
    ensures Text(Message(8, Address(1, 0), UPDATE, "key", "value", 2, false)) == Join(["8", "1:0", "2", "key", "value", "2"], "::")
    ensures Text(Message(8, Address(1, 0), DELETE, "key", "", 0, false)) == Join(["8", "1:0", "3", "key"], "::")
    ensures Text(Message(8, Address(4, 0), REPLY, "", "", 0, true)) == Join(["8", "4:0", "4", "1"], "::")
    ensures Text(Message(8, Address(4, 0), READREPLY, "", "value:3:0", 0, false)) == Join(["8", "4:0", "5", "value:3:0"], "::")
  {
    hide Join;
    assert ToString(8) == "8" && ToString(1) == "1" && ToString(0) == "0" && ToString(4) == "4";
    assert ToString(2) == "2" && ToString(3) == "3" && ToString(5) == "5";
    assert AddressText(Address(1, 0)) == "1:0" && AddressText(Address(4, 0)) == "4:0";
    assert ["8", "1:0", "2"] + ["key", "value", "2"] == ["8", "1:0", "2", "key", "value", "2"];
    assert ["8", "1:0", "3"] + ["key"] == ["8", "1:0", "3", "key"];
    assert ["8", "4:0", "4"] + ["1"] == ["8", "4:0", "4", "1"];
    assert ["8", "4:0", "5"] + ["value:3:0"] == ["8", "4:0", "5", "value:3:0"];
  }

  /** The 16-bit number that differs by a multiple of 65536. */
  lemma ShortIsCast(i: int)
    ensures -32768 <= Short(i) <= 32767 && (i - Short(i)) % 65536 == 0
  {
  }

  /** A text can be parsed exactly if these fields are there and these are numbers; the role may be missing. */
  lemma ParsedExactly(tuple: seq<string>)
    requires tuple != []
    ensures ParseTuple(tuple).Ok? <==>
      && |tuple| >= 3 && Stoi(tuple[0]).Ok? && ParseAddress(tuple[1]).Ok? && Stoi(tuple[2]).Ok?
      && var kind := Stoi(tuple[2]).value;
        && (CREATE <= kind <= READREPLY ==> |tuple| >= 4)
        && (kind == CREATE || kind == UPDATE ==> |tuple| >= 5 && (|tuple| > 5 ==> Stoi(tuple[5]).Ok?))
  {
    hide Stoi, ParseAddress;
  }

  lemma AddressRoundTrip(a: Address)
    requires IsInt(a.id) && IsShort(a.port)
    ensures ParseAddress(AddressText(a)) == Ok(a)
  {
    var x, y := ToString(a.id), ToString(a.port);
    var s := AddressText(a);
    NumberNoColon(a.id);
    EndsColon(x);
    FirstDelimiter(x, y, ":");
    assert s[..|x|] == x && s[|x| + 1..] == y;
    StoiOfToString(a.id, "");
    StoiOfToString(a.port, "");
    assert x + "" == x && y + "" == y;
    ShortIs(a.port);
  }

  lemma NoColonSafe(s: string)
    requires ':' !in s
    ensures Ends(s, "::") && SafeField(s)
  {
    EndsColons(s);
  }

  lemma AddressSafe(a: Address)
    ensures Ends(AddressText(a), "::")
  {
    var x, y := ToString(a.id), ToString(a.port);
    var s := AddressText(a);
    NumberNoColon(a.id);
    NumberNoColon(a.port);
    assert s[|s| - 1] == y[|y| - 1];
    forall k: nat | k < |s| ensures !PairAt(s, k) {
      if k + 1 < |s| {
        if k <= |x| - 1 {
          assert s[k] == x[k];
        } else if k >= |x| + 1 {
          assert s[k] == y[k - |x| - 1];
        } else {
          assert s[k + 1] == y[0];
        }
      }
    }
    EndsColons(s);
  }

  /** The first three fields always come back. */
  lemma HeaderSplits(m: Message)
    ensures Split(Text(m), "::") == [ToString(m.transID), AddressText(m.fromAddr), ToString(m.kind)] + Split(Join(Payload(m), "::"), "::")
  {
    var p := Payload(m);
    var f0, f1, f2 := ToString(m.transID), AddressText(m.fromAddr), ToString(m.kind);
    NumberNoColon(m.transID);
    NumberNoColon(m.kind);
    NoColonSafe(f0);
    NoColonSafe(f2);
    AddressSafe(m.fromAddr);
    var s2 := f2 + "::" + Join(p, "::");
    var s1 := f1 + "::" + s2;
    JoinHeader(f0, f1, f2, p);
    HeadOff(f2, Join(p, "::"), "::");
    HeadOff(f1, s2, "::");
    HeadOff(f0, s1, "::");
    Header(f0, f1, f2, Split(Join(p, "::"), "::"), Split(s2, "::"), Split(s1, "::"), Split(Text(m), "::"));
  }

  lemma Header(f0: string, f1: string, f2: string, p: seq<string>, s2: seq<string>, s1: seq<string>, s0: seq<string>)
    requires s2 == [f2] + p && s1 == [f1] + s2 && s0 == [f0] + s1
    ensures s0 == [f0, f1, f2] + p
  {
  }

  lemma JoinMore(f: string, rest: seq<string>, all: seq<string>)
    requires rest != [] && all == [f] + rest
    ensures Join(all, "::") == f + "::" + Join(rest, "::")
  {
    assert all[1..] == rest;
  }

  lemma JoinHeader(f0: string, f1: string, f2: string, p: seq<string>)
    requires p != []
    ensures Join([f0, f1, f2] + p, "::") == f0 + "::" + (f1 + "::" + (f2 + "::" + Join(p, "::")))
  {
    JoinMore(f2, p, [f2] + p);
    JoinMore(f1, [f2] + p, [f1, f2] + p);
    JoinMore(f0, [f1, f2] + p, [f0, f1, f2] + p);
  }

  lemma OneField(x: string)
    ensures Split(Join([x], "::"), "::")[0] == x <==> NoPair(x)
    ensures NoPair(x) ==> Split(Join([x], "::"), "::") == [x]
  {
    NoPairFinds(x);
    var k := Find(x, "::");
    if k == |x| {
      SplitEnd(x, "::", 0);
    } else {
      SplitOne(x, "::", 0, k);
      assert |x[0..k]| == k;
    }
  }

  lemma ThreeFields(x: string, y: string, z: string)
    requires ':' !in z
    ensures var p := Split(Join([x, y, z], "::"), "::");
      if Ends(x, "::") && Ends(y, "::") then p == [x, y, z] else p[0] != x || |p| < 2 || p[1] != y
  {
    JoinMore(y, [z], [y, z]);
    JoinMore(x, [y, z], [x, y, z]);
    HeadOff(y, z, "::");
    HeadOff(x, y + "::" + z, "::");
    NoColonSafe(z);
    OneField(z);
  }

  /** What parsing a printed message comes to. */
  lemma ParseOfText(m: Message)
    requires Ranges(m)
    ensures var header := [ToString(m.transID), AddressText(m.fromAddr), ToString(m.kind)];
      Parse(Text(m)) == ParsePayload(Message(m.transID, m.fromAddr, m.kind, "", "", 0, false),
                                     header + Split(Join(Payload(m), "::"), "::"))
  {
    HeaderSplits(m);
    StoiOfToString(m.transID, "");
    StoiOfToString(m.kind, "");
    assert ToString(m.transID) + "" == ToString(m.transID) && ToString(m.kind) + "" == ToString(m.kind);
    AddressRoundTrip(m.fromAddr);
  }

  lemma CreateRoundTrip(m: Message)
    requires Ranges(m) && (m.kind == CREATE || m.kind == UPDATE)
    ensures (Parse(Text(m)).Ok? && SameMessage(m, Parse(Text(m)).value)) <==> Safe(m)
  {
    ParseOfText(m);
    NumberNoColon(m.replica);
    ThreeFields(m.key, m.value, ToString(m.replica));
    EndsColons(m.key);
    EndsColons(m.value);
    StoiOfToString(m.replica, "");
    assert ToString(m.replica) + "" == ToString(m.replica);
  }

  lemma OtherRoundTrip(m: Message)
    requires Ranges(m) && m.kind != CREATE && m.kind != UPDATE
    ensures (Parse(Text(m)).Ok? && SameMessage(m, Parse(Text(m)).value)) <==> Safe(m)
  {
    ParseOfText(m);
    OneField(Payload(m)[0]);
    NoColonSafe("0");
    NoColonSafe("1");
  }

  /**
   Printing and parsing undo each other, on the fields that the kind carries, exactly for the messages
   with safe fields.
   */
  lemma RoundTrip(m: Message)
    requires Ranges(m)
    ensures (Parse(Text(m)).Ok? && SameMessage(m, Parse(Text(m)).value)) <==> Safe(m)
  {
    if m.kind == CREATE || m.kind == UPDATE {
      CreateRoundTrip(m);
    } else {
      OtherRoundTrip(m);
    }
  }

  // ---------------------------------------------------------------- what becomes of other values

  /** A number follows the first two colons in a row; or there are none, and the text does not end in a colon. */
  ghost predicate Travels(value: string)
  {
    var k := Find(value, "::");
    if k < |value| then BeginsWithInt(value[k + 2..]) else value == "" || value[|value| - 1] != ':'
  }

  lemma NumberBefore(s: string)
    ensures Stoi(Split(s, "::")[0]).Ok? <==> BeginsWithInt(s)
  {
    var k := Find(s, "::");
    SplitFirst(s, "::");
    FindBegins(s, "::");
    assert s == s[..k] + s[k..];
    StoiToColon(s[..k], s[k..]);
    StoiReads(s);
  }

  lemma ColonIsNoNumber(s: string)
    requires s != "" && s[0] == ':'
    ensures !BeginsWithInt(s)
  {
    StoiReads(s);
    assert DigitRun(s) == "";
  }

  /** The value and what follows it are told apart at the first two colons in a row. */
  lemma ValueSplits(value: string, role: string)
    requires role != "" && ':' !in role && Stoi(role).Ok?
    ensures var fields := Split(value + "::" + role, "::");
      && |fields| >= 2 && (Stoi(fields[1]).Ok? <==> Travels(value))
      && (Travels(value) ==> fields[0] == value[..Find(value, "::")])
  {
    NoPairFinds(value);
    if SafeField(value) {
      EndsColons(value);
      HeadOff(value, role, "::");
      NoColonSafe(role);
      OneField(role);
    } else if NoPair(value) {
      ColonLast(value, role);
    } else {
      PairInside(value, role);
    }
  }

  lemma ColonLast(value: string, role: string)
    requires NoPair(value) && !SafeField(value)
    ensures var fields := Split(value + "::" + role, "::");
      |fields| >= 2 && Stoi(fields[1]).Err? && !Travels(value)
  {
    var s, n := value + "::" + role, |value| - 1;
    NoPairFinds(value);
    forall j | 0 <= j <= n ensures OccursAt(s, "::", j) <==> j == n {
      PairOccurs(s, j);
      assert !PairAt(value, j);
    }
    FindIs(s, "::", n);
    SplitFirst(s, "::");
    NumberBefore(s[n + 2..]);
    ColonIsNoNumber(s[n + 2..]);
  }

  lemma PairInside(value: string, role: string)
    requires Find(value, "::") < |value|
    ensures var fields := Split(value + "::" + role, "::");
      |fields| >= 2 && (Stoi(fields[1]).Ok? <==> Travels(value)) && fields[0] == value[..Find(value, "::")]
  {
    var s, k := value + ("::" + role), Find(value, "::");
    assert s == value + "::" + role;
    FindInFront(value, "::", "::" + role);
    SplitFirst(s, "::");
    assert s[k + 2..] == value[k + 2..] + ("::" + role);
    NumberBefore(s[k + 2..]);
    StoiToColon(value[k + 2..], "::" + role);
    StoiReads(value[k + 2..]);
    StoiReads(s[k + 2..]);
    assert s[..k] == value[..k];
  }

  /** What is cut off before two colons in a row is safe. */
  lemma FrontIsSafe(value: string)
    requires Travels(value)
    ensures SafeField(value[..Find(value, "::")])
  {
    var k := Find(value, "::");
    FindIsFirst(value, "::", 0);
    forall j: nat | j < |value| ensures OccursAt(value, "::", j) <==> PairAt(value, j) {
      PairOccurs(value, j);
    }
    assert forall j: nat :: j < k ==> !OccursAt(value, "::", j);
    assert forall j: nat :: j < k ==> !PairAt(value, j);
    var front := value[..k];
    assert forall j: nat :: j < k && PairAt(front, j) ==> PairAt(value, j);
    if k < |value| && k > 0 {
      assert PairAt(value, k) && !PairAt(value, k - 1);
    }
  }

  /**
   A message whose value is any text: it can be parsed exactly if the value travels, and what arrives of the
   value ends before the first two colons in a row.
   */
  lemma ParsedUpdate(m: Message)
    requires Ranges(m) && (m.kind == CREATE || m.kind == UPDATE) && SafeField(m.key)
    ensures Parse(Text(m)).Ok? <==> Travels(m.value)
    ensures Parse(Text(m)).Ok? ==>
      var n := Parse(Text(m)).value;
      && n == m.(value := m.value[..Find(m.value, "::")], replica := n.replica, success := false)
      && SafeField(n.value)
  {
    var role := ToString(m.replica);
    RoleIsNumber(m.replica);
    ParseOfText(m);
    PayloadSplits(m.key, m.value, role);
    ValueSplits(m.value, role);
    ParsedFields(m, [ToString(m.transID), AddressText(m.fromAddr), ToString(m.kind)], Split(m.value + "::" + role, "::"));
    if Travels(m.value) {
      FrontIsSafe(m.value);
    }
  }

  lemma RoleIsNumber(i: int)
    requires IsInt(i)
    ensures ToString(i) != "" && ':' !in ToString(i) && Stoi(ToString(i)).Ok?
  {
    NumberNoColon(i);
    StoiOfToString(i, "");
    assert ToString(i) + "" == ToString(i);
  }

  lemma ParsedFields(m: Message, header: seq<string>, fields: seq<string>)
    requires (m.kind == CREATE || m.kind == UPDATE) && |header| == 3 && |fields| >= 2
    ensures var n := ParsePayload(Message(m.transID, m.fromAddr, m.kind, "", "", 0, false), header + ([m.key] + fields));
      && (n.Ok? <==> Stoi(fields[1]).Ok?)
      && (n.Ok? ==> n.value == m.(value := fields[0], replica := n.value.replica, success := false))
  {
  }

  lemma PayloadSplits(key: string, value: string, role: string)
    requires SafeField(key)
    ensures Split(Join([key, value, role], "::"), "::") == [key] + Split(value + "::" + role, "::")
  {
    JoinMore(value, [role], [value, role]);
    JoinMore(key, [value, role], [key, value, role]);
    EndsColons(key);
    HeadOff(key, value + "::" + role, "::");
  }

  /** Whatever a client gives for key and value, what arrives of them is safe. */
  lemma ArrivesSafe(m: Message)
    requires Ranges(m) && (m.kind == CREATE || m.kind == UPDATE) && Parse(Text(m)).Ok?
    ensures SafeField(Parse(Text(m)).value.key) && SafeField(Parse(Text(m)).value.value)
  {
    var fields := Split(Join(Payload(m), "::"), "::");
    PayloadCount(m.key, m.value, ToString(m.replica));
    FirstTwoSafe(Join(Payload(m), "::"));
    ParseOfText(m);
    TwoFields(m, [ToString(m.transID), AddressText(m.fromAddr), ToString(m.kind)], fields);
  }

  lemma FirstTwoSafe(s: string)
    requires |Split(s, "::")| >= 3
    ensures SafeField(Split(s, "::")[0]) && SafeField(Split(s, "::")[1])
  {
    hide *;
    FromStart(s, "::");
    FieldsSafe(s, 0);
  }

  lemma PayloadCount(key: string, value: string, role: string)
    ensures |Split(Join([key, value, role], "::"), "::")| >= 3
  {
    JoinMore(value, [role], [value, role]);
    JoinMore(key, [value, role], [key, value, role]);
    FieldInFront(value, role, "::");
    FieldInFront(key, value + "::" + role, "::");
  }

  lemma TwoFields(m: Message, header: seq<string>, fields: seq<string>)
    requires (m.kind == CREATE || m.kind == UPDATE) && |header| == 3 && |fields| >= 3
    ensures var n := ParsePayload(Message(m.transID, m.fromAddr, m.kind, "", "", 0, false), header + fields);
      n.Ok? ==> n.value.key == fields[0] && n.value.value == fields[1] && n.value.kind == m.kind
  {
  }
}
