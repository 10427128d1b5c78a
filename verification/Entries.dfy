/**
 Stored entries (key-value-store/Entry.cpp): a value, a time and a role joined by ":". Storing an entry
 that is already text wraps it once more.
 */
module Entries {
  import opened Decimal
  import opened Delimited

  datatype StoredEntry = StoredEntry(value: string, timestamp: int, replica: int)

  /** `convertToString`. */
  function EntryText(e: StoredEntry): string
  {
    e.value + ":" + ToString(e.timestamp) + ":" + ToString(e.replica)
  }

  function EntryOfTuple(tuple: seq<string>): Result<StoredEntry>
    requires tuple != []
  {
    if |tuple| < 2 then Err(OutOfRange)
    else
      var timestamp := Stoi(tuple[1]);
      if timestamp.Err? then Err(timestamp.error)
      else if |tuple| < 3 then Err(OutOfRange)
      else
        var replica := Stoi(tuple[2]);
        if replica.Err? then Err(replica.error) else Ok(StoredEntry(tuple[0], timestamp.value, replica.value))
  }

  function ParseEntry(text: string): Result<StoredEntry>
  {
    EntryOfTuple(Split(text, ":"))
  }

  /** The parsing constructor. */
  method EntryFromText(text: string) returns (r: Result<StoredEntry>)
    ensures r == ParseEntry(text)
  {
    var tuple := Tokenize(text, ":");
    r := EntryOfTuple(tuple);
  }

  /** What a reader finds in the text. */
  predicate Reads(text: string, value: string)
  {
    ParseEntry(text).Ok? && ParseEntry(text).value.value == value
  }

  // ---------------------------------------------------------------- splitting at single characters

  lemma {:induction false} FindBeforeColon(x: string, s: string, start: nat)
    requires |x| < |s| && s[..|x|] == x && s[|x|] == ':' && start <= |x|
    ensures FindFrom(s, ":", start) == FindFrom(x, ":", start)
    decreases |x| - start
  {
    assert s[start..start + 1] == [s[start]];
    if start < |x| {
      assert x[start..start + 1] == [x[start]];
      assert x[start] == s[start];
      if x[start] != ':' {
        FindBeforeColon(x, s, start + 1);
      }
    }
  }

  /** Fields put behind a colon come after the others. */
  lemma {:induction false} SplitAppend(x: string, y: string, s: string, start: nat)
    requires s == x + ":" + y && start <= |x|
    ensures SplitFrom(s, ":", start) == SplitFrom(x, ":", start) + Split(y, ":")
    decreases |x| - start
  {
    assert s[..|x|] == x;
    FindBeforeColon(x, s, start);
    var k := FindFrom(x, ":", start);
    if k < |x| {
      SplitAppend(x, y, s, k + 1);
      FieldBefore(x, y, s, start, k);
    } else {
      LastField(x, y, s, start);
    }
  }

  lemma FieldBefore(x: string, y: string, s: string, start: nat, k: nat)
    requires s == x + ":" + y && start <= |x| && FindFrom(x, ":", start) == FindFrom(s, ":", start) == k < |x|
    requires SplitFrom(s, ":", k + 1) == SplitFrom(x, ":", k + 1) + Split(y, ":")
    ensures SplitFrom(s, ":", start) == SplitFrom(x, ":", start) + Split(y, ":")
  {
    hide SplitFrom, FindFrom, Split;
    SplitOne(s, ":", start, k);
    SplitOne(x, ":", start, k);
    assert s[start..k] == x[start..k];
    Associate(SplitFrom(s, ":", start), s[start..k], SplitFrom(s, ":", k + 1), SplitFrom(x, ":", k + 1), Split(y, ":"),
              SplitFrom(x, ":", start));
  }

  lemma LastField(x: string, y: string, s: string, start: nat)
    requires s == x + ":" + y && start <= |x| && FindFrom(x, ":", start) == FindFrom(s, ":", start) == |x|
    ensures SplitFrom(s, ":", start) == SplitFrom(x, ":", start) + Split(y, ":")
  {
    SplitOne(s, ":", start, |x|);
    SplitEnd(x, ":", start);
    TailSplits(x, y, s);
    assert s[start..|x|] == x[start..];
  }

  lemma TailSplits(x: string, y: string, s: string)
    requires s == x + ":" + y
    ensures SplitFrom(s, ":", |x| + 1) == Split(y, ":")
  {
    SplitTail(s, |x| + 1, y, ":", 0);
  }

  lemma Associate(a: seq<string>, f: string, r: seq<string>, p: seq<string>, q: seq<string>, b: seq<string>)
    requires a == [f] + r && r == p + q && b == [f] + p
    ensures a == b + q
  {
  }

  lemma OneNumber(i: int)
    ensures Split(ToString(i), ":") == [ToString(i)]
  {
    ToStringChars(i);
    EndsColon(ToString(i));
    SplitEnd(ToString(i), ":", 0);
  }

  lemma EntrySplits(e: StoredEntry)
    ensures Split(EntryText(e), ":") == Split(e.value, ":") + [ToString(e.timestamp), ToString(e.replica)]
  {
    var t, r := ToString(e.timestamp), ToString(e.replica);
    SplitAppend(e.value + ":" + t, r, EntryText(e), 0);
    SplitAppend(e.value, t, e.value + ":" + t, 0);
    OneNumber(e.timestamp);
    OneNumber(e.replica);
    Twice(Split(e.value, ":"), t, r);
  }

  lemma Twice(p: seq<string>, t: string, r: string)
    ensures (p + [t]) + [r] == p + [t, r]
  {
  }

  // ---------------------------------------------------------------- what readers see

  /** A first wrap is read back exactly for the values without a colon. */
  lemma WrapIsRead(value: string, timestamp: int, replica: int)
    requires IsInt(timestamp) && IsInt(replica)
    ensures Reads(EntryText(StoredEntry(value, timestamp, replica)), value) <==> ':' !in value
    ensures ':' !in value ==> ParseEntry(EntryText(StoredEntry(value, timestamp, replica))) == Ok(StoredEntry(value, timestamp, replica))
  {
    EntrySplits(StoredEntry(value, timestamp, replica));
    EndsColon(value);
    StoiOfToString(timestamp, "");
    StoiOfToString(replica, "");
    assert ToString(timestamp) + "" == ToString(timestamp) && ToString(replica) + "" == ToString(replica);
    var k := Find(value, ":");
    if k == |value| {
      SplitEnd(value, ":", 0);
    } else {
      SplitOne(value, ":", 0, k);
      assert |value[0..k]| == k;
    }
  }

  /** The value is followed by the time and then the role. */
  lemma EntryFormat()
    ensures EntryText(StoredEntry("newValue", 12, 1)) == "newValue:12:1"
  {
    assert NatString(12) == "12";
  }

  /** Wrapping what can be read changes nothing for the reader, whatever time and role are put on. */
  lemma RewrapInvisible(text: string, timestamp: int, replica: int)
    requires ParseEntry(text).Ok?
    ensures ParseEntry(EntryText(StoredEntry(text, timestamp, replica))) == ParseEntry(text)
  {
    EntrySplits(StoredEntry(text, timestamp, replica));
    FirstThree(Split(text, ":"), [ToString(timestamp), ToString(replica)]);
  }

  lemma FirstThree(tuple: seq<string>, more: seq<string>)
    requires tuple != [] && EntryOfTuple(tuple).Ok?
    ensures EntryOfTuple(tuple + more) == EntryOfTuple(tuple)
  {
  }

  /** Any number of times. */
  function Rewrapped(text: string, wraps: seq<(int, int)>): string
  {
    if wraps == [] then text
    else
      var n := |wraps| - 1;
      EntryText(StoredEntry(Rewrapped(text, wraps[..n]), wraps[n].0, wraps[n].1))
  }

  lemma {:induction false} RewrappedIsRead(value: string, timestamp: int, replica: int, wraps: seq<(int, int)>)
    requires IsInt(timestamp) && IsInt(replica) && ':' !in value
    ensures Reads(Rewrapped(EntryText(StoredEntry(value, timestamp, replica)), wraps), value)
    ensures Rewrapped(EntryText(StoredEntry(value, timestamp, replica)), wraps) != ""
  {
    var text := EntryText(StoredEntry(value, timestamp, replica));
    if wraps == [] {
      WrapIsRead(value, timestamp, replica);
    } else {
      var n := |wraps| - 1;
      RewrappedIsRead(value, timestamp, replica, wraps[..n]);
      RewrapInvisible(Rewrapped(text, wraps[..n]), wraps[n].0, wraps[n].1);
    }
  }

  /** A number follows the first colon of the text, and the second, if there are such. */
  ghost predicate Legible(s: string)
  {
    var rest := AfterColon(s);
    Find(s, ":") < |s| ==> BeginsWithInt(rest) && (Find(rest, ":") < |rest| ==> BeginsWithInt(AfterColon(rest)))
  }

  function AfterColon(s: string): string
  {
    var k := Find(s, ":");
    if k < |s| then s[k + 1..] else ""
  }

  lemma NumberInFront(s: string)
    ensures Stoi(Split(s, ":")[0]).Ok? <==> BeginsWithInt(s)
  {
    var k := Find(s, ":");
    SplitFirst(s, ":");
    FindBegins(s, ":");
    assert s == s[..k] + s[k..];
    StoiToColon(s[..k], s[k..]);
    StoiReads(s);
  }

  lemma NumberIsRead(i: int)
    requires IsInt(i)
    ensures Stoi(ToString(i)) == Ok(i)
  {
    StoiOfToString(i, "");
    assert ToString(i) + "" == ToString(i);
  }

  lemma EntryNumbers(tuple: seq<string>, time: string, role: string)
    requires tuple != [] && Stoi(time).Ok? && Stoi(role).Ok?
    ensures var e := EntryOfTuple(tuple + [time, role]);
      && (e.Ok? <==> (|tuple| >= 2 ==> NumbersFirst(tuple[1..])))
      && (e.Ok? ==> e.value.value == tuple[0])
  {
  }

  /** A number for a field, and for the next if there is one. */
  predicate NumbersFirst(fields: seq<string>)
    requires fields != []
  {
    Stoi(fields[0]).Ok? && (|fields| >= 2 ==> Stoi(fields[1]).Ok?)
  }

  lemma NumbersAfterColon(rest: string)
    ensures NumbersFirst(Split(rest, ":")) <==> BeginsWithInt(rest) && (Find(rest, ":") < |rest| ==> BeginsWithInt(AfterColon(rest)))
  {
    NumberInFront(rest);
    SecondNumber(rest);
  }

  lemma SecondNumber(rest: string)
    ensures |Split(rest, ":")| >= 2 <==> Find(rest, ":") < |rest|
    ensures Find(rest, ":") < |rest| ==> (Stoi(Split(rest, ":")[1]).Ok? <==> BeginsWithInt(AfterColon(rest)))
  {
    SplitFirst(rest, ":");
    if Find(rest, ":") < |rest| {
      var more := Split(AfterColon(rest), ":");
      assert Split(rest, ":")[1] == more[0];
      NumberInFront(AfterColon(rest));
    }
  }

  lemma LegibleFields(value: string)
    ensures var tuple := Split(value, ":");
      tuple[0] == value[..Find(value, ":")] && (Legible(value) <==> (|tuple| >= 2 ==> NumbersFirst(tuple[1..])))
  {
    SplitFirst(value, ":");
    if Find(value, ":") < |value| {
      NumbersAfterColon(AfterColon(value));
      assert Split(value, ":")[1..] == Split(AfterColon(value), ":");
    }
  }

  /** A first wrap can be read exactly for the legible values, and what is found ends before the first colon. */
  lemma WrapReads(value: string, timestamp: int, replica: int)
    requires IsInt(timestamp) && IsInt(replica)
    ensures var e := ParseEntry(EntryText(StoredEntry(value, timestamp, replica)));
      (e.Ok? <==> Legible(value)) && (e.Ok? ==> e.value.value == value[..Find(value, ":")])
  {
    EntrySplits(StoredEntry(value, timestamp, replica));
    NumberIsRead(timestamp);
    NumberIsRead(replica);
    EntryNumbers(Split(value, ":"), ToString(timestamp), ToString(replica));
    LegibleFields(value);
  }

  // ---------------------------------------------------------------- entries travel in messages

  lemma SafeAppend(s: string, i: int)
    requires SafeField(s)
    ensures SafeField(s + ":" + ToString(i))
  {
    ToStringChars(i);
    var n := ToString(i);
    var t := s + ":" + n;
    assert t[|t| - 1] == n[|n| - 1];
    forall k: nat | k < |t| ensures !PairAt(t, k) {
      if k + 1 < |s| {
        assert !PairAt(s, k);
      } else if k >= |s| + 1 {
        assert t[k] == n[k - |s| - 1];
      } else if k + 1 == |s| {
        assert t[k] == s[k];
      } else if k == |s| && k + 1 < |t| {
        assert t[k + 1] == n[0];
      }
    }
  }

  /** So wrapping keeps it fit to travel, and no wrapped text is empty. */
  lemma WrapSafe(text: string, timestamp: int, replica: int)
    requires SafeField(text)
    ensures SafeField(EntryText(StoredEntry(text, timestamp, replica))) && EntryText(StoredEntry(text, timestamp, replica)) != ""
  {
    SafeAppend(text, timestamp);
    SafeAppend(text + ":" + ToString(timestamp), replica);
  }
}
