/**
 Fields joined by a delimiter, and the scan that takes them apart again: the format of messages
 (key-value-store/Message.cpp, "::") and of stored entries (key-value-store/Entry.cpp, ":").
 */
module Delimited {
  import opened Collections

  predicate OccursAt(s: string, d: string, k: int)
  {
    0 <= k <= |s| - |d| && s[k..k + |d|] == d
  }

  /** `string::find` from the beginning; the length of `s` stands for `npos`. */
  function Find(s: string, d: string): (k: nat)
    requires d != []
    ensures k <= |s| && (k < |s| ==> k + |d| <= |s|)
  {
    FindFrom(s, d, 0)
  }

  function FindFrom(s: string, d: string, start: nat): (k: nat)
    requires d != [] && start <= |s|
    ensures start <= k <= |s| && (k < |s| ==> k + |d| <= |s|)
    decreases |s| - start
  {
    if start == |s| || OccursAt(s, d, start) then start else FindFrom(s, d, start + 1)
  }

  /** The first occurrence, if there is one. */
  lemma {:induction false} FindIsFirst(s: string, d: string, start: nat)
    requires d != [] && start <= |s|
    ensures forall j :: start <= j < FindFrom(s, d, start) ==> !OccursAt(s, d, j)
    ensures FindFrom(s, d, start) < |s| ==> OccursAt(s, d, FindFrom(s, d, start))
    decreases |s| - start
  {
    if start < |s| && !OccursAt(s, d, start) {
      FindIsFirst(s, d, start + 1);
    }
  }

  lemma FindIs(s: string, d: string, k: nat)
    requires d != [] && OccursAt(s, d, k) && forall j :: 0 <= j < k ==> !OccursAt(s, d, j)
    ensures Find(s, d) == k
  {
    FindIsFirst(s, d, 0);
  }

  lemma FindNone(s: string, d: string)
    requires d != [] && forall j :: 0 <= j < |s| ==> !OccursAt(s, d, j)
    ensures Find(s, d) == |s|
  {
    FindIsFirst(s, d, 0);
  }

  function Split(s: string, d: string): (fields: seq<string>)
    requires d != []
    ensures fields != []
  {
    SplitFrom(s, d, 0)
  }

  function SplitFrom(s: string, d: string, start: nat): (fields: seq<string>)
    requires d != [] && start <= |s|
    ensures fields != []
    decreases |s| - start
  {
    var k := FindFrom(s, d, start);
    if k == |s| then [s[start..]] else [s[start..k]] + SplitFrom(s, d, k + |d|)
  }

  function Join(fields: seq<string>, d: string): string
    requires fields != []
  {
    if |fields| == 1 then fields[0] else fields[0] + d + Join(fields[1..], d)
  }

  /** The scan loop of both parsers. */
  method Tokenize(s: string, d: string) returns (tuple: seq<string>)
    requires d != []
    ensures tuple == Split(s, d)
  {
    tuple := [];
    var start := 0;
    var pos := FindFrom(s, d, 0);
    NothingScanned(s, d);
    while pos != |s|
      invariant 0 <= start <= pos <= |s| && pos == FindFrom(s, d, start)
      invariant Scanned(tuple, s, d, start)
      decreases |s| - start
    {
      tuple, start := NextField(tuple, s, d, start, pos);
      pos := FindFrom(s, d, start);
    }
    ScanLast(tuple, s, d, start);
    tuple := tuple + [s[start..]];
  }

  method NextField(tuple: seq<string>, s: string, d: string, start: nat, pos: nat) returns (tuple': seq<string>, start': nat)
    requires d != [] && Scanned(tuple, s, d, start) && pos == FindFrom(s, d, start) < |s|
    ensures start' == pos + |d| && tuple' == tuple + [s[start..pos]] && Scanned(tuple', s, d, start')
  {
    ScanOne(tuple, s, d, start);
    tuple' := tuple + [s[start..pos]];
    start' := pos + |d|;
  }

  /** The fields before `start` have been found. */
  predicate Scanned(tuple: seq<string>, s: string, d: string, start: nat)
    requires d != []
  {
    start <= |s| && tuple + SplitFrom(s, d, start) == Split(s, d)
  }

  lemma NothingScanned(s: string, d: string)
    requires d != []
    ensures Scanned([], s, d, 0)
  {
  }

  lemma ScanLast(tuple: seq<string>, s: string, d: string, start: nat)
    requires d != [] && Scanned(tuple, s, d, start) && FindFrom(s, d, start) == |s|
    ensures tuple + [s[start..]] == Split(s, d)
  {
  }

  lemma ScanOne(tuple: seq<string>, s: string, d: string, start: nat)
    requires d != [] && Scanned(tuple, s, d, start) && FindFrom(s, d, start) < |s|
    ensures var k := FindFrom(s, d, start);
      Scanned(tuple + [s[start..k]], s, d, k + |d|)
  {
    var k := FindFrom(s, d, start);
    SplitOne(s, d, start, k);
    Regroup(tuple, [s[start..k]], SplitFrom(s, d, k + |d|));
  }

  /** `y` is what follows the first `off` characters of `s`. */
  predicate Tail(s: string, off: nat, y: string)
  {
    |s| == off + |y| && forall i :: off <= i < |s| ==> s[i] == y[i - off]
  }

  lemma SliceTail(s: string, off: nat, y: string, a: nat, b: nat)
    requires Tail(s, off, y) && a <= b <= |y|
    ensures s[off + a..off + b] == y[a..b] && s[off + a..] == y[a..]
  {
  }

  lemma SplitOne(s: string, d: string, start: nat, k: nat)
    requires d != [] && start <= |s| && FindFrom(s, d, start) == k < |s|
    ensures SplitFrom(s, d, start) == [s[start..k]] + SplitFrom(s, d, k + |d|)
  {
  }

  lemma TailOne(s: string, d: string, start: nat, k: nat, field: string)
    requires d != [] && start <= |s| && FindFrom(s, d, start) == k < |s| && s[start..k] == field
    ensures SplitFrom(s, d, start) == [field] + SplitFrom(s, d, k + |d|)
  {
    SplitOne(s, d, start, k);
    SameHead(s[start..k], field, SplitFrom(s, d, k + |d|));
  }

  lemma SameHead(f: string, g: string, rest: seq<string>)
    requires f == g
    ensures [f] + rest == [g] + rest
  {
  }

  lemma SplitEnd(s: string, d: string, start: nat)
    requires d != [] && start <= |s| && FindFrom(s, d, start) == |s|
    ensures SplitFrom(s, d, start) == [s[start..]]
  {
  }

  lemma OccursInTail(s: string, off: nat, y: string, d: string, k: nat)
    requires Tail(s, off, y)
    ensures OccursAt(s, d, off + k) <==> OccursAt(y, d, k)
  {
    if k + |d| <= |y| {
      SliceTail(s, off, y, k, k + |d|);
    }
  }

  lemma {:induction false} FindInTail(s: string, off: nat, y: string, d: string, start: nat)
    requires d != [] && Tail(s, off, y) && start <= |y|
    ensures FindFrom(s, d, off + start) == off + FindFrom(y, d, start)
    decreases |y| - start
  {
    OccursInTail(s, off, y, d, start);
    if start < |y| && !OccursAt(y, d, start) {
      FindInTail(s, off, y, d, start + 1);
    }
  }

  lemma {:induction false} SplitTail(s: string, off: nat, y: string, d: string, start: nat)
    requires d != [] && Tail(s, off, y) && start <= |y|
    ensures SplitFrom(s, d, off + start) == SplitFrom(y, d, start)
    decreases |y| - start
  {
    FindInTail(s, off, y, d, start);
    var k := FindFrom(y, d, start);
    if k < |y| {
      SplitTail(s, off, y, d, k + |d|);
      SameField(s, off, y, d, start, k);
    } else {
      SameEnd(s, off, y, d, start);
    }
  }

  lemma SameField(s: string, off: nat, y: string, d: string, start: nat, k: nat)
    requires d != [] && Tail(s, off, y) && start <= |y|
    requires FindFrom(y, d, start) == k < |y| && FindFrom(s, d, off + start) == off + k
    requires SplitFrom(s, d, off + (k + |d|)) == SplitFrom(y, d, k + |d|)
    ensures SplitFrom(s, d, off + start) == SplitFrom(y, d, start)
  {
    hide SplitFrom, FindFrom;
    SliceTail(s, off, y, start, k);
    TailOne(s, d, off + start, off + k, y[start..k]);
    SplitOne(y, d, start, k);
  }

  lemma SameEnd(s: string, off: nat, y: string, d: string, start: nat)
    requires d != [] && Tail(s, off, y) && start <= |y|
    requires FindFrom(y, d, start) == |y| && FindFrom(s, d, off + start) == |s|
    ensures SplitFrom(s, d, off + start) == SplitFrom(y, d, start)
  {
    SliceTail(s, off, y, start, start);
    SplitEnd(s, d, off + start);
    SplitEnd(y, d, start);
  }

  lemma SplitRest(s: string, d: string, off: nat)
    requires d != [] && off <= |s|
    ensures SplitFrom(s, d, off) == Split(s[off..], d)
  {
    SplitTail(s, off, s[off..], d, 0);
  }

  lemma FromStart(s: string, d: string)
    requires d != []
    ensures Split(s, d) == SplitFrom(s, d, 0) && Find(s, d) == FindFrom(s, d, 0)
  {
  }

  /** The first field, and the fields of the rest. */
  lemma SplitFirst(s: string, d: string)
    requires d != []
    ensures var k := Find(s, d);
      Split(s, d) == if k == |s| then [s] else [s[..k]] + Split(s[k + |d|..], d)
  {
    hide *;
    var k := Find(s, d);
    FromStart(s, d);
    if k == |s| {
      SplitEnd(s, d, 0);
      assert s[0..] == s;
    } else {
      assert s[0..k] == s[..k];
      TailOne(s, d, 0, k, s[..k]);
      SplitRest(s, d, k + |d|);
    }
  }

  lemma FindBegins(s: string, d: string)
    requires d != []
    ensures var k := Find(s, d);
      k < |s| ==> s[k] == d[0]
  {
    FindIsFirst(s, d, 0);
    var k := Find(s, d);
    if k < |s| {
      assert s[k] == s[k..k + |d|][0];
    }
  }

  lemma FindInFront(s: string, d: string, more: string)
    requires d != [] && Find(s, d) < |s|
    ensures Find(s + more, d) == Find(s, d)
  {
    var k := Find(s, d);
    FindIsFirst(s, d, 0);
    forall j | 0 <= j <= k ensures OccursAt(s + more, d, j) <==> OccursAt(s, d, j) {
      if j + |d| <= |s| {
        OccursInPrefix(s, more, d, j);
      }
    }
    FindIs(s + more, d, k);
  }

  // ---------------------------------------------------------------- when the fields come back

  /** A field followed by the delimiter is read back whole: no delimiter begins inside it. */
  predicate Ends(field: string, d: string)
    requires d != []
  {
    Find(field + d, d) == |field|
  }

  /** All fields but the last end where they should, and the last holds no delimiter. */
  predicate Separable(fields: seq<string>, d: string)
    requires d != [] && fields != []
  {
    if |fields| == 1 then Find(fields[0], d) == |fields[0]|
    else Ends(fields[0], d) && Separable(fields[1..], d)
  }

  lemma OccursInPrefix(x: string, y: string, d: string, k: int)
    requires 0 <= k <= |x| - |d|
    ensures OccursAt(x + y, d, k) <==> OccursAt(x, d, k)
  {
    assert (x + y)[k..k + |d|] == x[k..k + |d|];
  }

  lemma FirstDelimiter(field: string, rest: string, d: string)
    requires d != []
    ensures Find(field + d + rest, d) == Find(field + d, d) <= |field|
  {
    var x := field + d;
    assert x[|field|..|field| + |d|] == d;
    var k := Find(x, d);
    FindIsFirst(x, d, 0);
    assert OccursAt(x, d, |field|);
    forall j | 0 <= j < k ensures !OccursAt(x + rest, d, j) {
      OccursInPrefix(x, rest, d, j);
    }
    OccursInPrefix(x, rest, d, k);
    FindIs(x + rest, d, k);
  }

  lemma HeadOff(field: string, rest: string, d: string)
    requires d != []
    ensures var s := field + d + rest;
      if Ends(field, d) then Split(s, d) == [field] + Split(rest, d) else Split(s, d)[0] != field
  {
    var s := field + d + rest;
    FirstDelimiter(field, rest, d);
    var k := Find(s, d);
    if k == |field| {
      assert s[0..k] == field;
      SplitTail(s, |field| + |d|, rest, d, 0);
    } else {
      assert |s[0..k]| < |field|;
    }
  }

  /** Joining and splitting undo each other exactly for the separable lists of fields. */
  lemma {:induction false} SplitJoin(fields: seq<string>, d: string)
    requires d != [] && fields != []
    ensures Split(Join(fields, d), d) == fields <==> Separable(fields, d)
    decreases |fields|
  {
    if |fields| == 1 {
      assert fields == [fields[0]];
    } else {
      SplitJoin(fields[1..], d);
      HeadOff(fields[0], Join(fields[1..], d), d);
      assert fields == [fields[0]] + fields[1..];
    }
  }

  // ---------------------------------------------------------------- the two delimiters

  /** For ":" a field must not hold a colon. */
  lemma EndsColon(field: string)
    ensures Ends(field, ":") <==> ':' !in field
    ensures Find(field, ":") == |field| <==> ':' !in field
  {
    var x := field + ":";
    forall k | 0 <= k < |field| ensures OccursAt(x, ":", k) <==> field[k] == ':' {
      assert x[k..k + 1] == [field[k]];
    }
    forall k | 0 <= k < |field| ensures OccursAt(field, ":", k) <==> field[k] == ':' {
      assert field[k..k + 1] == [field[k]];
    }
    assert x[|field|..|field| + 1] == ":";
    assert OccursAt(x, ":", |field|);
    FindIsFirst(x, ":", 0);
    FindIsFirst(field, ":", 0);
    if ':' !in field {
      FindIs(x, ":", |field|);
      FindNone(field, ":");
    }
  }

  predicate PairAt(s: string, k: nat)
  {
    k + 1 < |s| && s[k] == ':' && s[k + 1] == ':'
  }

  predicate NoPair(s: string)
  {
    forall k: nat :: k < |s| ==> !PairAt(s, k)
  }

  /** Fit for a field of a message: no two colons in a row, and none at the end. */
  predicate SafeField(s: string)
  {
    NoPair(s) && (s != [] ==> s[|s| - 1] != ':')
  }

  lemma PairOccurs(s: string, k: nat)
    ensures OccursAt(s, "::", k) <==> PairAt(s, k)
  {
    if k + 2 <= |s| {
      assert s[k..k + 2] == [s[k], s[k + 1]];
    }
  }

  lemma NoPairFinds(s: string)
    ensures Find(s, "::") == |s| <==> NoPair(s)
  {
    forall k: nat ensures OccursAt(s, "::", k) <==> PairAt(s, k) {
      PairOccurs(s, k);
    }
    FindIsFirst(s, "::", 0);
    if NoPair(s) {
      FindNone(s, "::");
    }
  }

  lemma PairOrColon(field: string, k: nat)
    requires k < |field|
    ensures OccursAt(field + "::", "::", k) <==> PairAt(field, k) || (k + 1 == |field| && field[k] == ':')
  {
    PairOccurs(field + "::", k);
  }

  /** For "::" it must not hold two in a row, nor end in one. */
  lemma EndsColons(field: string)
    ensures Ends(field, "::") <==> SafeField(field)
  {
    var x := field + "::";
    PairOccurs(x, |field|);
    forall k: nat | k < |field| ensures OccursAt(x, "::", k) <==> PairAt(field, k) || (k + 1 == |field| && field[k] == ':') {
      PairOrColon(field, k);
    }
    FindIsFirst(x, "::", 0);
    if SafeField(field) {
      FindIs(x, "::", |field|);
    }
  }

  /** Whatever the text, a field that another follows is safe. */
  lemma {:induction false} FieldsSafe(s: string, start: nat)
    requires start <= |s|
    ensures var fields := SplitFrom(s, "::", start);
      forall i :: 0 <= i < |fields| - 1 ==> SafeField(fields[i])
    decreases |s| - start
  {
    var k := FindFrom(s, "::", start);
    if k < |s| {
      FieldsSafe(s, k + 2);
      SplitOne(s, "::", start, k);
      FieldSafe(s, start, k);
    }
  }

  lemma FieldSafe(s: string, start: nat, k: nat)
    requires start <= k < |s| && FindFrom(s, "::", start) == k
    ensures SafeField(s[start..k])
  {
    FindIsFirst(s, "::", start);
    forall j: nat | start <= j <= k ensures OccursAt(s, "::", j) <==> PairAt(s, j) {
      PairOccurs(s, j);
    }
    assert forall j: nat :: start <= j < k ==> !OccursAt(s, "::", j);
    assert forall j: nat :: start <= j < k ==> !PairAt(s, j);
    var f := s[start..k];
    assert forall j: nat :: j < |f| && PairAt(f, j) ==> PairAt(s, start + j);
    if start < k {
      assert OccursAt(s, "::", k) && !PairAt(s, k - 1);
    }
  }

  lemma {:induction false} FindLater(s: string, d: string, start: nat, later: nat)
    requires d != [] && start <= later <= |s|
    ensures FindFrom(s, d, start) <= FindFrom(s, d, later)
    decreases later - start
  {
    if start < later && start < |s| && !OccursAt(s, d, start) {
      FindLater(s, d, start + 1, later);
    }
  }

  /** Scanning from further on finds no more fields. */
  lemma {:induction false} FewerFields(s: string, d: string, start: nat, later: nat)
    requires d != [] && start <= later <= |s|
    ensures |SplitFrom(s, d, start)| >= |SplitFrom(s, d, later)|
    decreases |s| - start
  {
    hide *;
    FindLater(s, d, start, later);
    var k, l := FindFrom(s, d, start), FindFrom(s, d, later);
    if l < |s| {
      SplitOne(s, d, start, k);
      SplitOne(s, d, later, l);
      FewerFields(s, d, k + |d|, l + |d|);
    } else {
      SplitEnd(s, d, later);
    }
  }

  lemma FieldsOfTail(s: string, d: string, off: nat, rest: string)
    requires d != [] && Tail(s, off, rest) && Find(s, d) < |s| && Find(s, d) + |d| <= off
    ensures |Split(s, d)| >= 1 + |Split(rest, d)|
  {
    hide *;
    var k := Find(s, d);
    TailLength(s, off, rest);
    FromStart(s, d);
    FromStart(rest, d);
    SplitOne(s, d, 0, k);
    FewerFields(s, d, k + |d|, off);
    SplitTail(s, off, rest, d, 0);
  }

  lemma TailLength(s: string, off: nat, y: string)
    requires Tail(s, off, y)
    ensures |s| == off + |y|
  {
  }

  lemma FrontTail(x: string, y: string)
    ensures Tail(x + y, |x|, y)
  {
  }

  /** So no field is lost by what stands in front of it. */
  lemma FieldInFront(field: string, rest: string, d: string)
    requires d != []
    ensures |Split(field + d + rest, d)| >= 1 + |Split(rest, d)|
  {
    hide *;
    FirstDelimiter(field, rest, d);
    FrontTail(field + d, rest);
    FieldsOfTail(field + d + rest, d, |field| + |d|, rest);
  }
}
