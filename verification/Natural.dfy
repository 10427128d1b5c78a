/**
 The order of strings, and the natural order in which the controller sorts names
 (emulated-sdn-application/minidc/controller/topo.py, natural_sort): digit runs compare as numbers.
 */
module Natural {
  import opened Decimal

  predicate StringLeq(s: string, t: string)
  {
    s == [] || (t != [] && (s[0] < t[0] || (s[0] == t[0] && StringLeq(s[1..], t[1..]))))
  }

  lemma {:induction false} StringLeqTotal(s: string, t: string)
    ensures StringLeq(s, t) || StringLeq(t, s)
    ensures StringLeq(s, t) && StringLeq(t, s) ==> s == t
  {
    if s != [] && t != [] && s[0] == t[0] {
      StringLeqTotal(s[1..], t[1..]);
      assert s == [s[0]] + s[1..] && t == [t[0]] + t[1..];
    }
  }

  lemma {:induction false} StringLeqTransitive(s: string, t: string, u: string)
    requires StringLeq(s, t) && StringLeq(t, u)
    ensures StringLeq(s, u)
  {
    if s != [] && s[0] == t[0] && t[0] == u[0] {
      StringLeqTransitive(s[1..], t[1..], u[1..]);
    }
  }

  // ---------------------------------------------------------------- sort keys

  /** An element of a sort key: the text between numbers, or a number. */
  datatype Token = Text(text: string) | Num(n: nat)

  function TextRun(s: string): (r: string)
    ensures r <= s && (|r| < |s| ==> IsDigit(s[|r|]))
  {
    if s == [] || IsDigit(s[0]) then []
    else
      var r := [s[0]] + TextRun(s[1..]);
      r
  }

  /** The string split at its digit runs, the runs turned into numbers. */
  function NaturalKey(s: string): seq<Token>
    decreases |s|
  {
    var text := TextRun(s);
    var rest := s[|text|..];
    if rest == [] then [Text(text)]
    else
      var digits := DigitRun(rest);
      [Text(text), Num(Value(digits))] + NaturalKey(rest[|digits|..])
  }

  /** Numbers sort before strings, as the language has it. */
  predicate TokenLeq(a: Token, b: Token)
  {
    match (a, b)
    case (Num(m), Num(n)) => m <= n
    case (Text(s), Text(t)) => StringLeq(s, t)
    case (Num(_), Text(_)) => true
    case (Text(_), Num(_)) => false
  }

  predicate KeyLeq(a: seq<Token>, b: seq<Token>)
  {
    a == [] || (b != [] && (if a[0] == b[0] then KeyLeq(a[1..], b[1..]) else TokenLeq(a[0], b[0])))
  }

  lemma TokenLeqTotal(a: Token, b: Token)
    ensures TokenLeq(a, b) || TokenLeq(b, a)
    ensures TokenLeq(a, b) && TokenLeq(b, a) ==> a == b
  {
    if a.Text? && b.Text? {
      StringLeqTotal(a.text, b.text);
    }
  }

  lemma TokenLeqTransitive(a: Token, b: Token, c: Token)
    requires TokenLeq(a, b) && TokenLeq(b, c)
    ensures TokenLeq(a, c)
  {
    if a.Text? && b.Text? && c.Text? {
      StringLeqTransitive(a.text, b.text, c.text);
    }
  }

  lemma {:induction false} KeyLeqTotal(a: seq<Token>, b: seq<Token>)
    ensures KeyLeq(a, b) || KeyLeq(b, a)
  {
    if a != [] && b != [] {
      TokenLeqTotal(a[0], b[0]);
      KeyLeqTotal(a[1..], b[1..]);
    }
  }

  lemma {:induction false} KeyLeqTransitive(a: seq<Token>, b: seq<Token>, c: seq<Token>)
    requires KeyLeq(a, b) && KeyLeq(b, c)
    ensures KeyLeq(a, c)
  {
    if a != [] {
      if a[0] == b[0] && b[0] == c[0] {
        KeyLeqTransitive(a[1..], b[1..], c[1..]);
      } else if a[0] != b[0] && b[0] != c[0] {
        TokenLeqTransitive(a[0], b[0], c[0]);
        TokenLeqTotal(a[0], b[0]);
      }
    }
  }

  predicate NaturalLeq(s: string, t: string)
  {
    KeyLeq(NaturalKey(s), NaturalKey(t))
  }

  // ---------------------------------------------------------------- sorting

  ghost predicate NaturallySorted(s: seq<string>)
  {
    forall i, j :: 0 <= i < j < |s| ==> NaturalLeq(s[i], s[j])
  }

  lemma GoesFirst(x: string, s: seq<string>)
    requires s != [] && NaturalLeq(x, s[0]) && NaturallySorted(s)
    ensures NaturallySorted([x] + s)
  {
    forall j | 0 < j < |s| ensures NaturalLeq(x, s[j]) {
      KeyLeqTransitive(NaturalKey(x), NaturalKey(s[0]), NaturalKey(s[j]));
    }
  }

  lemma StaysFirst(x: string, s: seq<string>, rest: seq<string>)
    requires s != [] && !NaturalLeq(x, s[0]) && NaturallySorted(s) && NaturallySorted(rest)
    requires multiset(rest) == multiset(s[1..]) + multiset{x}
    ensures NaturallySorted([s[0]] + rest)
  {
    hide NaturalKey, KeyLeq;
    KeyLeqTotal(NaturalKey(x), NaturalKey(s[0]));
    forall j | 0 <= j < |rest| ensures NaturalLeq(s[0], rest[j]) {
      assert rest[j] in multiset(rest);
      assert rest[j] in multiset(s[1..]) + multiset{x};
    }
  }

  function NaturalInsert(x: string, s: seq<string>): (r: seq<string>)
    requires NaturallySorted(s)
    ensures multiset(r) == multiset(s) + multiset{x} && NaturallySorted(r)
  {
    if s == [] then [x]
    else if NaturalLeq(x, s[0]) then
      GoesFirst(x, s);
      [x] + s
    else
      assert s == [s[0]] + s[1..];
      var rest := NaturalInsert(x, s[1..]);
      StaysFirst(x, s, rest);
      [s[0]] + rest
  }

  /** `sorted(names, key=natural_sort)` */
  function NaturalSort(s: seq<string>): (r: seq<string>)
    ensures multiset(r) == multiset(s) && NaturallySorted(r)
  {
    if s == [] then []
    else
      assert s == [s[0]] + s[1..];
      NaturalInsert(s[0], NaturalSort(s[1..]))
  }

  ghost predicate Ascending(s: seq<string>)
  {
    forall i, j :: 0 <= i < j < |s| ==> NaturalLeq(s[i], s[j]) && !NaturalLeq(s[j], s[i])
  }

  /** Names in strictly ascending order are what sorting them gives, whatever order they come in. */
  lemma SortIsAscending(names: seq<string>, ascending: seq<string>)
    requires multiset(names) == multiset(ascending) && Ascending(ascending)
    ensures NaturalSort(names) == ascending
  {
    SortedIsUnique(NaturalSort(names), ascending);
  }

  lemma SameFirst(s: seq<string>, ascending: seq<string>)
    requires multiset(s) == multiset(ascending) && NaturallySorted(s) && Ascending(ascending) && s != []
    ensures ascending != [] && s[0] == ascending[0]
  {
    hide NaturalLeq;
    assert s[0] in multiset(ascending);
    assert ascending[0] in multiset(s);
    var i :| 0 <= i < |ascending| && ascending[i] == s[0];
    var j :| 0 <= j < |s| && s[j] == ascending[0];
  }

  lemma SameRest(s: seq<string>, t: seq<string>)
    requires s != [] && t != [] && s[0] == t[0] && multiset(s) == multiset(t)
    ensures multiset(s[1..]) == multiset(t[1..])
  {
    assert s == [s[0]] + s[1..] && t == [t[0]] + t[1..];
    assert multiset(s[1..]) == multiset(s) - multiset{s[0]};
    assert multiset(t[1..]) == multiset(t) - multiset{s[0]};
  }

  lemma {:induction false} SortedIsUnique(s: seq<string>, ascending: seq<string>)
    requires multiset(s) == multiset(ascending) && NaturallySorted(s) && Ascending(ascending)
    ensures s == ascending
  {
    hide NaturalLeq;
    assert |s| == |multiset(s)| == |ascending|;
    if s != [] {
      SameFirst(s, ascending);
      SameRest(s, ascending);
      SortedIsUnique(s[1..], ascending[1..]);
    }
  }

  // ---------------------------------------------------------------- numbered names

  /** The name of a numbered node: `'s%s' % n` or `'h%s' % n`. */
  function Numbered(letter: char, n: nat): string
  {
    [letter] + NatString(n)
  }

  lemma NumberedKey(letter: char, n: nat)
    requires !IsDigit(letter)
    ensures NaturalKey(Numbered(letter, n)) == [Text([letter]), Num(n), Text("")]
  {
    var s, d := Numbered(letter, n), NatString(n);
    assert s[1..] == d;
    assert TextRun(d) == [];
    assert TextRun(s) == [letter];
    assert d + [] == d;
    DigitRunStops(d, []);
    ValueOfNatString(n);
    assert d[|d|..] == [];
    assert NaturalKey([]) == [Text([])];
  }

  /** Numbered names sort by number, and no two are alike. */
  lemma NumberedOrder(letter: char, m: nat, n: nat)
    requires !IsDigit(letter)
    ensures NaturalLeq(Numbered(letter, m), Numbered(letter, n)) <==> m <= n
    ensures Numbered(letter, m) == Numbered(letter, n) <==> m == n
  {
    NumberedKey(letter, m);
    NumberedKey(letter, n);
    KeysOfNumbers([letter], m, n);
  }

  lemma KeysOfNumbers(text: string, m: nat, n: nat)
    ensures KeyLeq([Text(text), Num(m), Text("")], [Text(text), Num(n), Text("")]) <==> m <= n
  {
    var a, b := [Text(text), Num(m), Text("")], [Text(text), Num(n), Text("")];
    assert a[1..] == [Num(m), Text("")] && b[1..] == [Num(n), Text("")];
    assert a[1..][1..] == [Text("")] && b[1..][1..] == [Text("")];
    assert [Text("")][1..] == [];
    assert KeyLeq([], []) && KeyLeq([Text("")], [Text("")]);
  }
}
