/**
 Decimal numerals: what `to_string` and `'%s' %` print, and what `stoi` and `int` read back.
 */
module Decimal {

  datatype Result<T> = Ok(value: T) | Err(error: Error)

  datatype Error = InvalidArgument | OutOfRange

  predicate IsDigit(c: char)
  {
    '0' <= c <= '9'
  }

  predicate AllDigits(s: string)
  {
    forall k :: 0 <= k < |s| ==> IsDigit(s[k])
  }

  function NatString(n: nat): (s: string)
    ensures s != [] && AllDigits(s)
  {
    var digit := [('0' as int + n % 10) as char];
    if n < 10 then digit else NatString(n / 10) + digit
  }

  function ToString(i: int): string
  {
    if i < 0 then "-" + NatString(-i) else NatString(i)
  }

  function Value(s: string): nat
    requires AllDigits(s)
  {
    if s == [] then 0
    else Value(s[..|s| - 1]) * 10 + (s[|s| - 1] as int - '0' as int)
  }

  /** Reading back a printed number gives the number; in particular no two numbers print alike. */
  lemma {:induction false} ValueOfNatString(n: nat)
    ensures Value(NatString(n)) == n
  {
    var s := NatString(n);
    if n >= 10 {
      ValueOfNatString(n / 10);
      assert s[..|s| - 1] == NatString(n / 10);
    } else {
      assert s[..|s| - 1] == [];
    }
  }

  predicate IsSpace(c: char)
  {
    c == ' ' || '\t' <= c <= '\r'
  }

  /** The longest run of digits at the front of `s`. */
  function DigitRun(s: string): (r: string)
    ensures AllDigits(r) && r <= s
    ensures |r| < |s| ==> !IsDigit(s[|r|])
  {
    if s == [] || !IsDigit(s[0]) then []
    else
      var r := [s[0]] + DigitRun(s[1..]);
      r
  }

  const INT_MIN := -0x8000_0000
  const INT_MAX := 0x7fff_ffff

  predicate IsInt(i: int)
  {
    INT_MIN <= i <= INT_MAX
  }

  /** `stoi`: spaces, a sign, a run of digits; whatever follows the digits is ignored. */
  function Stoi(s: string): Result<int>
  {
    if s == [] then Err(InvalidArgument)
    else if IsSpace(s[0]) then Stoi(s[1..])
    else if s[0] == '-' then SignedRun(s[1..], -1)
    else if s[0] == '+' then SignedRun(s[1..], 1)
    else SignedRun(s, 1)
  }

  function SignedRun(s: string, sign: int): Result<int>
  {
    var run := DigitRun(s);
    if run == [] then Err(InvalidArgument)
    else
      var i := sign * Value(run);
      if IsInt(i) then Ok(i) else Err(OutOfRange)
  }

  lemma {:induction false} DigitRunStops(s: string, rest: string)
    requires AllDigits(s) && (rest == [] || !IsDigit(rest[0]))
    ensures DigitRun(s + rest) == s
  {
    if s == [] {
      assert s + rest == rest;
    } else {
      assert (s + rest)[1..] == s[1..] + rest;
      DigitRunStops(s[1..], rest);
    }
  }

  lemma RunOfDigits(d: string, rest: string, sign: int)
    requires d != [] && AllDigits(d) && (rest == [] || !IsDigit(rest[0])) && IsInt(sign * Value(d))
    ensures SignedRun(d + rest, sign) == Ok(sign * Value(d))
  {
    DigitRunStops(d, rest);
  }

  /** The digit or sign that `stoi` meets first decides how it goes on. */
  lemma StoiStart(s: string)
    requires s != []
    ensures IsDigit(s[0]) ==> Stoi(s) == SignedRun(s, 1)
    ensures s[0] == '-' ==> Stoi(s) == SignedRun(s[1..], -1)
  {
  }

  lemma MinusFirst(d: string, rest: string)
    ensures ("-" + d + rest)[0] == '-' && ("-" + d + rest)[1..] == d + rest
  {
  }

  /** `stoi` undoes `to_string` for every int, and ignores a tail that does not start with a digit. */
  lemma StoiOfToString(i: int, rest: string)
    requires IsInt(i) && (rest == [] || !IsDigit(rest[0]))
    ensures Stoi(ToString(i) + rest) == Ok(i)
  {
    var n := if i < 0 then -i else i;
    var d := NatString(n);
    ValueOfNatString(n);
    if i < 0 {
      RunOfDigits(d, rest, -1);
      MinusFirst(d, rest);
    } else {
      RunOfDigits(d, rest, 1);
    }
    StoiStart(ToString(i) + rest);
  }

  /** A printed number holds no separator character. */
  lemma ToStringChars(i: int)
    ensures ToString(i) != [] && forall k :: 0 <= k < |ToString(i)| ==> IsDigit(ToString(i)[k]) || ToString(i)[k] == '-'
  {
  }

  // ---------------------------------------------------------------- which texts begin with a number

  predicate AllSpaces(s: string)
  {
    forall k :: 0 <= k < |s| ==> IsSpace(s[k])
  }

  /** Spaces, a sign or none, and all the digits of an int. */
  predicate IsNumeral(s: string, spaces: string, sign: string, digits: string, rest: string)
  {
    && s == spaces + (sign + (digits + rest)) && AllSpaces(spaces) && (sign == "" || sign == "-" || sign == "+")
    && digits != "" && AllDigits(digits) && (rest == "" || !IsDigit(rest[0]))
    && IsInt((if sign == "-" then -1 else 1) * Value(digits))
  }

  ghost predicate BeginsWithInt(s: string)
  {
    exists spaces, sign, digits, rest :: IsNumeral(s, spaces, sign, digits, rest)
  }

  lemma {:induction false} NumeralIsRead(s: string, spaces: string, sign: string, digits: string, rest: string)
    requires IsNumeral(s, spaces, sign, digits, rest)
    ensures Stoi(s).Ok?
    decreases |spaces|
  {
    if spaces != "" {
      assert s[1..] == spaces[1..] + (sign + (digits + rest));
      NumeralIsRead(s[1..], spaces[1..], sign, digits, rest);
    } else if sign == "" {
      assert s == digits + rest;
      RunOfDigits(digits, rest, 1);
    } else {
      assert s[1..] == digits + rest;
      RunOfDigits(digits, rest, if sign == "-" then -1 else 1);
    }
  }

  lemma RunIsNumeral(s: string, sign: string, t: string)
    requires s == sign + t && (sign == "" || sign == "-" || sign == "+") && SignedRun(t, if sign == "-" then -1 else 1).Ok?
    ensures IsNumeral(s, "", sign, DigitRun(t), t[|DigitRun(t)|..])
  {
    var digits := DigitRun(t);
    assert t == digits + t[|digits|..];
    assert s == "" + (sign + (digits + t[|digits|..]));
  }

  lemma {:induction false} ReadIsNumeral(s: string) returns (spaces: string, sign: string, digits: string, rest: string)
    requires Stoi(s).Ok?
    ensures IsNumeral(s, spaces, sign, digits, rest)
  {
    if IsSpace(s[0]) {
      spaces, sign, digits, rest := ReadIsNumeral(s[1..]);
      spaces := [s[0]] + spaces;
      assert s == [s[0]] + s[1..];
    } else {
      sign := if s[0] == '-' then "-" else if s[0] == '+' then "+" else "";
      var t := s[|sign|..];
      assert s == sign + t;
      RunIsNumeral(s, sign, t);
      spaces, digits, rest := "", DigitRun(t), t[|DigitRun(t)|..];
    }
  }

  /** `stoi` succeeds exactly on these texts. */
  lemma StoiReads(s: string)
    ensures Stoi(s).Ok? <==> BeginsWithInt(s)
  {
    if Stoi(s).Ok? {
      var spaces, sign, digits, rest := ReadIsNumeral(s);
    } else if BeginsWithInt(s) {
      var spaces, sign, digits, rest :| IsNumeral(s, spaces, sign, digits, rest);
      NumeralIsRead(s, spaces, sign, digits, rest);
    }
  }

  lemma {:induction false} DigitRunToColon(s: string, rest: string)
    requires rest == "" || rest[0] == ':'
    ensures DigitRun(s + rest) == DigitRun(s)
  {
    if s == "" {
      assert s + rest == rest;
    } else {
      assert (s + rest)[1..] == s[1..] + rest;
      DigitRunToColon(s[1..], rest);
    }
  }

  /** It looks no further than to a colon. */
  lemma {:induction false} StoiToColon(s: string, rest: string)
    requires rest == "" || rest[0] == ':'
    ensures Stoi(s + rest) == Stoi(s)
  {
    DigitRunToColon(s, rest);
    if s == "" {
      assert s + rest == rest;
    } else {
      assert (s + rest)[1..] == s[1..] + rest;
      if IsSpace(s[0]) {
        StoiToColon(s[1..], rest);
      } else {
        DigitRunToColon(s[1..], rest);
      }
    }
  }
}
