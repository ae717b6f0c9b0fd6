/**
 * The JavaScript built-ins on strings and numbers that the dashboard relies on:
 * `String(n)` for an integer, `s.includes(q)`, `s.toLowerCase()` (ASCII letters only)
 * and the global `parseInt(s)` with no radix argument, whose NaN result is `None`.
 */
module JsText {
  import opened Wrappers

  // ---------------------------------------------------------------------------
  // String(n): the decimal rendering of an integer
  // ---------------------------------------------------------------------------

  function DigitChar(d: nat): (c: char)
    requires d < 10
  {
    (d + '0' as int) as char
  }

  /** Decimal digits of a natural number, most significant first, no leading zeros. */
  function Digits(n: nat): (s: string)
    ensures |s| >= 1
    ensures '0' <= s[0] <= '9'
    ensures s[0] == '0' ==> n == 0
    ensures |s| >= 2 ==> s[0] != '0'
  {
    if n < 10 then [DigitChar(n)] else Digits(n / 10) + [DigitChar(n % 10)]
  }

  /** `String(n)` for an integer `n`: an optional minus sign followed by the digits of |n|. */
  function Decimal(n: int): (s: string)
    ensures |s| >= 1
    ensures s[0] == '-' <==> n < 0
  {
    if n < 0 then "-" + Digits(-n) else Digits(n)
  }

  // ---------------------------------------------------------------------------
  // String.prototype.includes and String.prototype.toLowerCase
  // ---------------------------------------------------------------------------

  /** `s.includes(q)`: `q` occurs in `s` at some position. */
  function Contains(s: string, q: string): (r: bool)
    ensures q == [] ==> r
    ensures r ==> |q| <= |s|
    decreases |s|
  {
    q <= s || (s != [] && Contains(s[1..], q))
  }

  /** The declarative reading of `includes`: some slice of `s` equals `q`. */
  ghost predicate OccursAt(s: string, q: string, i: int)
  {
    0 <= i && i + |q| <= |s| && s[i..i + |q|] == q
  }

  lemma {:induction false} ContainsOccurs(s: string, q: string) returns (i: int)
    requires Contains(s, q)
    ensures OccursAt(s, q, i)
    decreases |s|
  {
    if q <= s {
      assert s[0..|q|] == q;
      i := 0;
    } else {
      var j := ContainsOccurs(s[1..], q);
      assert s[1..][j..j + |q|] == s[j + 1..j + 1 + |q|];
      i := j + 1;
    }
  }

  lemma {:induction false} OccursContains(s: string, q: string, i: int)
    requires OccursAt(s, q, i)
    ensures Contains(s, q)
    decreases i
  {
    if i == 0 {
      assert s[..|q|] == q;
    } else {
      assert s[1..][i - 1..i - 1 + |q|] == s[i..i + |q|];
      OccursContains(s[1..], q, i - 1);
    }
  }

  /** `includes` agrees with its declarative reading, in both directions. */
  lemma ContainsIffOccurs(s: string, q: string)
    ensures Contains(s, q) <==> exists i :: OccursAt(s, q, i)
  {
    if Contains(s, q) {
      var i := ContainsOccurs(s, q);
    }
    if exists i :: OccursAt(s, q, i) {
      var i :| OccursAt(s, q, i);
      OccursContains(s, q, i);
    }
  }

  /** Every string includes the empty string. */
  lemma ContainsEmpty(s: string)
    ensures Contains(s, "")
  {
  }

  function LowerChar(c: char): (r: char)
    ensures 'A' <= c <= 'Z' ==> 'a' <= r <= 'z' && r as int - c as int == 32
    ensures !('A' <= c <= 'Z') ==> r == c
  {
    if 'A' <= c <= 'Z' then (c as int + 32) as char else c
  }

  /** `s.toLowerCase()`, with the case mapping restricted to the ASCII letters. */
  function Lower(s: string): (r: string)
    ensures |r| == |s|
    ensures forall i :: 0 <= i < |s| ==> r[i] == LowerChar(s[i])
  {
    if s == [] then [] else [LowerChar(s[0])] + Lower(s[1..])
  }

  // ---------------------------------------------------------------------------
  // parseInt(s) with no radix (section 19.2.5 of ECMA-262)
  // ---------------------------------------------------------------------------

  /** StrWhiteSpaceChar: the WhiteSpace and LineTerminator code points of ECMA-262. */
  predicate IsJsWhitespace(c: char)
  {
    var k := c as int;
    if k < 0x80 then
      (0x09 <= k <= 0x0D) || k == 0x20
    else
      k == 0xA0 || k == 0x1680 || (0x2000 <= k <= 0x200A) || k == 0x2028 || k == 0x2029 ||
      k == 0x202F || k == 0x205F || k == 0x3000 || k == 0xFEFF
  }

  function TrimStart(s: string): (r: string)
    ensures r == [] || !IsJsWhitespace(r[0])
  {
    if s != [] && IsJsWhitespace(s[0]) then TrimStart(s[1..]) else s
  }

  /** `TrimStart` removes a prefix of white space and nothing else. */
  lemma {:induction false} TrimStartRemovesLeadingSpace(s: string)
    ensures |TrimStart(s)| <= |s|
    ensures TrimStart(s) == s[|s| - |TrimStart(s)|..]
    ensures forall i :: 0 <= i < |s| - |TrimStart(s)| ==> IsJsWhitespace(s[i])
  {
    if s != [] && IsJsWhitespace(s[0]) {
      var r := TrimStart(s[1..]);
      TrimStartRemovesLeadingSpace(s[1..]);
      assert s[1..][|s| - 1 - |r|..] == s[|s| - |r|..];
      forall i | 0 <= i < |s| - |r|
        ensures IsJsWhitespace(s[i])
      {
        if i > 0 {
          assert s[i] == s[1..][i - 1];
        }
      }
    }
  }

  /** Any run of white space in front of a text is skipped. */
  lemma {:induction false} TrimStartSkips(ws: string, t: string)
    requires forall i :: 0 <= i < |ws| ==> IsJsWhitespace(ws[i])
    ensures TrimStart(ws + t) == TrimStart(t)
  {
    if ws == [] {
      assert ws + t == t;
    } else {
      assert (ws + t)[0] == ws[0];
      assert (ws + t)[1..] == ws[1..] + t;
      TrimStartSkips(ws[1..], t);
    }
  }

  /** The value of `c` as a digit in radix up to 36; 36 when it is no digit at all. */
  function DigitValue(c: char): (d: nat)
    ensures d <= 36
  {
    if '0' <= c <= '9' then c as int - '0' as int
    else if 'a' <= c <= 'z' then c as int - 'a' as int + 10
    else if 'A' <= c <= 'Z' then c as int - 'A' as int + 10
    else 36
  }

  /** Length of the longest prefix of `s` made of digits of the given radix. */
  function DigitRun(s: string, radix: nat): (n: nat)
    ensures n <= |s|
    ensures forall i :: 0 <= i < n ==> DigitValue(s[i]) < radix
    ensures n < |s| ==> DigitValue(s[n]) >= radix
  {
    if s == [] || DigitValue(s[0]) >= radix then 0 else 1 + DigitRun(s[1..], radix)
  }

  /** The number that a run of digits denotes in the given radix. */
  function DigitsValue(ds: string, radix: nat): nat
  {
    if ds == [] then 0
    else DigitsValue(ds[..|ds| - 1], radix) * radix + DigitValue(ds[|ds| - 1])
  }

  /** Whether the text after the sign starts with a hexadecimal prefix `0x` or `0X`. */
  predicate HasHexPrefix(s: string)
  {
    |s| >= 2 && s[0] == '0' && (s[1] == 'x' || s[1] == 'X')
  }

  /** The longest run of radix digits at the start of `ds` and its value; NaN when the run is empty. */
  function RunValue(ds: string, radix: nat): Option<nat>
  {
    var n := DigitRun(ds, radix);
    if n == 0 then None else Some(DigitsValue(ds[..n], radix))
  }

  /** The magnitude after the sign: radix 16 after a `0x`/`0X` prefix, radix 10 otherwise. */
  function ParseMagnitude(body: string): Option<nat>
  {
    var hex := HasHexPrefix(body);
    RunValue(if hex then body[2..] else body, if hex then 16 else 10)
  }

  /** The text after an optional leading sign. */
  function Unsigned(t: string): string
  {
    if t != [] && (t[0] == '-' || t[0] == '+') then t[1..] else t
  }

  /** A sign, when there is one, followed by the magnitude; `-` negates it. */
  function ParseSigned(t: string): Option<int>
  {
    var negative := t != [] && t[0] == '-';
    match ParseMagnitude(Unsigned(t))
    case None => None
    case Some(v) => Some(if negative then -(v as int) else v as int)
  }

  /**
   * `parseInt(s)`: skip leading whitespace, read an optional sign, switch to radix 16
   * after `0x`/`0X`, then read the longest run of digits; no digit at all gives NaN (`None`).
   * The JavaScript value -0 is the integer 0 here.
   */
  function ParseInt(s: string): (r: Option<int>)
    ensures TrimStart(s) == [] ==> r == None
  {
    ParseSigned(TrimStart(s))
  }

  // ---------------------------------------------------------------------------
  // parseInt reads back what String(n) writes
  // ---------------------------------------------------------------------------

  lemma {:induction false} DigitsValueOfDigits(n: nat)
    ensures DigitsValue(Digits(n), 10) == n
  {
    if n >= 10 {
      var s := Digits(n);
      DigitsValueOfDigits(n / 10);
      assert s[..|s| - 1] == Digits(n / 10);
    }
  }

  /** `String(n)` of a natural number consists of decimal digits only. */
  lemma {:induction false} DigitsAreDecimal(n: nat)
    ensures forall i :: 0 <= i < |Digits(n)| ==> '0' <= Digits(n)[i] <= '9'
  {
    if n >= 10 {
      DigitsAreDecimal(n / 10);
    }
  }

  /** A run of decimal digits is read up to the first character that is not one. */
  lemma {:induction false} DigitRunStops(ds: string, rest: string)
    requires forall i :: 0 <= i < |ds| ==> '0' <= ds[i] <= '9'
    requires rest == [] || DigitValue(rest[0]) >= 10
    ensures DigitRun(ds + rest, 10) == |ds|
  {
    if ds == [] {
      assert ds + rest == rest;
    } else {
      assert (ds + rest)[0] == ds[0];
      assert (ds + rest)[1..] == ds[1..] + rest;
      DigitRunStops(ds[1..], rest);
    }
  }

  lemma MagnitudeOfDigits(n: nat)
    ensures ParseMagnitude(Digits(n)) == Some(n)
  {
    var s := Digits(n);
    assert !HasHexPrefix(s);
    DigitsAreDecimal(n);
    DigitRunStops(s, []);
    assert s + [] == s && s[..|s|] == s;
    DigitsValueOfDigits(n);
  }

  /** Text that does not start with whitespace is read from its first character. */
  lemma TrimStartNoSpace(s: string)
    requires s == [] || !IsJsWhitespace(s[0])
    ensures TrimStart(s) == s
  {
  }

  lemma ParseIntOfDigits(n: nat)
    ensures ParseInt(Digits(n)) == Some(n as int)
  {
    var s := Digits(n);
    DigitsAreDecimal(n);
    assert '0' <= s[0] <= '9';
    TrimStartNoSpace(s);
    MagnitudeOfDigits(n);
  }

  /** A leading minus sign negates the magnitude read after it. */
  lemma ParseIntMinus(body: string, v: nat)
    requires ParseMagnitude(body) == Some(v)
    ensures ParseInt("-" + body) == Some(-(v as int))
  {
    var t := "-" + body;
    TrimStartNoSpace(t);
    assert t[0] == '-' && t[1..] == body;
    assert ParseSigned(t) == Some(-(v as int));
  }

  lemma ParseIntOfNegative(n: int)
    requires n < 0
    ensures ParseInt(Decimal(n)) == Some(n)
  {
    var m: nat := -n;
    MagnitudeOfDigits(m);
    ParseIntMinus(Digits(m), m);
  }

  /** Round trip: `parseInt(String(n)) === n` for every integer `n`. */
  lemma ParseIntOfDecimal(n: int)
    ensures ParseInt(Decimal(n)) == Some(n)
  {
    if n < 0 {
      ParseIntOfNegative(n);
    } else {
      assert Decimal(n) == Digits(n);
      ParseIntOfDigits(n);
    }
  }

  /** NaN: after the white space and the sign there is no digit to read. */
  lemma ParseIntNoDigitIsNaN(s: string)
    requires var b := Unsigned(TrimStart(s)); b == [] || DigitValue(b[0]) >= 10
    ensures ParseInt(s) == None
  {
    var b := Unsigned(TrimStart(s));
    assert !HasHexPrefix(b);
    assert DigitRun(b, 10) == 0;
  }

  /** After `0x` or `0X` the digits are read in radix 16; no hexadecimal digit gives NaN. */
  lemma ParseIntReadsHex(x: char, d: string)
    requires x == 'x' || x == 'X'
    ensures RunValue(d, 16) == None ==> ParseInt(['0', x] + d) == None
    ensures RunValue(d, 16).Some? ==> ParseInt(['0', x] + d) == Some(RunValue(d, 16).value as int)
  {
    var t := ['0', x] + d;
    TrimStartNoSpace(t);
    assert Unsigned(t) == t;
    assert HasHexPrefix(t) && t[2..] == d;
    assert ParseMagnitude(t) == RunValue(d, 16);
  }

  /** NaN: a hexadecimal prefix that no hexadecimal digit follows. */
  lemma ParseIntBareHexPrefixIsNaN(x: char, d: string)
    requires x == 'x' || x == 'X'
    requires d == [] || DigitValue(d[0]) >= 16
    ensures ParseInt(['0', x] + d) == None
  {
    ParseIntReadsHex(x, d);
  }

  /** Without a hexadecimal prefix, the magnitude is the value of the leading decimal digits. */
  lemma MagnitudeStops(ds: string, rest: string)
    requires ds != [] && forall i :: 0 <= i < |ds| ==> '0' <= ds[i] <= '9'
    requires rest == [] || DigitValue(rest[0]) >= 10
    requires !HasHexPrefix(ds + rest)
    ensures ParseMagnitude(ds + rest) == Some(DigitsValue(ds, 10))
  {
    var t := ds + rest;
    DigitRunStops(ds, rest);
    assert t[..|ds|] == ds;
  }

  /** White space in front of a text does not change what `parseInt` reads. */
  lemma ParseIntSkipsSpace(ws: string, t: string)
    requires forall i :: 0 <= i < |ws| ==> IsJsWhitespace(ws[i])
    ensures ParseInt(ws + t) == ParseInt(t)
  {
    TrimStartSkips(ws, t);
  }

  /** Text that starts with a digit is read without a sign. */
  lemma ParseIntUnsigned(t: string, v: nat)
    requires t != [] && '0' <= t[0] <= '9'
    requires ParseMagnitude(t) == Some(v)
    ensures ParseInt(t) == Some(v as int)
  {
    TrimStartNoSpace(t);
    assert Unsigned(t) == t;
  }

  /** Text that starts with a decimal digit and no hexadecimal prefix is read as its digits. */
  lemma ParseIntOfDigitsThen(ds: string, rest: string)
    requires ds != [] && forall i :: 0 <= i < |ds| ==> '0' <= ds[i] <= '9'
    requires rest == [] || DigitValue(rest[0]) >= 10
    requires !HasHexPrefix(ds + rest)
    ensures ParseInt(ds + rest) == Some(DigitsValue(ds, 10) as int)
  {
    assert (ds + rest)[0] == ds[0];
    MagnitudeStops(ds, rest);
    ParseIntUnsigned(ds + rest, DigitsValue(ds, 10));
  }

  /**
   * Leading white space is skipped and reading stops at the first character that is not a
   * decimal digit: the value is that of the digits read.
   */
  lemma ParseIntStopsAtNonDigit(ws: string, ds: string, rest: string)
    requires forall i :: 0 <= i < |ws| ==> IsJsWhitespace(ws[i])
    requires ds != [] && forall i :: 0 <= i < |ds| ==> '0' <= ds[i] <= '9'
    requires rest == [] || DigitValue(rest[0]) >= 10
    requires !HasHexPrefix(ds + rest)
    ensures ParseInt(ws + ds + rest) == Some(DigitsValue(ds, 10) as int)
  {
    assert ws + ds + rest == ws + (ds + rest);
    ParseIntSkipsSpace(ws, ds + rest);
    ParseIntOfDigitsThen(ds, rest);
  }
}
