/** The pieces of ECMAScript number behaviour the blog service relies on:
    turning an integer into its decimal text, `parseInt` with no radix,
    `Math.ceil` of a quotient, and `join(',')` on an id list. */
module JsNumber {
  import opened JsString

  /** What `parseInt` can produce: an integer or NaN. */
  datatype Num = Finite(value: int) | NaN

  // ---------------------------------------------------------------------
  // Number.prototype.toString() on integers

  function DigitChar(d: nat): (c: char)
    requires d < 10
    ensures '0' <= c <= '9'
    ensures c as int - '0' as int == d
  {
    ('0' as int + d) as char
  }

  predicate IsDecimal(c: char) {
    '0' <= c <= '9'
  }

  /** Decimal text of `n`, most significant digit first, no leading zeros. */
  function NatToString(n: nat): (r: string)
    ensures r != []
    ensures forall i :: 0 <= i < |r| ==> IsDecimal(r[i])
    decreases n
  {
    if n < 10 then [DigitChar(n)] else NatToString(n / 10) + [DigitChar(n % 10)]
  }

  /** `n.toString()` for an integer `n`. */
  function IntToString(n: int): (r: string)
    ensures r != [] && !IsSpace(r[0]) && ',' !in r
  {
    if n < 0 then "-" + NatToString(-n) else NatToString(n)
  }

  // ---------------------------------------------------------------------
  // parseInt(s) with the radix left undefined

  /** Digit value of `c` in radices up to 36, or 36 when `c` is no digit. */
  function DigitValue(c: char): (d: nat)
    ensures d <= 36
    ensures IsDecimal(c) <==> d < 10
  {
    if '0' <= c <= '9' then (c as int - '0' as int)
    else if 'a' <= c <= 'z' then (c as int - 'a' as int) + 10
    else if 'A' <= c <= 'Z' then (c as int - 'A' as int) + 10
    else 36
  }

  /** Length of the longest prefix of `s` made of radix-`radix` digits. */
  function DigitRun(s: string, radix: nat): (k: nat)
    ensures k <= |s|
    ensures forall i :: 0 <= i < k ==> DigitValue(s[i]) < radix
    ensures k < |s| ==> DigitValue(s[k]) >= radix
  {
    if s == [] || DigitValue(s[0]) >= radix then 0 else 1 + DigitRun(s[1..], radix)
  }

  /** The number a string of digits denotes in radix `radix`. */
  function DigitsValue(s: string, radix: nat): nat {
    if s == [] then 0 else DigitsValue(s[..|s| - 1], radix) * radix + DigitValue(s[|s| - 1]) % 36
  }

  /** The digits of an unsigned `parseInt` operand: a `0x`/`0X` prefix
      switches to radix 16, then the longest run of digits is read; no
      digits at all gives NaN. */
  function ParseMagnitude(u: string): (r: Num)
    ensures r.Finite? ==> r.value >= 0
  {
    if HexPrefix(u) then ReadDigits(u[2..], 16) else ReadDigits(u, 10)
  }

  /** The longest run of radix-`radix` digits at the front of `digits`,
      as a number; NaN when there is none. */
  function ReadDigits(digits: string, radix: nat): (r: Num)
    ensures r.Finite? ==> r.value >= 0
  {
    var k := DigitRun(digits, radix);
    if k == 0 then NaN else Finite(DigitsValue(digits[..k], radix))
  }

  function Negate(n: Num): Num {
    match n
    case Finite(m) => Finite(-m)
    case NaN => NaN
  }

  /** `parseInt(s)`: skip leading white space, take an optional sign, then
      read the magnitude. */
  function ParseInt(s: string): (r: Num) {
    var t := TrimStart(s);
    if t != [] && t[0] == '-' then Negate(ParseMagnitude(t[1..]))
    else if t != [] && t[0] == '+' then ParseMagnitude(t[1..])
    else ParseMagnitude(t)
  }

  lemma {:induction false} NatToStringValue(n: nat)
    ensures DigitsValue(NatToString(n), 10) == n
    decreases n
  {
    var r := NatToString(n);
    if n >= 10 {
      NatToStringValue(n / 10);
      assert r[..|r| - 1] == NatToString(n / 10);
      assert DigitValue(r[|r| - 1]) == n % 10;
    } else {
      assert DigitValue(r[0]) == n;
    }
  }

  lemma DecimalRun(s: string)
    requires forall i :: 0 <= i < |s| ==> IsDecimal(s[i])
    ensures DigitRun(s, 10) == |s|
  {
  }

  /** What may follow a number's text without being read as part of it. */
  predicate EndsNumber(t: string) {
    t == [] || (!IsDecimal(t[0]) && t[0] != 'x' && t[0] != 'X')
  }

  lemma {:induction false} DecimalRunThenStop(d: string, t: string)
    requires forall i :: 0 <= i < |d| ==> IsDecimal(d[i])
    requires EndsNumber(t)
    ensures DigitRun(d + t, 10) == |d|
    decreases |d|
  {
    if d == [] {
      assert d + t == t;
    } else {
      assert (d + t)[1..] == d[1..] + t;
      DecimalRunThenStop(d[1..], t);
    }
  }

  /** `0x`/`0X` at the front of `u` selects radix 16. */
  predicate HexPrefix(u: string) {
    |u| >= 2 && u[0] == '0' && (u[1] == 'x' || u[1] == 'X')
  }

  lemma DecimalThenStopIsNotHex(d: string, t: string)
    requires d != [] && forall i :: 0 <= i < |d| ==> IsDecimal(d[i])
    requires EndsNumber(t)
    ensures !HexPrefix(d + t)
  {
    if |d + t| >= 2 {
      if |d| >= 2 {
        assert (d + t)[1] == d[1];
      } else {
        assert (d + t)[1] == t[0];
      }
    }
  }

  lemma ParseDecimalMagnitude(d: string, t: string)
    requires d != [] && forall i :: 0 <= i < |d| ==> IsDecimal(d[i])
    requires EndsNumber(t)
    ensures ParseMagnitude(d + t) == Finite(DigitsValue(d, 10))
  {
    var u := d + t;
    DecimalRunThenStop(d, t);
    DecimalThenStopIsNotHex(d, t);
    assert u[..|d|] == d;
  }

  lemma DecimalIsNoSpace(c: char)
    requires IsDecimal(c)
    ensures !IsSpace(c)
  {
  }

  /** Text that starts with a digit is read with no sign. */
  lemma ParseUnsigned(u: string)
    requires u != [] && IsDecimal(u[0])
    ensures ParseInt(u) == ParseMagnitude(u)
  {
    DecimalIsNoSpace(u[0]);
    TrimStartOfTrimmed(u);
  }

  /** `parseInt` reads back exactly the integer `toString` wrote, also when
      text that cannot continue a number follows it. */
  lemma ParseIntOfIntToString(n: int, t: string)
    requires EndsNumber(t)
    ensures ParseInt(IntToString(n) + t) == Finite(n)
  {
    if n < 0 {
      ParseIntOfNegative(n, t);
    } else {
      ParseIntOfNonNegative(n, t);
    }
  }

  lemma ParseIntOfNonNegative(n: nat, t: string)
    requires EndsNumber(t)
    ensures ParseInt(IntToString(n) + t) == Finite(n)
  {
    MagnitudeOfDigits(n, t);
    assert (NatToString(n) + t)[0] == NatToString(n)[0];
    ParseUnsigned(NatToString(n) + t);
  }

  lemma MagnitudeOfDigits(n: nat, t: string)
    requires EndsNumber(t)
    ensures ParseMagnitude(NatToString(n) + t) == Finite(n)
  {
    NatToStringValue(n);
    ParseDecimalMagnitude(NatToString(n), t);
  }

  lemma ParseIntOfNegative(n: int, t: string)
    requires n < 0 && EndsNumber(t)
    ensures ParseInt(IntToString(n) + t) == Finite(n)
  {
    MagnitudeOfDigits(-n, t);
    ParseNegativeText(n, t);
  }

  /** A minus sign, then the magnitude. */
  lemma ParseNegativeText(n: int, t: string)
    requires n < 0
    ensures ParseInt(IntToString(n) + t) == Negate(ParseMagnitude(NatToString(-n) + t))
  {
    var w := IntToString(n) + t;
    assert IntToString(n) == ['-'] + NatToString(-n);
    assert w[0] == '-' && w[1..] == NatToString(-n) + t;
    TrimStartOfTrimmed(w);
  }

  /** Distinct integers have distinct decimal texts. */
  lemma IntToStringDistinct(a: int, b: int)
    requires a != b
    ensures IntToString(a) != IntToString(b)
  {
    ParseIntOfIntToStringAlone(a);
    ParseIntOfIntToStringAlone(b);
  }

  // ---------------------------------------------------------------------
  // Math.ceil(a / b)

  /** `Math.ceil(a / b)` for a positive divisor. */
  function CeilDiv(a: nat, b: nat): (q: nat)
    requires b > 0
    ensures q * b >= a
    ensures q > 0 ==> (q - 1) * b < a
  {
    (a + b - 1) / b
  }

  // ---------------------------------------------------------------------
  // ids.join(',') and its reading back with split(',')

  /** `xs.join(',')` for a list of integers. */
  function JoinInts(xs: seq<int>): (r: string)
    ensures xs == [] <==> r == []
  {
    if xs == [] then ""
    else if |xs| == 1 then IntToString(xs[0])
    else IntToString(xs[0]) + "," + JoinInts(xs[1..])
  }

  /** Position of the first comma in `s`, or `|s|`. */
  function CommaAt(s: string): (k: nat)
    ensures k <= |s| && ',' !in s[..k]
    ensures k < |s| ==> s[k] == ','
  {
    if s == [] then 0
    else if s[0] == ',' then 0
    else
      var k := 1 + CommaAt(s[1..]);
      assert s[..k] == [s[0]] + s[1..][..k - 1];
      k
  }

  /** `s.split(',')`. */
  function SplitComma(s: string): (r: seq<string>)
    ensures |r| >= 1
    decreases |s|
  {
    var k := CommaAt(s);
    if k < |s| then [s[..k]] + SplitComma(s[k + 1..]) else [s]
  }

  lemma {:induction false} CommaAtAfter(a: string, b: string)
    requires ',' !in a
    ensures CommaAt(a + "," + b) == |a|
    decreases |a|
  {
    if a != [] {
      assert (a + "," + b)[1..] == a[1..] + "," + b;
      assert a[0] in a;
      CommaAtAfter(a[1..], b);
    }
  }

  lemma SplitCommaAfter(a: string, b: string)
    requires ',' !in a
    ensures SplitComma(a + "," + b) == [a] + SplitComma(b)
  {
    var s := a + "," + b;
    CommaAtAfter(a, b);
    assert s[..|a|] == a;
    assert s[|a| + 1..] == b;
  }

  /** Reading a joined id list back: split on commas, `parseInt` each piece. */
  function ParseInts(s: string): (r: seq<Num>)
    ensures |r| == |SplitComma(s)|
  {
    var pieces := SplitComma(s);
    seq(|pieces|, i requires 0 <= i < |pieces| => ParseInt(pieces[i]))
  }

  lemma ParseIntsAfter(a: string, b: string)
    requires ',' !in a
    ensures ParseInts(a + "," + b) == [ParseInt(a)] + ParseInts(b)
  {
    SplitCommaAfter(a, b);
    var p := ParseInts(a + "," + b);
    var q := ParseInts(b);
    assert |p| == 1 + |q|;
    forall i | 0 <= i < |p| ensures p[i] == ([ParseInt(a)] + q)[i] {
      if i > 0 {
        assert SplitComma(a + "," + b)[i] == SplitComma(b)[i - 1];
      }
    }
  }

  lemma ParseIntOfIntToStringAlone(n: int)
    ensures ParseInt(IntToString(n)) == Finite(n)
  {
    ParseIntOfIntToString(n, "");
    assert IntToString(n) + "" == IntToString(n);
  }

  /** Joining non-empty ids with commas loses nothing. */
  lemma {:induction false} JoinIntsRoundTrip(xs: seq<int>)
    requires xs != []
    ensures |ParseInts(JoinInts(xs))| == |xs|
    ensures forall i :: 0 <= i < |xs| ==> ParseInts(JoinInts(xs))[i] == Finite(xs[i])
  {
    var head := IntToString(xs[0]);
    ParseIntOfIntToStringAlone(xs[0]);
    if |xs| == 1 {
      assert SplitComma(head) == [head];
    } else {
      JoinIntsRoundTrip(xs[1..]);
      ParseIntsAfter(head, JoinInts(xs[1..]));
      var p := ParseInts(JoinInts(xs));
      var q := ParseInts(JoinInts(xs[1..]));
      assert p == [Finite(xs[0])] + q;
      forall i | 0 <= i < |xs| ensures p[i] == Finite(xs[i]) {
        if i > 0 {
          assert p[i] == q[i - 1] && xs[1..][i - 1] == xs[i];
        }
      }
    }
  }
}
