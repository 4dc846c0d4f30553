/** The ECMAScript built-ins the components rely on, on strings of UTF-16
    code units modelled as `seq<char>`:
    - `parseInt(s)` with no radix (section 19.2.5 of ECMA-262),
    - `String(n)` for an integral number,
    - `s.toLowerCase()` restricted to ASCII letters,
    - `s.includes(t)`. */
module Js {

  /** A Number as `parseInt` can produce it: an integer or NaN.
      `parseInt` returns -0 for "-0"; -0 and +0 behave alike everywhere
      this model uses the result (both are falsy), so both are `Int(0)`. */
  datatype Number = Int(value: int) | NaN
  {
    /** JavaScript truthiness of a Number: 0 and NaN are falsy. */
    predicate Truthy()
    {
      Int? && value != 0
    }
  }

  /** StrWhiteSpaceChar: WhiteSpace (TAB, VT, FF, ZWNBSP and every Zs
      character) and LineTerminator (LF, CR, LS, PS). */
  predicate IsStrWhiteSpace(c: char)
  {
    || c == '\t' || c == '\n' || c == '\U{000B}' || c == '\U{000C}' || c == '\r'
    || c == ' ' || c == '\U{00A0}' || c == '\U{1680}' || ('\U{2000}' <= c <= '\U{200A}')
    || c == '\U{2028}' || c == '\U{2029}' || c == '\U{202F}' || c == '\U{205F}'
    || c == '\U{3000}' || c == '\U{FEFF}'
  }

  /** The string with its leading white space removed. */
  function TrimStart(s: string): (r: string)
    ensures |r| <= |s| && r == s[|s| - |r|..]
    ensures r == [] || !IsStrWhiteSpace(r[0])
    ensures forall i :: 0 <= i < |s| - |r| ==> IsStrWhiteSpace(s[i])
  {
    if s != [] && IsStrWhiteSpace(s[0]) then TrimStart(s[1..]) else s
  }

  /** A digit of radix 10 or 16. */
  predicate IsRadixDigit(c: char, radix: nat)
  {
    ('0' <= c <= '9') || (radix == 16 && (('a' <= c <= 'f') || ('A' <= c <= 'F')))
  }

  function DigitValue(c: char): nat
  {
    if '0' <= c <= '9' then c as int - '0' as int
    else if 'a' <= c <= 'f' then c as int - 'a' as int + 10
    else if 'A' <= c <= 'F' then c as int - 'A' as int + 10
    else 0
  }

  /** The longest prefix of `s` made of radix digits. */
  function DigitPrefix(s: string, radix: nat): (z: string)
    ensures |z| <= |s| && z == s[..|z|]
    ensures forall i :: 0 <= i < |z| ==> IsRadixDigit(z[i], radix)
    ensures |z| < |s| ==> !IsRadixDigit(s[|z|], radix)
  {
    if s != [] && IsRadixDigit(s[0], radix) then [s[0]] + DigitPrefix(s[1..], radix) else []
  }

  /** The value of a digit string, most significant digit first. */
  function DigitsValue(z: string, radix: nat): nat
  {
    if z == [] then 0 else DigitsValue(z[..|z| - 1], radix) * radix + DigitValue(z[|z| - 1])
  }

  /** `parseInt(s)`: skip leading white space, then read a signed number. */
  function ParseInt(s: string): Number
  {
    ParseSigned(TrimStart(s))
  }

  /** An optional sign, then an unsigned number. */
  function ParseSigned(t: string): Number
  {
    if |t| > 0 && t[0] == '-' then Negate(ParseUnsigned(t[1..]))
    else if |t| > 0 && t[0] == '+' then ParseUnsigned(t[1..])
    else ParseUnsigned(t)
  }

  function Negate(n: Number): Number
  {
    match n
    case NaN => NaN
    case Int(v) => Int(-v)
  }

  /** Radix 16 after a `0x`/`0X` prefix, radix 10 otherwise. */
  function ParseUnsigned(u: string): Number
  {
    if |u| >= 2 && u[0] == '0' && (u[1] == 'x' || u[1] == 'X') then ParseDigits(u[2..], 16)
    else ParseDigits(u, 10)
  }

  /** The longest run of digits, or NaN when that run is empty. */
  function ParseDigits(v: string, radix: nat): Number
  {
    var z := DigitPrefix(v, radix);
    if z == [] then NaN else Int(DigitsValue(z, radix))
  }

  function DigitChar(d: nat): (c: char)
    requires d < 10
    ensures '0' <= c <= '9' && DigitValue(c) == d
  {
    ('0' as int + d) as char
  }

  /** The decimal digits of a natural number, without leading zeros. */
  function NatDigits(n: nat): (s: string)
    ensures |s| >= 1
    ensures forall i :: 0 <= i < |s| ==> '0' <= s[i] <= '9'
    ensures s[0] == '0' ==> n == 0 && |s| == 1
  {
    if n < 10 then [DigitChar(n)] else NatDigits(n / 10) + [DigitChar(n % 10)]
  }

  /** `String(n)` for an integral Number. */
  function DecimalString(n: int): string
  {
    if n < 0 then "-" + NatDigits(-n) else NatDigits(n)
  }

  lemma {:induction false} NatDigitsValue(n: nat)
    ensures DigitsValue(NatDigits(n), 10) == n
  {
    if n >= 10 {
      var s := NatDigits(n);
      assert s[..|s| - 1] == NatDigits(n / 10);
      NatDigitsValue(n / 10);
    }
  }

  /** A run of digits followed by anything that does not start with a digit
      is exactly the digit prefix. */
  lemma {:induction false} DigitPrefixOfDigits(z: string, tail: string, radix: nat)
    requires forall i :: 0 <= i < |z| ==> IsRadixDigit(z[i], radix)
    requires tail == [] || !IsRadixDigit(tail[0], radix)
    ensures DigitPrefix(z + tail, radix) == z
  {
    if z != [] {
      assert (z + tail)[1..] == z[1..] + tail;
      DigitPrefixOfDigits(z[1..], tail, radix);
    } else {
      assert z + tail == tail;
    }
  }

  /** `parseInt` reads back what `String(n)` wrote, and ignores whatever
      follows the digits, provided the following text does not extend the
      digits and does not turn a leading "0" into a hexadecimal prefix. */
  lemma ParseIntDecimalPrefix(n: int, tail: string)
    requires tail == [] || !IsRadixDigit(tail[0], 10)
    requires n == 0 ==> tail == [] || (tail[0] != 'x' && tail[0] != 'X')
    ensures ParseInt(DecimalString(n) + tail) == Int(n)
  {
    if n < 0 {
      var m: nat := -n;
      assert DecimalString(n) + tail == "-" + NatDigits(m) + tail;
      ParseIntNegativePrefix(m, tail);
    } else {
      assert DecimalString(n) + tail == NatDigits(n) + tail;
      ParseIntNaturalPrefix(n, tail);
    }
  }

  lemma ParseIntNaturalPrefix(m: nat, tail: string)
    requires tail == [] || !IsRadixDigit(tail[0], 10)
    requires m == 0 ==> tail == [] || (tail[0] != 'x' && tail[0] != 'X')
    ensures ParseInt(NatDigits(m) + tail) == Int(m)
  {
    var s := NatDigits(m) + tail;
    assert s[0] == NatDigits(m)[0];
    ParseIntStartingWithDigit(s);
    ParseUnsignedDigits(m, tail);
  }

  lemma ParseIntNegativePrefix(m: nat, tail: string)
    requires m > 0
    requires tail == [] || !IsRadixDigit(tail[0], 10)
    ensures ParseInt("-" + NatDigits(m) + tail) == Int(-(m as int))
  {
    ParseIntAfterMinus(NatDigits(m), tail);
    ParseUnsignedDigits(m, tail);
  }

  /** Text that starts with a digit is read as an unsigned number. */
  lemma ParseIntStartingWithDigit(s: string)
    requires |s| > 0 && '0' <= s[0] <= '9'
    ensures ParseInt(s) == ParseUnsigned(s)
  {
    TrimStartOfNonSpace(s);
  }

  /** Text that starts with '-' is read as a negated unsigned number. */
  lemma ParseIntAfterMinus(d: string, tail: string)
    ensures ParseInt("-" + d + tail) == Negate(ParseUnsigned(d + tail))
  {
    var s := "-" + d + tail;
    assert s[0] == '-' && s[1..] == d + tail;
    TrimStartOfNonSpace(s);
  }

  /** Text that starts with a sign or a digit has no leading white space. */
  lemma TrimStartOfNonSpace(s: string)
    requires |s| > 0 && (s[0] == '-' || '0' <= s[0] <= '9')
    ensures TrimStart(s) == s
  {
    assert !IsStrWhiteSpace(s[0]);
  }

  lemma ParseUnsignedDigits(m: nat, tail: string)
    requires tail == [] || !IsRadixDigit(tail[0], 10)
    requires m == 0 ==> tail == [] || (tail[0] != 'x' && tail[0] != 'X')
    ensures ParseUnsigned(NatDigits(m) + tail) == Int(m)
  {
    var d := NatDigits(m);
    var u := d + tail;
    assert u[0] == d[0];
    assert |u| >= 2 && u[0] == '0' ==> |d| == 1 && u[1] == tail[0];
    DigitPrefixOfDigits(d, tail, 10);
    NatDigitsValue(m);
  }

  /** Round trip: `parseInt(String(n)) == n` for every integer. */
  lemma ParseIntDecimal(n: int)
    ensures ParseInt(DecimalString(n)) == Int(n)
  {
    ParseIntDecimalPrefix(n, []);
    assert DecimalString(n) + [] == DecimalString(n);
  }

  /** Leading white space never changes the result. */
  lemma ParseIntSkipsWhiteSpace(c: char, s: string)
    requires IsStrWhiteSpace(c)
    ensures ParseInt([c] + s) == ParseInt(s)
  {
    assert ([c] + s)[1..] == s;
    assert TrimStart([c] + s) == TrimStart(s);
  }

  /** Input without any decimal digit is NaN: letters, hexadecimal ones
      included, are only read after a "0x" prefix, which needs a '0'. */
  lemma ParseIntNoDigits(s: string)
    requires forall i :: 0 <= i < |s| ==> !IsRadixDigit(s[i], 10)
    ensures ParseInt(s) == NaN
  {
    var t := TrimStart(s);
    if |t| > 0 && (t[0] == '-' || t[0] == '+') {
      assert t[1..] == s[|s| - |t| + 1..];
    }
  }

  /** A `0x` or `0X` prefix switches to hexadecimal: the hex digits that
      follow are read in base 16 up to the first character that is not one,
      and a prefix with no hex digit after it is NaN. */
  lemma ParseIntHexPrefix(x: char, z: string, tail: string)
    requires x == 'x' || x == 'X'
    requires forall i :: 0 <= i < |z| ==> IsRadixDigit(z[i], 16)
    requires tail == [] || !IsRadixDigit(tail[0], 16)
    ensures ParseInt(['0', x] + z + tail) == if z == [] then NaN else Int(DigitsValue(z, 16))
  {
    var u := z + tail;
    assert ['0', x] + z + tail == ['0', x] + u;
    ParseIntAfterHexMark(x, u);
    ParseDigitsOfRun(z, tail, 16);
  }

  /** After "0x" or "0X", the rest is read in base 16. */
  lemma ParseIntAfterHexMark(x: char, u: string)
    requires x == 'x' || x == 'X'
    ensures ParseInt(['0', x] + u) == ParseDigits(u, 16)
  {
    var s := ['0', x] + u;
    assert s[0] == '0' && s[1] == x && s[2..] == u;
    ParseIntStartingWithDigit(s);
  }

  /** A run of digits followed by a non-digit reads as the run's value, and
      an empty run as NaN. */
  lemma ParseDigitsOfRun(z: string, tail: string, radix: nat)
    requires forall i :: 0 <= i < |z| ==> IsRadixDigit(z[i], radix)
    requires tail == [] || !IsRadixDigit(tail[0], radix)
    ensures ParseDigits(z + tail, radix) == if z == [] then NaN else Int(DigitsValue(z, radix))
  {
    DigitPrefixOfDigits(z, tail, radix);
  }

  /** An instance: "0x1A" is 26. */
  lemma ParseIntHexExample()
    ensures ParseInt("0x1A") == Int(26)
  {
    var z := "1A";
    assert IsRadixDigit(z[0], 16) && IsRadixDigit(z[1], 16);
    ParseIntHexPrefix('x', z, []);
    assert ['0', 'x'] + z + [] == "0x1A";
    HexValueOf1A();
  }

  lemma HexValueOf1A()
    ensures DigitsValue("1A", 16) == 26
  {
    var z := "1A";
    assert z[..1] == "1" && z[..1][..0] == "";
    assert DigitsValue("1", 16) == 1;
  }

  /** Instances of NaN: "0x" has no digit after the prefix, and hexadecimal
      letters without the prefix are no digits at all ("face"). */
  lemma ParseIntNaNExamples()
    ensures ParseInt("0x") == NaN
    ensures ParseInt("face") == NaN
  {
    ParseIntHexPrefix('x', [], []);
    assert ['0', 'x'] + [] + [] == "0x";
    var f := "face";
    assert !IsRadixDigit(f[0], 10) && !IsRadixDigit(f[1], 10) && !IsRadixDigit(f[2], 10) && !IsRadixDigit(f[3], 10);
    ParseIntNoDigits(f);
  }

  function LowerChar(c: char): char
  {
    if 'A' <= c <= 'Z' then (c as int + 32) as char else c
  }

  /** `s.toLowerCase()` on ASCII letters; every other character is kept. */
  function ToLowerCase(s: string): (r: string)
    ensures |r| == |s|
    ensures forall i :: 0 <= i < |s| ==> r[i] == LowerChar(s[i])
  {
    if s == [] then [] else [LowerChar(s[0])] + ToLowerCase(s[1..])
  }

  lemma ToLowerCaseIdempotent(s: string)
    ensures ToLowerCase(ToLowerCase(s)) == ToLowerCase(s)
  {
  }

  predicate OccursAt(hay: string, needle: string, i: int)
  {
    0 <= i && i + |needle| <= |hay| && hay[i..i + |needle|] == needle
  }

  /** `hay.includes(needle)`. */
  predicate Includes(hay: string, needle: string)
  {
    |needle| <= |hay| && (hay[..|needle|] == needle || Includes(hay[1..], needle))
  }

  /** `includes` holds exactly when the needle occurs at some position. */
  lemma {:induction false} IncludesIffOccurs(hay: string, needle: string)
    ensures Includes(hay, needle) <==> exists i :: OccursAt(hay, needle, i)
  {
    if |needle| <= |hay| {
      if hay[..|needle|] == needle {
        assert OccursAt(hay, needle, 0);
      } else {
        IncludesIffOccurs(hay[1..], needle);
        if Includes(hay[1..], needle) {
          var i :| OccursAt(hay[1..], needle, i);
          assert hay[1..][i..i + |needle|] == hay[i + 1..i + 1 + |needle|];
          assert OccursAt(hay, needle, i + 1);
        }
        if exists i :: OccursAt(hay, needle, i) {
          var i :| OccursAt(hay, needle, i);
          assert i != 0;
          assert hay[1..][i - 1..i - 1 + |needle|] == hay[i..i + |needle|];
          assert OccursAt(hay[1..], needle, i - 1);
        }
      }
    }
  }

  /** Every string includes the empty string. */
  lemma IncludesEmpty(hay: string)
    ensures Includes(hay, "")
  {
    assert OccursAt(hay, "", 0);
    IncludesIffOccurs(hay, "");
  }
}
