/** JavaScript's global `parseInt(string)` with no radix argument, as the
    ECMAScript language specification (ECMA-262, section 19.2.5 "parseInt
    (string, radix)") defines it, restricted to ASCII, together with the
    decimal rendering of an integer that it reads back. NaN is `None`. */
module JsParseInt {
  import opened Wrappers
  import opened Text

  predicate IsRadix(radix: nat) {
    radix == 10 || radix == 16
  }

  /** The value of `c` as a digit in base `radix`, if it is one: `0`-`9`,
      then `a`-`z` or `A`-`Z` from ten upwards. */
  function DigitValue(c: char, radix: nat): (d: Option<nat>)
    requires IsRadix(radix)
    ensures d.Some? ==> d.value < radix
    ensures '0' <= c <= '9' ==> d == Some(c as int - '0' as int)
  {
    var v: Option<nat> :=
      if '0' <= c <= '9' then Some(c as int - '0' as int)
      else if 'a' <= c <= 'z' then Some(c as int - 'a' as int + 10)
      else if 'A' <= c <= 'Z' then Some(c as int - 'A' as int + 10)
      else None;
    if v.Some? && v.value < radix then v else None
  }

  predicate IsDigit(c: char, radix: nat)
    requires IsRadix(radix)
  {
    DigitValue(c, radix).Some?
  }

  predicate AllDigits(s: String, radix: nat)
    requires IsRadix(radix)
  {
    forall i :: 0 <= i < |s| ==> IsDigit(s[i], radix)
  }

  /** The longest prefix of `s` made of digits in base `radix`. */
  function DigitRun(s: String, radix: nat): (z: String)
    requires IsRadix(radix)
    ensures z <= s
    ensures AllDigits(z, radix)
    ensures |z| < |s| ==> !IsDigit(s[|z|], radix)
  {
    if s != [] && IsDigit(s[0], radix) then [s[0]] + DigitRun(s[1..], radix) else []
  }

  /** The number a string of digits denotes in base `radix`, most
      significant digit first. */
  function DigitsValue(z: String, radix: nat): nat
    requires IsRadix(radix)
    requires AllDigits(z, radix)
  {
    if z == [] then 0
    else DigitsValue(z[..|z| - 1], radix) * radix + DigitValue(z[|z| - 1], radix).value
  }

  /** `parseInt(s)`: skip leading whitespace, read an optional sign, then the
      unsigned number that follows; NaN when there is none. Anything after
      the digits is ignored. */
  function ParseInt(s: String): (r: Option<int>)
    ensures AllWhitespace(s) ==> r == None
  {
    ParseSigned(TrimStart(s))
  }

  /** The optional `+` or `-` sign, then the unsigned number. */
  function ParseSigned(t: String): (r: Option<int>)
    ensures r.Some? ==> |t| >= 1
    ensures r.Some? && t[0] == '-' ==> r.value <= 0
    ensures r.Some? && t[0] != '-' ==> r.value >= 0
  {
    if t != [] && t[0] == '-' then
      match ParseUnsigned(t[1..])
      case Some(v) => Some(-(v as int))
      case None => None
    else if t != [] && t[0] == '+' then ParseUnsigned(t[1..])
    else ParseUnsigned(t)
  }

  /** Base 16 after a `0x` or `0X` prefix, base 10 otherwise; the value of the
      longest run of digits in that base, NaN when the run is empty. A number
      is read only from text that starts with a decimal digit. */
  function ParseUnsigned(u: String): (r: Option<nat>)
    ensures r.Some? ==> u != [] && IsDigit(u[0], 10)
  {
    var hex := |u| >= 2 && u[0] == '0' && (u[1] == 'x' || u[1] == 'X');
    var radix := if hex then 16 else 10;
    var z := DigitRun(if hex then u[2..] else u, radix);
    if z == [] then None
    else
      assert !hex ==> u[0] == z[0];
      Some(DigitsValue(z, radix))
  }

  /** Leading whitespace never changes what `parseInt` reads. */
  lemma {:induction false} ParseIntSkipsWhitespace(w: String, s: String)
    requires AllWhitespace(w)
    ensures ParseInt(w + s) == ParseInt(s)
  {
    TrimStartAfterWhitespace(w, s);
  }

  lemma {:induction false} TrimStartAfterWhitespace(w: String, s: String)
    requires AllWhitespace(w)
    ensures TrimStart(w + s) == TrimStart(s)
  {
    var n := LeadingBlanks(s);
    LeadingBlanksUnique(w + s, |w| + n);
    assert (w + s)[|w| + n..] == s[n..];
  }

  function DigitChar(d: nat): char
    requires d < 10
  {
    ('0' as int + d) as char
  }

  /** The decimal rendering of a natural number, as JavaScript prints an
      integral Number: no leading zeros, "0" for zero. */
  function FormatNat(m: nat): (r: String)
    ensures |r| >= 1 && AllDigits(r, 10)
    ensures r[0] == '0' <==> m == 0
    ensures m == 0 ==> r == "0"
    ensures DigitsValue(r, 10) == m
  {
    if m < 10 then [DigitChar(m)]
    else
      var r := FormatNat(m / 10) + [DigitChar(m % 10)];
      assert r[..|r| - 1] == FormatNat(m / 10);
      r
  }

  /** The decimal rendering of an integer, with a leading `-` when negative. */
  function FormatInt(n: int): (r: String)
    ensures |r| >= 1 && !IsWhitespace(r[0])
  {
    if n < 0 then "-" + FormatNat(-n) else FormatNat(n)
  }

  lemma {:induction false} DigitRunOfDigits(z: String, rest: String, radix: nat)
    requires IsRadix(radix)
    requires AllDigits(z, radix)
    requires rest == [] || !IsDigit(rest[0], radix)
    ensures DigitRun(z + rest, radix) == z
  {
    if z == [] {
      assert z + rest == rest;
    } else {
      assert (z + rest)[1..] == z[1..] + rest;
      DigitRunOfDigits(z[1..], rest, radix);
      assert z == [z[0]] + z[1..];
    }
  }

  /** `parseInt` reads back the decimal rendering of any integer, and ignores
      whatever text follows it ("15 min" gives 15), provided that text does not
      extend the number: it starts with no decimal digit, and after a lone "0"
      with no `x` or `X` (which would make it a hexadecimal prefix). */
  lemma {:induction false} ParseIntOfFormatted(n: int, rest: String)
    requires rest == [] || !IsDigit(rest[0], 10)
    requires n == 0 && rest != [] ==> rest[0] != 'x' && rest[0] != 'X'
    ensures ParseInt(FormatInt(n) + rest) == Some(n)
  {
    var s := FormatInt(n) + rest;
    assert TrimStart(s) == s by {
      assert LeadingBlanks(s) == 0;
    }
    ParseSignedOfFormatted(n, rest);
  }

  lemma {:induction false} ParseSignedOfFormatted(n: int, rest: String)
    requires rest == [] || !IsDigit(rest[0], 10)
    requires n == 0 && rest != [] ==> rest[0] != 'x' && rest[0] != 'X'
    ensures ParseSigned(FormatInt(n) + rest) == Some(n)
  {
    if n < 0 {
      ParseSignedOfNegative(n, rest);
    } else {
      ParseSignedOfNatural(n, rest);
    }
  }

  lemma {:induction false} ParseSignedOfNegative(n: int, rest: String)
    requires n < 0
    requires rest == [] || !IsDigit(rest[0], 10)
    ensures ParseSigned(FormatInt(n) + rest) == Some(n)
  {
    var m: nat := -n;
    var u := FormatNat(m) + rest;
    FormatNegativeThen(n, m, rest);
    ParseUnsignedOfFormatted(m, rest);
    ParseSignedMinus(u, m, n);
  }

  lemma {:induction false} FormatNegativeThen(n: int, m: nat, rest: String)
    requires n < 0 && m == -n
    ensures FormatInt(n) + rest == ['-'] + (FormatNat(m) + rest)
  {
  }

  lemma {:induction false} ParseSignedOfNatural(m: nat, rest: String)
    requires rest == [] || !IsDigit(rest[0], 10)
    requires m == 0 && rest != [] ==> rest[0] != 'x' && rest[0] != 'X'
    ensures ParseSigned(FormatNat(m) + rest) == Some(m)
  {
    var u := FormatNat(m) + rest;
    ParseUnsignedOfFormatted(m, rest);
    assert u[0] == FormatNat(m)[0];
    ParseSignedUnsigned(u);
  }

  lemma {:induction false} ParseSignedMinus(u: String, v: nat, n: int)
    requires ParseUnsigned(u) == Some(v) && n == -(v as int)
    ensures ParseSigned(['-'] + u) == Some(n)
  {
    var t := ['-'] + u;
    assert t[0] == '-' && t[1..] == u;
  }

  lemma {:induction false} ParseSignedUnsigned(u: String)
    requires u != [] && IsDigit(u[0], 10)
    ensures ParseSigned(u) == ParseUnsigned(u)
  {
  }

  lemma {:induction false} ParseUnsignedOfFormatted(m: nat, rest: String)
    requires rest == [] || !IsDigit(rest[0], 10)
    requires m == 0 && rest != [] ==> rest[0] != 'x' && rest[0] != 'X'
    ensures ParseUnsigned(FormatNat(m) + rest) == Some(m)
  {
    var digits := FormatNat(m);
    assert digits == "0" ==> m == 0 by {
      if digits == "0" { assert digits[0] == '0'; }
    }
    ParseUnsignedOfDecimal(digits, rest);
  }

  /** A run of decimal digits is read as the number it denotes, whatever
      follows it, unless it continues the run or turns a lone "0" into the
      prefix "0x" or "0X". Leading zeros are allowed: "007" reads as 7. */
  lemma {:induction false} ParseUnsignedOfDecimal(z: String, rest: String)
    requires z != [] && AllDigits(z, 10)
    requires rest == [] || !IsDigit(rest[0], 10)
    requires z == "0" && rest != [] ==> rest[0] != 'x' && rest[0] != 'X'
    ensures ParseUnsigned(z + rest) == Some(DigitsValue(z, 10))
  {
    var u := z + rest;
    if |u| >= 2 && u[0] == '0' {
      if |z| == 1 {
        assert z == "0";
        assert u[1] == rest[0];
      } else {
        assert u[1] == z[1];
      }
    }
    DigitRunOfDigits(z, rest, 10);
  }

  /** After "0x" or "0X" a run of hexadecimal digits is read in base 16:
      "0x1E" reads as 30. */
  lemma {:induction false} ParseUnsignedOfHex(x: char, z: String, rest: String)
    requires x == 'x' || x == 'X'
    requires z != [] && AllDigits(z, 16)
    requires rest == [] || !IsDigit(rest[0], 16)
    ensures ParseUnsigned(['0', x] + (z + rest)) == Some(DigitsValue(z, 16))
  {
    var u := ['0', x] + (z + rest);
    assert u[2..] == z + rest;
    DigitRunOfDigits(z, rest, 16);
  }

  /** Text that starts with no decimal digit holds no number to read. */
  lemma {:induction false} ParseUnsignedOfNonDigit(u: String)
    requires u == [] || !IsDigit(u[0], 10)
    ensures ParseUnsigned(u) == None
  {
  }

  /** The value of a sign: `-` negates, `+` and no sign keep the number. */
  function Signed(sign: String, v: nat): int {
    if sign == "-" then -(v as int) else v
  }

  predicate IsSign(sign: String) {
    sign == "" || sign == "+" || sign == "-"
  }

  /** An optional sign in front of a readable number gives its signed value. */
  lemma {:induction false} ParseSignedOfSign(sign: String, u: String, v: nat)
    requires IsSign(sign)
    requires ParseUnsigned(u) == Some(v)
    ensures ParseSigned(sign + u) == Some(Signed(sign, v))
  {
    if sign == "-" {
      ParseSignedMinus(u, v, -(v as int));
    } else if sign == "+" {
      var t := sign + u;
      assert t[0] == '+' && t[1..] == u;
    } else {
      assert sign + u == u;
    }
  }

  /** A sign with nothing readable after it is NaN. */
  lemma {:induction false} ParseSignedOfSignAlone(sign: String, u: String)
    requires IsSign(sign)
    requires ParseUnsigned(u) == None
    requires sign == "" && u != [] ==> u[0] != '+' && u[0] != '-'
    ensures ParseSigned(sign + u) == None
  {
    var t := sign + u;
    if sign == "" {
      assert t == u;
    } else {
      assert t[0] == sign[0] && t[1..] == u;
    }
  }

  /** `parseInt` of whitespace, an optional sign and a readable number is
      the signed value of that number. */
  lemma {:induction false} ParseIntOfSigned(w: String, sign: String, u: String, v: nat)
    requires AllWhitespace(w)
    requires IsSign(sign)
    requires ParseUnsigned(u) == Some(v)
    ensures ParseInt(w + (sign + u)) == Some(Signed(sign, v))
  {
    SignThenDigitIsVisible(sign, u);
    ParseIntOfVisible(w, sign + u);
    ParseSignedOfSign(sign, u, v);
  }

  lemma {:induction false} SignThenDigitIsVisible(sign: String, u: String)
    requires IsSign(sign)
    requires u != [] && IsDigit(u[0], 10)
    ensures !IsWhitespace((sign + u)[0])
  {
    if sign == "" {
      assert (sign + u)[0] == u[0];
    }
  }

  /** Whitespace in front of text that starts with a visible character is
      all `parseInt` skips. */
  lemma {:induction false} ParseIntOfVisible(w: String, t: String)
    requires AllWhitespace(w)
    requires t != [] && !IsWhitespace(t[0])
    ensures ParseInt(w + t) == ParseSigned(t)
  {
    ParseIntSkipsWhitespace(w, t);
    assert LeadingBlanks(t) == 0;
    assert TrimStart(t) == t;
  }

  lemma {:induction false} Associate(a: String, b: String, c: String)
    ensures (a + b) + c == a + (b + c)
  {
  }

  lemma {:induction false} Regroup(a: String, b: String, c: String, d: String)
    ensures a + b + c + d == a + (b + (c + d))
  {
  }

  /** `parseInt` reads whitespace, an optional sign and a run of decimal
      digits (leading zeros allowed) as the signed value of the digits,
      ignoring whatever follows that cannot extend the number: "+5" is 5,
      " 007 min" is 7, "-12" is -12. */
  lemma {:induction false} ParseIntOfDecimal(w: String, sign: String, z: String, rest: String)
    requires AllWhitespace(w)
    requires IsSign(sign)
    requires z != [] && AllDigits(z, 10)
    requires rest == [] || !IsDigit(rest[0], 10)
    requires z == "0" && rest != [] ==> rest[0] != 'x' && rest[0] != 'X'
    ensures ParseInt(w + sign + z + rest) == Some(Signed(sign, DigitsValue(z, 10)))
  {
    ParseUnsignedOfDecimal(z, rest);
    Regroup(w, sign, z, rest);
    ParseIntOfSigned(w, sign, z + rest, DigitsValue(z, 10));
  }

  /** `parseInt` reads whitespace, an optional sign, "0x" or "0X" and a run
      of hexadecimal digits as the signed value of those digits in base 16:
      "0x1E" is 30 and "-0xff" is -255. */
  lemma {:induction false} ParseIntOfHex(w: String, sign: String, x: char, z: String, rest: String)
    requires AllWhitespace(w)
    requires IsSign(sign)
    requires x == 'x' || x == 'X'
    requires z != [] && AllDigits(z, 16)
    requires rest == [] || !IsDigit(rest[0], 16)
    ensures ParseInt(w + sign + ['0', x] + z + rest) == Some(Signed(sign, DigitsValue(z, 16)))
  {
    ParseUnsignedOfHex(x, z, rest);
    Regroup(w + sign, ['0', x], z, rest);
    Associate(w, sign, ['0', x] + (z + rest));
    ParseIntOfSigned(w, sign, ['0', x] + (z + rest), DigitsValue(z, 16));
  }

  /** A "0x" or "0X" prefix with no hexadecimal digit after it is NaN,
      although "0" alone would read as zero: "0x", "-0xg", " 0X min". */
  lemma {:induction false} ParseIntOfBareHexPrefix(w: String, sign: String, x: char, rest: String)
    requires AllWhitespace(w)
    requires IsSign(sign)
    requires x == 'x' || x == 'X'
    requires rest == [] || !IsDigit(rest[0], 16)
    ensures ParseInt(w + sign + ['0', x] + rest) == None
  {
    var u := ['0', x] + rest;
    assert u[2..] == rest;
    assert ParseUnsigned(u) == None;
    ParseSignedOfSignAlone(sign, u);
    var t := sign + u;
    assert t[0] == (if sign == "" then '0' else sign[0]);
    ParseIntOfVisible(w, t);
    Associate(w + sign, ['0', x], rest);
    Associate(w, sign, u);
  }

  /** `parseInt` of whitespace and an optional sign followed by no decimal
      digit is NaN: "", "  ", "-abc", "+", "abc". */
  lemma {:induction false} ParseIntOfNoNumber(w: String, sign: String, s: String)
    requires AllWhitespace(w)
    requires IsSign(sign)
    requires s == [] || !IsDigit(s[0], 10)
    requires sign == "" && s != [] ==> !IsWhitespace(s[0]) && s[0] != '+' && s[0] != '-'
    ensures ParseInt(w + sign + s) == None
  {
    var t := sign + s;
    assert w + sign + s == w + t;
    ParseUnsignedOfNonDigit(s);
    ParseSignedOfSignAlone(sign, s);
    if t == [] {
      assert w + t == w;
    } else {
      assert t[0] == (if sign == "" then s[0] else sign[0]);
      ParseIntOfVisible(w, t);
    }
  }

  /** Round trip: `parseInt(String(n)) === n` for every integer `n`. */
  lemma {:induction false} ParseIntFormatInt(n: int)
    ensures ParseInt(FormatInt(n)) == Some(n)
  {
    assert FormatInt(n) + [] == FormatInt(n);
    ParseIntOfFormatted(n, []);
  }
}
