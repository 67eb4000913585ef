/**
  The string built-ins of JavaScript that the components rely on, modelled on
  `seq<char>`: `String.prototype.trim`, `parseInt`, `Number.prototype.toString`
  for non-negative integers, `padStart`, `split` and `includes`.
 */
module Text {
  import opened Wrappers

  /** The characters `trim` removes and `parseInt` skips: the ECMAScript
      WhiteSpace and LineTerminator code points. */
  predicate IsWhitespace(c: char) {
    || c == '\t' || c == '\n' || c == '\U{000B}' || c == '\U{000C}' || c == '\r'
    || c == ' ' || c == '\U{00A0}' || c == '\U{1680}'
    || ('\U{2000}' <= c <= '\U{200A}')
    || c == '\U{2028}' || c == '\U{2029}' || c == '\U{202F}' || c == '\U{205F}'
    || c == '\U{3000}' || c == '\U{FEFF}'
  }

  /** Every character of `s` is whitespace (the empty string included). */
  predicate IsBlank(s: string) {
    forall i :: 0 <= i < |s| ==> IsWhitespace(s[i])
  }

  /** Drops the leading whitespace run: what remains is a suffix of `s`
      that does not start with whitespace, and everything dropped was whitespace. */
  function TrimStart(s: string): (r: string)
    ensures |r| <= |s| && r == s[|s| - |r|..]
    ensures r == [] || !IsWhitespace(r[0])
    ensures forall i :: 0 <= i < |s| - |r| ==> IsWhitespace(s[i])
  {
    if |s| > 0 && IsWhitespace(s[0]) then TrimStart(s[1..]) else s
  }

  /** Drops the trailing whitespace run, symmetrically to `TrimStart`. */
  function TrimEnd(s: string): (r: string)
    ensures |r| <= |s| && r == s[..|r|]
    ensures r == [] || !IsWhitespace(r[|r| - 1])
    ensures forall i :: |r| <= i < |s| ==> IsWhitespace(s[i])
  {
    if |s| > 0 && IsWhitespace(s[|s| - 1]) then TrimEnd(s[..|s| - 1]) else s
  }

  /** `String.prototype.trim`. */
  function Trim(s: string): (r: string)
    ensures |r| <= |s|
    ensures r == [] || (!IsWhitespace(r[0]) && !IsWhitespace(r[|r| - 1]))
  {
    TrimEnd(TrimStart(s))
  }

  /** A string trims to the empty string exactly when it is blank. */
  lemma TrimEmptyIffBlank(s: string)
    ensures Trim(s) == [] <==> IsBlank(s)
  {
    var t := TrimStart(s);
    if Trim(s) == [] {
      assert t == [];
    }
  }

  /** The value of a digit character in bases up to 16; 16 for any other character. */
  function CharDigit(c: char): (d: nat)
    ensures d <= 16
  {
    if '0' <= c <= '9' then (c as int - '0' as int) as nat
    else if 'a' <= c <= 'f' then (c as int - 'a' as int + 10) as nat
    else if 'A' <= c <= 'F' then (c as int - 'A' as int + 10) as nat
    else 16
  }

  /** The decimal digit character for `d`. */
  function DigitChar(d: nat): (c: char)
    requires d < 10
    ensures '0' <= c <= '9' && CharDigit(c) == d
  {
    ('0' as int + d) as char
  }

  predicate IsDecimal(s: string) {
    forall i :: 0 <= i < |s| ==> '0' <= s[i] <= '9'
  }

  /** The longest prefix of `s` made of digits of `base`. */
  function DigitRun(s: string, base: nat): (r: string)
    ensures |r| <= |s| && r == s[..|r|]
    ensures forall i :: 0 <= i < |r| ==> CharDigit(r[i]) < base
    ensures |r| == |s| || CharDigit(s[|r|]) >= base
  {
    if |s| > 0 && CharDigit(s[0]) < base then [s[0]] + DigitRun(s[1..], base) else []
  }

  /** The number a digit string denotes in `base`, most significant digit first. */
  function DigitsValue(ds: string, base: nat): nat {
    if ds == [] then 0 else DigitsValue(ds[..|ds| - 1], base) * base + CharDigit(ds[|ds| - 1])
  }

  /** `Number.prototype.toString()` for a non-negative integer: one digit for
      a number below 10, otherwise the numeral of `n / 10` followed by the last digit. */
  function DecimalString(n: nat): (s: string)
    ensures n < 10 ==> s == [DigitChar(n)]
    ensures n >= 10 ==> |s| >= 2
  {
    if n < 10 then [DigitChar(n)] else DecimalString(n / 10) + [DigitChar(n % 10)]
  }

  /** The numeral `toString` writes is canonical (digits only, no leading zero),
      denotes `n`, and has two digits exactly for the numbers 10 to 99. */
  lemma {:induction false} DecimalStringDenotes(n: nat)
    ensures var s := DecimalString(n);
            1 <= |s| && IsDecimal(s) && DigitsValue(s, 10) == n
            && (|s| > 1 ==> s[0] != '0')
            && (10 <= n < 100 <==> |s| == 2)
  {
    var s := DecimalString(n);
    if n < 10 {
      assert s[..0] == [];
    } else {
      var p := DecimalString(n / 10);
      DecimalStringDenotes(n / 10);
      assert s == p + [DigitChar(n % 10)];
      assert s[..|s| - 1] == p;
      if n < 100 {
        assert |p| == 1;
      } else {
        assert |p| >= 2;
      }
    }
  }

  /** `n` copies of `c`. */
  function Repeat(c: char, n: nat): (r: string)
    ensures |r| == n && forall i :: 0 <= i < n ==> r[i] == c
  {
    seq(n, _ => c)
  }

  /** `s.padStart(width, fill)` for a one-character `fill`: left-pads with
      `fill` up to `width` characters; a string already that long is kept. */
  function PadStart(s: string, width: nat, fill: char): (r: string)
    ensures |s| >= width ==> r == s
    ensures |s| < width ==> |r| == width && r[width - |s|..] == s
    ensures forall i :: 0 <= i < |r| - |s| ==> r[i] == fill
  {
    if |s| >= width then s else Repeat(fill, width - |s|) + s
  }

  /** The base `parseInt` uses: 10 when given, or inferred from a "0x" prefix when absent. */
  datatype Radix = Decimal | Unspecified

  /** What `parseInt` reads after the sign: (without a radix) an optional
      "0x"/"0X" prefix that selects base 16, then the longest run of digits.
      `None` is `NaN`, the result when that run is empty. */
  function ParseUnsigned(u: string, radix: Radix): (r: Option<nat>)
    ensures u == [] ==> r.None?
  {
    var hex := radix == Unspecified && |u| >= 2 && u[0] == '0' && (u[1] == 'x' || u[1] == 'X');
    if hex then ReadDigits(u[2..], 16) else ReadDigits(u, 10)
  }

  /** The value of the longest run of digits of `base` at the start of `v`;
      `None` when there is none. */
  function ReadDigits(v: string, base: nat): (r: Option<nat>)
    ensures v == [] ==> r.None?
  {
    var ds := DigitRun(v, base);
    if ds == [] then None else Some(DigitsValue(ds, base))
  }

  /** `parseInt(s, 10)` (`Decimal`) or `parseInt(s)` (`Unspecified`): skip leading
      whitespace, take an optional sign, then read the digits as `ParseUnsigned`
      does. `None` is `NaN`. */
  function ParseInt(s: string, radix: Radix): (r: Option<int>)
    ensures IsBlank(s) ==> r.None?
  {
    var t := TrimStart(s);
    var negative := |t| > 0 && t[0] == '-';
    var u := if |t| > 0 && (t[0] == '-' || t[0] == '+') then t[1..] else t;
    Signed(negative, ParseUnsigned(u, radix))
  }

  /** The value read, negated after a '-' sign; `NaN` stays `NaN`. */
  function Signed(negative: bool, r: Option<nat>): Option<int> {
    match r
    case None => None
    case Some(n) =>
      var v: int := n;
      Some(if negative then -v else v)
  }

  /** A run of digits of `base` followed by a character that is not one (or
      by nothing) is exactly the longest digit prefix. */
  lemma {:induction false} DigitRunThen(ds: string, rest: string, base: nat)
    requires forall i :: 0 <= i < |ds| ==> CharDigit(ds[i]) < base
    requires rest == [] || CharDigit(rest[0]) >= base
    ensures DigitRun(ds + rest, base) == ds
  {
    if |ds| > 0 {
      DigitRunThen(ds[1..], rest, base);
      assert (ds + rest)[1..] == ds[1..] + rest;
      assert [ds[0]] + ds[1..] == ds;
    } else {
      assert ds + rest == rest;
    }
  }

  /** Leading whitespace in front of text that does not start with whitespace
      is exactly what `TrimStart` drops. */
  lemma {:induction false} TrimStartAfterBlank(w: string, v: string)
    requires IsBlank(w)
    requires v == [] || !IsWhitespace(v[0])
    ensures TrimStart(w + v) == v
  {
    if |w| > 0 {
      assert (w + v)[1..] == w[1..] + v;
      TrimStartAfterBlank(w[1..], v);
    } else {
      assert w + v == v;
    }
  }

  /** A number read stays a number, negated exactly when the sign is '-'. */
  lemma SignedValue(negative: bool, r: Option<nat>)
    requires r.Some?
    ensures var v := Signed(negative, r);
            v.Some? && v.value == if negative then -(r.value as int) else r.value
  {
  }

  /** After blank space, `parseInt` takes the sign and reads the rest as
      `ParseUnsigned` does, negating after '-'. */
  lemma ParseIntOfSigned(w: string, sign: string, u: string, radix: Radix)
    requires IsBlank(w) && (sign == "" || sign == "-" || sign == "+")
    requires u == [] || (sign == "" ==> !IsWhitespace(u[0]) && u[0] != '-' && u[0] != '+')
    ensures ParseInt(w + sign + u, radix) == Signed(sign == "-", ParseUnsigned(u, radix))
  {
    var t := sign + u;
    assert w + sign + u == w + t;
    if t != [] {
      assert !IsWhitespace(t[0]) by {
        if sign == "" { assert t[0] == u[0]; } else { assert t[0] == sign[0]; }
      }
    }
    TrimStartAfterBlank(w, t);
    var negative := |t| > 0 && t[0] == '-';
    var rest := if |t| > 0 && (t[0] == '-' || t[0] == '+') then t[1..] else t;
    assert rest == u && (negative <==> sign == "-") by {
      if sign == "" {
        assert t == u;
      } else {
        assert t[0] == sign[0] && t[1..] == u;
      }
    }
  }

  /** Decimal digits `ds` up to the first non-digit are read in base 10,
      except that without a radix "0x"/"0X" starts a hexadecimal numeral. */
  lemma UnsignedOfDigits(ds: string, rest: string, radix: Radix)
    requires 1 <= |ds| && IsDecimal(ds)
    requires rest == [] || !('0' <= rest[0] <= '9')
    requires radix == Unspecified ==> !(ds == "0" && rest != [] && (rest[0] == 'x' || rest[0] == 'X'))
    ensures ParseUnsigned(ds + rest, radix) == Some(DigitsValue(ds, 10))
  {
    var u := ds + rest;
    var hex := radix == Unspecified && |u| >= 2 && u[0] == '0' && (u[1] == 'x' || u[1] == 'X');
    assert !hex by {
      if |ds| >= 2 {
        assert u[1] == ds[1];
      } else if rest != [] {
        assert ds == [u[0]] && u[1] == rest[0];
      }
    }
    if rest != [] {
      assert CharDigit(rest[0]) >= 10;
    }
    DigitRunThen(ds, rest, 10);
  }

  /** Without a radix, "0x" or "0X" and the hex digits `hs` up to the first
      non-hex character are read in base 16. */
  lemma UnsignedOfHex(x: string, hs: string, rest: string)
    requires |x| == 2 && x[0] == '0' && (x[1] == 'x' || x[1] == 'X')
    requires 1 <= |hs| && forall i :: 0 <= i < |hs| ==> CharDigit(hs[i]) < 16
    requires rest == [] || CharDigit(rest[0]) >= 16
    ensures var r := ParseUnsigned(x + hs + rest, Unspecified);
            r.Some? && r.value == DigitsValue(hs, 16)
  {
    var v := hs + rest;
    var u := x + v;
    assert x + hs + rest == u;
    assert u[0] == '0' && u[1] == x[1];
    assert u[|x|..] == v;
    DigitRunThen(hs, rest, 16);
  }

  /** A decimal numeral read by `parseInt`: after blank space and an optional
      sign, the decimal digits `ds` up to the first non-digit give the value,
      negated after '-'. Without a radix the one exception is "0x"/"0X", which
      `ParseIntOfHex` covers. */
  lemma ParseIntOfDigits(w: string, sign: string, ds: string, rest: string, radix: Radix)
    requires IsBlank(w) && (sign == "" || sign == "-" || sign == "+")
    requires 1 <= |ds| && IsDecimal(ds)
    requires rest == [] || !('0' <= rest[0] <= '9')
    requires radix == Unspecified ==> !(ds == "0" && rest != [] && (rest[0] == 'x' || rest[0] == 'X'))
    ensures var r := ParseInt(w + sign + (ds + rest), radix);
            r.Some? && r.value == if sign == "-" then -(DigitsValue(ds, 10) as int) else DigitsValue(ds, 10)
  {
    assert (ds + rest)[0] == ds[0];
    ParseIntOfSigned(w, sign, ds + rest, radix);
    UnsignedOfDigits(ds, rest, radix);
    SignedValue(sign == "-", ParseUnsigned(ds + rest, radix));
  }

  /** A hexadecimal numeral read by `parseInt` without a radix: after blank
      space, an optional sign and "0x" or "0X", the hex digits `hs` up to the
      first non-hex character give the value in base 16. */
  lemma ParseIntOfHex(w: string, sign: string, x: string, hs: string, rest: string)
    requires IsBlank(w) && (sign == "" || sign == "-" || sign == "+")
    requires |x| == 2 && x[0] == '0' && (x[1] == 'x' || x[1] == 'X')
    requires 1 <= |hs| && forall i :: 0 <= i < |hs| ==> CharDigit(hs[i]) < 16
    requires rest == [] || CharDigit(rest[0]) >= 16
    ensures var r := ParseInt(w + sign + (x + hs + rest), Unspecified);
            r.Some? && r.value == if sign == "-" then -(DigitsValue(hs, 16) as int) else DigitsValue(hs, 16)
  {
    assert (x + hs + rest)[0] == '0';
    ParseIntOfSigned(w, sign, x + hs + rest, Unspecified);
    UnsignedOfHex(x, hs, rest);
    SignedValue(sign == "-", ParseUnsigned(x + hs + rest, Unspecified));
  }

  /** `parseInt` is NaN when no digit follows the blank space and the sign. */
  lemma ParseIntWithoutDigits(w: string, sign: string, rest: string, radix: Radix)
    requires IsBlank(w) && (sign == "" || sign == "-" || sign == "+")
    requires rest == [] || (!('0' <= rest[0] <= '9')
                            && (sign == "" ==> !IsWhitespace(rest[0]) && rest[0] != '-' && rest[0] != '+'))
    ensures ParseInt(w + sign + rest, radix).None?
  {
    if rest != [] {
      assert CharDigit(rest[0]) >= 10;
      assert rest[0] != '0';
    }
    ParseIntOfSigned(w, sign, rest, radix);
  }
  /** Without a radix, "0x" or "0X" followed by no hex digit is `NaN`. */
  lemma ParseIntOfEmptyHex(w: string, sign: string, x: string, rest: string)
    requires IsBlank(w) && (sign == "" || sign == "-" || sign == "+")
    requires |x| == 2 && x[0] == '0' && (x[1] == 'x' || x[1] == 'X')
    requires rest == [] || CharDigit(rest[0]) >= 16
    ensures ParseInt(w + sign + (x + rest), Unspecified).None?
  {
    var u := x + rest;
    assert u[0] == '0' && u[1] == x[1];
    assert u[|x|..] == rest;
    ParseIntOfSigned(w, sign, u, Unspecified);
  }


  /** A canonical decimal numeral (digits only, no leading zero) parses to its
      value, with or without a radix. */
  lemma ParseIntOfNumeral(s: string, radix: Radix)
    requires 1 <= |s| && IsDecimal(s) && (|s| > 1 ==> s[0] != '0')
    ensures ParseInt(s, radix) == Some(DigitsValue(s, 10) as int)
  {
    assert !IsWhitespace(s[0]) && s[0] != '-' && s[0] != '+';
    assert TrimStart(s) == s;
    assert s + [] == s;
    UnsignedOfDigits(s, [], radix);
    SignedValue(false, ParseUnsigned(s, radix));
  }

  /** `parseInt` reads back what `toString` writes, with or without a radix. */
  lemma ParseIntOfDecimalString(n: nat, radix: Radix)
    ensures ParseInt(DecimalString(n), radix) == Some(n)
  {
    DecimalStringDenotes(n);
    ParseIntOfNumeral(DecimalString(n), radix);
  }

  /** Everything before the first `sep` (all of `s` when there is none): `s.split(sep)[0]`. */
  function FieldBefore(s: string, sep: char): (r: string)
    ensures |r| <= |s| && r == s[..|r|]
    ensures sep !in r
    ensures |r| == |s| || s[|r|] == sep
  {
    if |s| == 0 || s[0] == sep then [] else [s[0]] + FieldBefore(s[1..], sep)
  }

  /** `s.split(sep)[1]`: the text between the first and the second `sep`
      (or the end); `None` (`undefined`) when `sep` does not occur. */
  function SecondField(s: string, sep: char): (r: Option<string>)
    ensures r.None? <==> sep !in s
  {
    var first := FieldBefore(s, sep);
    if |first| == |s| then None else Some(FieldBefore(s[|first| + 1..], sep))
  }

  /** A field that is followed by a separator splits off exactly. */
  lemma {:induction false} FieldBeforeSeparator(a: string, sep: char, b: string)
    requires sep !in a
    ensures FieldBefore(a + [sep] + b, sep) == a
  {
    if |a| > 0 {
      assert (a + [sep] + b)[1..] == a[1..] + [sep] + b;
      FieldBeforeSeparator(a[1..], sep, b);
    }
  }

  /** `s.includes(t)`: `t` occurs in `s` at some position. An occurrence
      needs room for `t`, and a non-empty `t` can only occur where its first
      character does. */
  predicate Includes(s: string, t: string)
    decreases |s|
    ensures Includes(s, t) ==> |t| <= |s|
    ensures Includes(s, t) && |t| > 0 ==> t[0] in s
  {
    |t| <= |s| && (s[..|t|] == t || Includes(s[1..], t))
  }

  /** An occurrence at a known position is found by `Includes`. */
  lemma {:induction false} IncludesAt(s: string, t: string, k: nat)
    requires k + |t| <= |s| && s[k..k + |t|] == t
    ensures Includes(s, t)
  {
    if k > 0 && s[..|t|] != t {
      assert s[1..][k - 1..k - 1 + |t|] == s[k..k + |t|];
      IncludesAt(s[1..], t, k - 1);
    }
  }
}
