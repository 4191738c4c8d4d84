/**
 * The two JavaScript number conversions the token route relies on, restricted
 * to integers: the global `parseInt` called without a radix (ECMAScript,
 * section 19.2.5 "parseInt ( string, radix )"), and `Number.prototype.toString`
 * on an integer-valued number (section 6.1.6.1.20, "Number::toString").
 * A NaN result is `None`.
 */
module JsNumbers {
  import opened Wrappers

  /** WhiteSpace or LineTerminator code points (ECMAScript sections 12.2 and 12.3),
      the characters `parseInt` strips from the front of its argument. */
  predicate IsWhiteSpace(c: char) {
    c == '\t' || c == '\U{000B}' || c == '\U{000C}' || c == '\U{FEFF}'
    // category Zs
    || c == ' ' || c == '\U{00A0}' || c == '\U{1680}' || ('\U{2000}' <= c <= '\U{200A}')
    || c == '\U{202F}' || c == '\U{205F}' || c == '\U{3000}'
    // LineTerminator
    || c == '\n' || c == '\r' || c == '\U{2028}' || c == '\U{2029}'
  }

  predicate IsDecimalDigit(c: char) { '0' <= c <= '9' }

  /** The value of `c` as a digit in any radix up to 36; 36 when it is no digit at all. */
  function DigitValue(c: char): (d: nat)
    ensures d <= 36
    ensures d < 10 <==> IsDecimalDigit(c)
  {
    if '0' <= c <= '9' then c as nat - '0' as nat
    else if 'a' <= c <= 'z' then c as nat - 'a' as nat + 10
    else if 'A' <= c <= 'Z' then c as nat - 'A' as nat + 10
    else 36
  }

  /** `s` without its leading white space. */
  function TrimStart(s: string): (t: string)
    ensures |t| <= |s| && t == s[|s| - |t|..]
    ensures t != [] ==> !IsWhiteSpace(t[0])
    ensures forall i :: 0 <= i < |s| - |t| ==> IsWhiteSpace(s[i])
  {
    if s != [] && IsWhiteSpace(s[0]) then
      var t := TrimStart(s[1..]);
      assert forall i :: 1 <= i < |s| ==> s[i] == s[1..][i - 1];
      t
    else s
  }

  /** The longest prefix of `s` made of radix-`radix` digits. */
  function LeadingDigits(s: string, radix: nat): (z: string)
    ensures |z| <= |s| && z == s[..|z|]
    ensures forall i :: 0 <= i < |z| ==> DigitValue(z[i]) < radix
    ensures |z| < |s| ==> DigitValue(s[|z|]) >= radix
  {
    if s != [] && DigitValue(s[0]) < radix then [s[0]] + LeadingDigits(s[1..], radix) else []
  }

  /** The number written by the digits `z` in radix `radix`, most significant first. */
  function DigitsValue(z: string, radix: nat): nat {
    if z == [] then 0 else DigitsValue(z[..|z| - 1], radix) * radix + DigitValue(z[|z| - 1])
  }

  /** `parseInt(s)`: skip white space, read an optional sign, then an optional
      `0x`/`0X` prefix (which switches to radix 16), then as many digits as
      follow. No digit at all is NaN. A negative zero is the integer 0 here. */
  function ParseInt(s: string): (r: Option<int>)
    // the empty string is NaN
    ensures s == [] ==> r.None?
    // a leading decimal digit that does not open a `0x` prefix always yields a non-negative number
    ensures s != [] && IsDecimalDigit(s[0]) && !HasHexPrefix(s) ==> r.Some? && r.value >= 0
    // a leading character that is no white space, no sign and no decimal digit is NaN
    ensures s != [] && !IsWhiteSpace(s[0]) && s[0] != '+' && s[0] != '-' && !IsDecimalDigit(s[0]) ==> r.None?
  {
    assert s != [] && !IsWhiteSpace(s[0]) ==> TrimStart(s) == s;
    ParseTrimmed(TrimStart(s))
  }

  /** `parseInt` from the first character that is no white space on. */
  function ParseTrimmed(t: string): (r: Option<int>)
    ensures t == [] ==> r.None?
    ensures t != [] && IsDecimalDigit(t[0]) && !HasHexPrefix(t) ==> r.Some? && r.value >= 0
    ensures t != [] && t[0] != '+' && t[0] != '-' && !IsDecimalDigit(t[0]) ==> r.None?
  {
    var sign := if t != [] && t[0] == '-' then -1 else 1;
    var u := Unsigned(t);
    var z := LeadingDigits(Unprefixed(u), Radix(u));
    if z == [] then None else Some(sign * DigitsValue(z, Radix(u)))
  }

  /** `t` without a leading `+` or `-`. */
  function Unsigned(t: string): string {
    if t != [] && (t[0] == '+' || t[0] == '-') then t[1..] else t
  }

  predicate HasHexPrefix(u: string) {
    |u| >= 2 && u[0] == '0' && (u[1] == 'x' || u[1] == 'X')
  }

  function Radix(u: string): nat { if HasHexPrefix(u) then 16 else 10 }

  function Unprefixed(u: string): string { if HasHexPrefix(u) then u[2..] else u }

  /** The decimal numeral of `n`, without leading zeros. */
  function NatToString(n: nat): (s: string)
    ensures s != []
    ensures forall i :: 0 <= i < |s| ==> IsDecimalDigit(s[i])
    ensures s[0] == '0' ==> n == 0 && |s| == 1
  {
    if n < 10 then ['0' + n as char]
    else NatToString(n / 10) + ['0' + (n % 10) as char]
  }

  /** `n.toString()` for an integer-valued number: a minus sign when negative, then the decimal numeral. */
  function IntToString(n: int): (s: string)
    ensures s != [] && !IsWhiteSpace(s[0])
    ensures n < 0 <==> s[0] == '-'
  {
    if n < 0 then "-" + NatToString(-n) else NatToString(n)
  }

  lemma {:induction false} DecimalDigitsValue(n: nat)
    ensures DigitsValue(NatToString(n), 10) == n
  {
    var s := NatToString(n);
    if n >= 10 {
      DecimalDigitsValue(n / 10);
      assert s[..|s| - 1] == NatToString(n / 10);
    }
  }

  lemma {:induction false} AllDigitsAreLeading(s: string)
    requires forall i :: 0 <= i < |s| ==> IsDecimalDigit(s[i])
    ensures LeadingDigits(s, 10) == s
  {
    if s != [] {
      AllDigitsAreLeading(s[1..]);
    }
  }

  /** Reading back a written integer gives the integer: `parseInt(n.toString()) === n`. */
  lemma ParseIntOfIntToString(n: int)
    ensures ParseInt(IntToString(n)) == Some(n)
  {
    var s := IntToString(n);
    var m: nat := if n < 0 then -n else n;
    var d := NatToString(m);
    assert TrimStart(s) == s;
    assert Unsigned(s) == d;
    assert !HasHexPrefix(d) by {
      if |d| >= 2 { assert IsDecimalDigit(d[1]); }
    }
    AllDigitsAreLeading(d);
    DecimalDigitsValue(m);
  }

  lemma {:induction false} TrimStartSkipsWhiteSpace(ws: string, s: string)
    requires forall i :: 0 <= i < |ws| ==> IsWhiteSpace(ws[i])
    ensures TrimStart(ws + s) == TrimStart(s)
  {
    if ws != [] {
      var w := ws + s;
      assert w[0] == ws[0] && w[1..] == ws[1..] + s;
      TrimStartSkipsWhiteSpace(ws[1..], s);
    } else {
      assert ws + s == s;
    }
  }

  /** `parseInt` ignores leading white space and line terminators. */
  lemma ParseIntSkipsWhiteSpace(ws: string, s: string)
    requires forall i :: 0 <= i < |ws| ==> IsWhiteSpace(ws[i])
    ensures ParseInt(ws + s) == ParseInt(s)
  {
    TrimStartSkipsWhiteSpace(ws, s);
  }
}
