/** Ruby's lenient number conversions: `String#to_i`, `String#to_f` and
    `Integer#to_s`. `to_i` and `to_f` read the longest numeric prefix after
    optional leading whitespace and sign and give 0 when there is none; a
    digit run may hold single underscores between digits (`"1_000"`).
    Floats are modelled as exact reals. */
module RubyNumber {
  import opened RubyString

  predicate IsDigit(c: char) {
    '0' <= c <= '9'
  }

  predicate AllDigits(s: string) {
    forall i :: 0 <= i < |s| ==> IsDigit(s[i])
  }

  function DigitValue(c: char): nat
    requires IsDigit(c)
  {
    (c as int) - ('0' as int)
  }

  function DigitChar(d: nat): (c: char)
    requires d < 10
    ensures IsDigit(c) && DigitValue(c) == d
  {
    (('0' as int) + d) as char
  }

  /** The value of a string of decimal digits, most significant first. */
  function DigitsValue(s: string): nat
    requires AllDigits(s)
    decreases |s|
  {
    if |s| == 0 then 0 else DigitsValue(s[..|s| - 1]) * 10 + DigitValue(s[|s| - 1])
  }

  function Pow10(e: nat): (r: nat)
    ensures r >= 1
  {
    if e == 0 then 1 else 10 * Pow10(e - 1)
  }

  // ---------------------------------------------------------------------------
  // digit runs

  /** The rest of a digit run after its first digit: digits, each optionally
      preceded by one underscore. Yields the digits read and the characters spanned. */
  function ScanMore(s: string): (r: (string, nat))
    ensures r.1 <= |s| && AllDigits(r.0)
    decreases |s|
  {
    if |s| >= 1 && IsDigit(s[0]) then
      var m := ScanMore(s[1..]); ([s[0]] + m.0, m.1 + 1)
    else if |s| >= 2 && s[0] == '_' && IsDigit(s[1]) then
      var m := ScanMore(s[2..]); ([s[1]] + m.0, m.1 + 2)
    else ("", 0)
  }

  /** The digit run `digit ('_'? digit)*` at the start of `s`: its digits and its length. */
  function ScanDigits(s: string): (r: (string, nat))
    ensures r.1 <= |s| && AllDigits(r.0)
    ensures r.0 == [] <==> r.1 == 0
    ensures r.1 == 0 <==> (|s| == 0 || !IsDigit(s[0]))
  {
    if |s| == 0 || !IsDigit(s[0]) then ("", 0)
    else var m := ScanMore(s[1..]); ([s[0]] + m.0, m.1 + 1)
  }

  /** `rest` cannot continue a digit run. */
  predicate EndsRun(rest: string) {
    && !(|rest| >= 1 && IsDigit(rest[0]))
    && !(|rest| >= 2 && rest[0] == '_' && IsDigit(rest[1]))
  }

  lemma {:induction false} ScanMoreOf(d: string, rest: string)
    requires AllDigits(d) && EndsRun(rest)
    ensures ScanMore(d + rest) == (d, |d|)
    decreases |d|
  {
    if |d| > 0 {
      var t := d[1..];
      assert (d + rest)[1..] == t + rest;
      assert IsDigit((d + rest)[0]);
      ScanMoreOf(t, rest);
      assert ScanMore(d + rest) == ([d[0]] + t, |t| + 1);
      assert [d[0]] + t == d;
    } else {
      assert d + rest == rest;
    }
  }

  /** A run of plain digits followed by a non-run character is read whole. */
  lemma {:induction false} ScanDigitsOf(d: string, rest: string)
    requires |d| > 0 && AllDigits(d) && EndsRun(rest)
    ensures ScanDigits(d + rest) == (d, |d|)
  {
    assert (d + rest)[1..] == d[1..] + rest;
    ScanMoreOf(d[1..], rest);
    assert [d[0]] + d[1..] == d;
  }

  /** An optional sign: whether it was `-`, and the text after it. */
  function SplitSign(t: string): (r: (bool, string))
    ensures |r.1| <= |t|
  {
    if |t| > 0 && t[0] == '-' then (true, t[1..])
    else if |t| > 0 && t[0] == '+' then (false, t[1..])
    else (false, t)
  }

  // ---------------------------------------------------------------------------
  // to_i, to_s, to_f

  /** `String#to_i`: optional whitespace, optional sign, an optional `0d`
      radix prefix, then a digit run; 0 when no digits follow. */
  function ToI(s: string): int {
    SignedToI(SkipSpace(s))
  }

  /** What `to_i` reads once leading whitespace is skipped. */
  function SignedToI(t: string): int {
    var signed := SplitSign(t);
    var n: int := DigitsValue(ScanDigits(DropRadixPrefix(signed.1)).0);
    if signed.0 then -n else n
  }

  /** `0d`/`0D`, the explicit decimal radix prefix, when digits follow it. */
  function DropRadixPrefix(u: string): string {
    if |u| >= 3 && u[0] == '0' && (u[1] == 'd' || u[1] == 'D') && IsDigit(u[2]) then u[2..] else u
  }

  /** `Integer#to_s` of a natural number. */
  function NatToS(n: nat): (r: string)
    ensures |r| > 0 && AllDigits(r)
    ensures r[0] == '0' ==> n == 0
    decreases n
  {
    if n < 10 then [DigitChar(n)] else NatToS(n / 10) + [DigitChar(n % 10)]
  }

  /** `Integer#to_s`. */
  function ToS(n: int): string {
    if n < 0 then "-" + NatToS(-n) else NatToS(n)
  }

  /** The digits of `ToS(n)`, after any sign. */
  lemma {:induction false} ToSParts(n: int)
    ensures SkipSpace(ToS(n)) == ToS(n)
    ensures SplitSign(ToS(n)) == (n < 0, NatToS(if n < 0 then -n else n))
  {
    var t := ToS(n);
    if n < 0 {
      var w := NatToS(-n);
      assert t == "-" + w;
      assert t[1..] == w;
    } else {
      assert t == NatToS(n);
      assert IsDigit(t[0]);
    }
    SkipSpaceNone(t);
  }

  /** A digit run that `to_f` reads as a fraction, after its `.`. */
  function ScanFraction(t: string): (r: (string, nat))
    ensures r.1 <= |t| && AllDigits(r.0)
  {
    if |t| >= 2 && t[0] == '.' && IsDigit(t[1]) then
      var f := ScanDigits(t[1..]); (f.0, f.1 + 1)
    else ("", 0)
  }

  /** The exponent `e`/`E`, optional sign, digits; 0 when absent or empty. */
  function Exponent(t: string): int {
    if |t| >= 2 && (t[0] == 'e' || t[0] == 'E') then
      var signed := SplitSign(t[1..]);
      var v: int := DigitsValue(ScanDigits(signed.1).0);
      if signed.0 then -v else v
    else 0
  }

  function Scale(m: real, e: int): real {
    if e >= 0 then m * Pow10(e) as real else m / Pow10(-e) as real
  }

  /** `String#to_f`: optional whitespace and sign, a whole-number digit run,
      an optional `.` fraction run, an optional exponent; 0 when no digits
      lead. Read as an exact real: binary64 rounding is not modelled. */
  function ToF(s: string): real {
    SignedToF(SkipSpace(s))
  }

  /** What `to_f` reads once leading whitespace is skipped. */
  function SignedToF(t: string): real {
    var signed := SplitSign(t);
    var magnitude := UnsignedToF(signed.1);
    if signed.0 then -magnitude else magnitude
  }

  /** The magnitude `to_f` reads after the sign. */
  function UnsignedToF(u: string): real {
    var whole := ScanDigits(u);
    var afterWhole := u[whole.1..];
    var frac := ScanFraction(afterWhole);
    var mantissa := DigitsValue(whole.0) as real + DigitsValue(frac.0) as real / Pow10(|frac.0|) as real;
    var e := if |whole.0| + |frac.0| > 0 then Exponent(afterWhole[frac.1..]) else 0;
    Scale(mantissa, e)
  }

  // ---------------------------------------------------------------------------
  // round trips

  lemma {:induction false} DigitsValueAppend(d: string, c: char)
    requires AllDigits(d) && IsDigit(c)
    ensures DigitsValue(d + [c]) == DigitsValue(d) * 10 + DigitValue(c)
  {
    assert (d + [c])[..|d|] == d;
  }

  lemma {:induction false} DigitsValueOfNatToS(n: nat)
    ensures DigitsValue(NatToS(n)) == n
    decreases n
  {
    if n >= 10 {
      DigitsValueOfNatToS(n / 10);
      DigitsValueAppend(NatToS(n / 10), DigitChar(n % 10));
    }
  }

  /** A canonical natural: digits without a leading zero. */
  predicate Unsigned(w: string) {
    |w| > 0 && AllDigits(w) && w[0] != '0'
  }

  /** The exact text `Integer#to_s` produces: `0`, or an optional `-`
      followed by a nonzero digit and more digits. */
  predicate IsCanonicalInt(s: string) {
    s == "0" || Unsigned(s) || (|s| >= 2 && s[0] == '-' && Unsigned(s[1..]))
  }

  lemma {:induction false} DigitsValuePositive(w: string)
    requires Unsigned(w)
    ensures DigitsValue(w) >= Pow10(|w| - 1)
    decreases |w|
  {
    if |w| > 1 {
      DigitsValuePositive(w[..|w| - 1]);
    }
  }

  lemma {:induction false} NatToSOfDigits(w: string)
    requires w == "0" || Unsigned(w)
    ensures NatToS(DigitsValue(w)) == w
    decreases |w|
  {
    if |w| > 1 {
      var front := w[..|w| - 1];
      var v := DigitsValue(w);
      DigitsValuePositive(front);
      assert v == DigitsValue(front) * 10 + DigitValue(w[|w| - 1]);
      assert v / 10 == DigitsValue(front) && v % 10 == DigitValue(w[|w| - 1]);
      NatToSOfDigits(front);
      assert DigitChar(v % 10) == w[|w| - 1];
      assert front + [w[|w| - 1]] == w;
    } else {
      assert DigitsValue(w) == DigitValue(w[0]);
      assert [DigitChar(DigitValue(w[0]))] == w;
    }
  }

  /** `to_i` reads back what `to_s` wrote. */
  lemma {:induction false} ToIOfToS(n: int)
    ensures ToI(ToS(n)) == n
  {
    var m: nat := if n < 0 then -n else n;
    var w := NatToS(m);
    ToSParts(n);
    assert DropRadixPrefix(w) == w;
    ScanDigitsOf(w, "");
    assert w + "" == w;
    DigitsValueOfNatToS(m);
  }

  /** `to_i` reads back what `to_s` wrote when the text after it cannot
      continue the number. */
  lemma {:induction false} ToIOfToSThen(n: int, rest: string)
    requires |rest| > 0 ==> !IsDigit(rest[0]) && rest[0] !in "_dD"
    ensures ToI(ToS(n) + rest) == n
  {
    var m: nat := if n < 0 then -n else n;
    var w := NatToS(m);
    ToSParts(n);
    var t := ToS(n) + rest;
    assert |ToS(n)| > 0 && !IsSpace(t[0]);
    SkipSpaceNone(t);
    if n < 0 {
      assert t[1..] == w + rest;
      assert SplitSign(t) == (true, w + rest);
    } else {
      assert SplitSign(t) == (false, w + rest);
    }
    assert DropRadixPrefix(w + rest) == w + rest;
    ScanDigitsOf(w, rest);
    DigitsValueOfNatToS(m);
  }

  /** `to_s` writes an optional minus sign and digits only. */
  lemma {:induction false} ToSDigits(n: int)
    ensures forall i :: 0 <= i < |ToS(n)| ==> ToS(n)[i] == '-' || IsDigit(ToS(n)[i])
  {
  }

  lemma {:induction false} ToSIsCanonical(n: int)
    ensures IsCanonicalInt(ToS(n))
  {
    if n < 0 {
      assert ToS(n)[1..] == NatToS(-n);
    }
  }

  /** `to_s` of `to_i` gives back exactly the canonical integer texts. */
  lemma {:induction false} CanonicalRoundTrip(s: string)
    ensures ToS(ToI(s)) == s <==> IsCanonicalInt(s)
  {
    if ToS(ToI(s)) == s {
      ToSIsCanonical(ToI(s));
    }
    if IsCanonicalInt(s) {
      CanonicalToI(s);
    }
  }

  /** `to_i` after the sign: a whole run of digits is read as its value. */
  lemma {:induction false} DigitsAfterSign(u: string)
    requires |u| > 0 && AllDigits(u) && (u[0] != '0' || |u| == 1)
    ensures DigitsValue(ScanDigits(DropRadixPrefix(u)).0) == DigitsValue(u)
  {
    assert DropRadixPrefix(u) == u;
    ScanDigitsOf(u, "");
    assert u + "" == u;
  }

  lemma {:induction false} ToIOfDigits(u: string)
    requires u == "0" || Unsigned(u)
    ensures ToI(u) == DigitsValue(u)
  {
    SkipSpaceNone(u);
    assert SplitSign(u) == (false, u);
    DigitsAfterSign(u);
  }

  lemma {:induction false} ToIOfNegative(u: string)
    requires Unsigned(u)
    ensures ToI("-" + u) == -(DigitsValue(u) as int)
  {
    var s := "-" + u;
    SkipSpaceNone(s);
    assert s[1..] == u;
    assert SplitSign(s) == (true, u);
    DigitsAfterSign(u);
  }

  lemma {:induction false} CanonicalToI(s: string)
    requires IsCanonicalInt(s)
    ensures ToS(ToI(s)) == s
  {
    if s[0] == '-' {
      var u := s[1..];
      assert "-" + u == s;
      ToIOfNegative(u);
      NegativeToS(u);
    } else {
      ToIOfDigits(s);
      NatToSOfDigits(s);
    }
  }

  /** `to_s` writes a negative number as `-` and the digits of its magnitude. */
  lemma {:induction false} NegativeToS(u: string)
    requires Unsigned(u)
    ensures ToS(-(DigitsValue(u) as int)) == "-" + u
  {
    DigitsValuePositive(u);
    NatToSOfDigits(u);
  }

  lemma {:induction false} UnsignedToFOfDigits(w: string, rest: string)
    requires |w| > 0 && AllDigits(w)
    requires |rest| > 0 ==> !IsDigit(rest[0]) && rest[0] !in "_.eE"
    ensures UnsignedToF(w + rest) == DigitsValue(w) as real
  {
    ScanDigitsOf(w, rest);
    assert (w + rest)[|w|..] == rest;
    assert ScanFraction(rest) == ("", 0);
    assert rest[0..] == rest;
    assert Exponent(rest) == 0;
  }

  /** Text that starts with a non-blank is read by `to_f` from its first character. */
  lemma {:induction false} ToFUnpadded(s: string)
    requires |s| > 0 ==> !IsSpace(s[0])
    ensures ToF(s) == SignedToF(s)
  {
    SkipSpaceNone(s);
  }

  /** An optional `-` before an unsigned number negates what `to_f` reads. */
  lemma {:induction false} SignedToFOf(neg: bool, u: string)
    requires |u| > 0 && IsDigit(u[0])
    ensures SignedToF((if neg then "-" else "") + u) == if neg then -UnsignedToF(u) else UnsignedToF(u)
  {
    var s := (if neg then "-" else "") + u;
    if neg {
      assert s[1..] == u;
    } else {
      assert s == u;
    }
    assert SplitSign(s) == (neg, u);
  }

  /** `to_f` reads the integer written by `to_s`, up to a character that cannot continue a number. */
  lemma {:induction false} ToFOfToS(n: int, rest: string)
    requires |rest| > 0 ==> !IsDigit(rest[0]) && rest[0] !in "_.eE"
    ensures ToF(ToS(n) + rest) == n as real
  {
    var m: nat := if n < 0 then -n else n;
    var w := NatToS(m);
    var s := ToS(n) + rest;
    assert s == (if n < 0 then "-" else "") + (w + rest);
    ToFUnpadded(s);
    SignedToFOf(n < 0, w + rest);
    UnsignedToFOfDigits(w, rest);
    DigitsValueOfNatToS(m);
  }

  /** Leading whitespace does not change what `to_i` reads. */
  lemma {:induction false} ToISkipsSpace(w: string, s: string)
    requires AllSpace(w)
    requires |s| > 0 ==> !IsSpace(s[0])
    ensures ToI(w + s) == ToI(s)
  {
    SkipSpaceOfPadded(w, s);
    SkipSpaceNone(s);
  }

  /** `to_f` reads a decimal `w.f` exactly, up to a character that cannot continue it. */
  lemma {:induction false} UnsignedToFOfDecimal(w: string, f: string, rest: string)
    requires |w| > 0 && AllDigits(w) && |f| > 0 && AllDigits(f)
    requires |rest| > 0 ==> !IsDigit(rest[0]) && rest[0] !in "_eE"
    ensures UnsignedToF(w + "." + f + rest) == DigitsValue(w) as real + DigitsValue(f) as real / Pow10(|f|) as real
  {
    var afterWhole := "." + f + rest;
    var u := w + afterWhole;
    assert w + "." + f + rest == u;
    ScanDigitsOf(w, afterWhole);
    assert u[|w|..] == afterWhole;
    FractionOf(f, rest);
    assert Exponent(rest) == 0;
    UnsignedToFOfParts(u, w, f, rest);
  }

  /** The fraction run after a `.`, and what follows it. */
  lemma {:induction false} FractionOf(f: string, rest: string)
    requires |f| > 0 && AllDigits(f)
    requires |rest| > 0 ==> !IsDigit(rest[0]) && rest[0] != '_'
    ensures ScanFraction("." + f + rest) == (f, |f| + 1)
    ensures ("." + f + rest)[|f| + 1..] == rest
  {
    var t := "." + f + rest;
    assert t[1..] == f + rest;
    ScanDigitsOf(f, rest);
  }

  /** `to_f` of a magnitude whose whole run, fraction run and (absent) exponent are known. */
  lemma {:induction false} UnsignedToFOfParts(u: string, w: string, f: string, rest: string)
    requires AllDigits(w) && AllDigits(f)
    requires ScanDigits(u) == (w, |w|) && |w| <= |u|
    requires ScanFraction(u[|w|..]) == (f, |f| + 1) && |f| + 1 <= |u[|w|..]|
    requires u[|w|..][|f| + 1..] == rest && Exponent(rest) == 0
    ensures UnsignedToF(u) == DigitsValue(w) as real + DigitsValue(f) as real / Pow10(|f|) as real
  {
  }
}
