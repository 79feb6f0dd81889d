/**
 * The nom primitives the text grammar is built from (`tag`, `space0`,
 * `newline`, `alpha1`, `digit1`, `u64`, `float`), as functions from the input
 * to a parse result that carries the unconsumed remainder, and the decimal
 * digit strings the printers emit.
 */
module Lexer {

  /** nom's `IResult`: a value and the input left over, or a recoverable error. */
  datatype Result<+T> = Ok(value: T, rest: string) | Err
  {
    predicate IsFailure()
    {
      Err?
    }

    function PropagateFailure<U>(): Result<U>
      requires Err?
    {
      Err
    }

    function Extract(): (T, string)
      requires Ok?
    {
      (value, rest)
    }
  }

  /** `tag(t)`: the literal `t` at the front of the input. */
  function Tag(t: string, s: string): (r: Result<()>)
    ensures r.Ok? <==> |t| <= |s| && s[..|t|] == t
    ensures r.Ok? ==> r.rest == s[|t|..]
  {
    if |t| <= |s| && s[..|t|] == t then Ok((), s[|t|..]) else Err
  }

  predicate IsSpace(c: char)
  {
    c == ' ' || c == '\t'
  }

  /** `space0`: skips spaces and tabs; never fails. */
  function Space0(s: string): (r: string)
    ensures |r| <= |s|
    decreases |s|
  {
    if |s| > 0 && IsSpace(s[0]) then Space0(s[1..]) else s
  }

  /** `newline`: exactly one `\n`. */
  function Newline(s: string): (r: Result<()>)
    ensures r.Ok? <==> |s| > 0 && s[0] == '\n'
    ensures r.Ok? ==> r.rest == s[1..]
  {
    if |s| > 0 && s[0] == '\n' then Ok((), s[1..]) else Err
  }

  /** `anychar`. */
  function AnyChar(s: string): (r: Result<char>)
    ensures r.Ok? <==> |s| > 0
    ensures r.Ok? ==> r.value == s[0] && r.rest == s[1..]
  {
    if |s| > 0 then Ok(s[0], s[1..]) else Err
  }

  predicate IsDigit(c: char)
  {
    '0' <= c <= '9'
  }

  predicate IsAlpha(c: char)
  {
    'a' <= c <= 'z' || 'A' <= c <= 'Z'
  }

  predicate AllDigits(s: string)
  {
    forall i :: 0 <= i < |s| ==> IsDigit(s[i])
  }

  predicate AllAlpha(s: string)
  {
    forall i :: 0 <= i < |s| ==> IsAlpha(s[i])
  }

  /** The length of the run of decimal digits at the front of `s`. */
  function DigitRun(s: string): (n: nat)
    ensures n <= |s|
    decreases |s|
  {
    if |s| > 0 && IsDigit(s[0]) then 1 + DigitRun(s[1..]) else 0
  }

  /** The length of the run of ASCII letters at the front of `s`. */
  function AlphaRun(s: string): (n: nat)
    ensures n <= |s|
    decreases |s|
  {
    if |s| > 0 && IsAlpha(s[0]) then 1 + AlphaRun(s[1..]) else 0
  }

  /** `alpha1`: one or more ASCII letters. */
  function Alpha1(s: string): (r: Result<string>)
    ensures r.Ok? ==> |r.value| > 0 && |r.rest| < |s|
  {
    var n := AlphaRun(s);
    if n == 0 then Err else Ok(s[..n], s[n..])
  }

  /** The value of a decimal digit (0 for any other character). */
  function DigitValue(c: char): (d: nat)
    ensures d < 10
  {
    if IsDigit(c) then c as int - '0' as int else 0
  }

  function DigitChar(d: nat): (c: char)
    requires d < 10
    ensures IsDigit(c) && DigitValue(c) == d
  {
    ('0' as int + d) as char
  }

  /** The number a string of decimal digits denotes (most significant first). */
  function ValueOf(ds: string): nat
    decreases |ds|
  {
    if ds == [] then 0 else ValueOf(ds[..|ds| - 1]) * 10 + DigitValue(ds[|ds| - 1])
  }

  function Pow10(n: nat): (p: nat)
    ensures p >= 1
  {
    if n == 0 then 1 else 10 * Pow10(n - 1)
  }

  /** `n / 10^m` as a real number: `m` fraction digits whose value is `n`. */
  function Shifted(n: nat, m: nat): (x: real)
    ensures x >= 0.0
    decreases m
  {
    if m == 0 then n as real else Shifted(n, m - 1) / 10.0
  }

  /** `digit1`, followed by the `u64` range check of nom's `u64` parser. */
  function U64(s: string): (r: Result<nat>)
    ensures r.Ok? ==> |r.rest| < |s|
    ensures r.Ok? ==> r.value < 0x1_0000_0000_0000_0000
  {
    var n := DigitRun(s);
    if n == 0 || ValueOf(s[..n]) >= 0x1_0000_0000_0000_0000 then Err
    else Ok(ValueOf(s[..n]), s[n..])
  }

  function Signed(negative: bool, v: real): real
  {
    if negative then -v else v
  }

  /** The fraction digits after a `.`: their value as a fraction, and what follows them. */
  function FractionDigits(u: string): (r: (real, string))
    ensures |r.1| <= |u|
  {
    var m := DigitRun(u);
    (Shifted(ValueOf(u[..m]), m), u[m..])
  }

  /** An unsigned number: digits with an optional `.` and optional fraction digits, or `.` and fraction digits. */
  function UnsignedFloat(t: string): (r: Result<real>)
    ensures r.Ok? ==> |r.rest| < |t|
  {
    var k := DigitRun(t);
    if k > 0 then
      var u := t[k..];
      if |u| > 0 && u[0] == '.' then
        var f := FractionDigits(u[1..]);
        Ok(ValueOf(t[..k]) as real + f.0, f.1)
      else
        Ok(ValueOf(t[..k]) as real, u)
    else if |t| > 0 && t[0] == '.' && DigitRun(t[1..]) > 0 then
      var f := FractionDigits(t[1..]);
      Ok(f.0, f.1)
    else Err
  }

  /** A simplified nom `float`: an optional sign, then an unsigned number. */
  function Float(s: string): (r: Result<real>)
    ensures r.Ok? ==> |r.rest| < |s|
  {
    var negative := |s| > 0 && s[0] == '-';
    var t := if |s| > 0 && (s[0] == '-' || s[0] == '+') then s[1..] else s;
    var u :- UnsignedFloat(t);
    Ok(Signed(negative, u.0), u.1)
  }

  /** `std::to_string` of a non-negative integer: its decimal digits, no padding. */
  function NatToDigits(n: nat): (ds: string)
    ensures |ds| > 0 && AllDigits(ds)
    decreases n
  {
    (if n < 10 then [] else NatToDigits(n / 10)) + [DigitChar(n % 10)]
  }

  /** The last `w` decimal digits of `n`, with leading zeros. */
  function Padded(n: nat, w: nat): (ds: string)
    ensures |ds| == w && AllDigits(ds)
    decreases w
  {
    if w == 0 then [] else Padded(n / 10, w - 1) + [DigitChar(n % 10)]
  }

  /** Printing then reading back the digits of a number gives the number. */
  lemma {:induction false} NatToDigitsValue(n: nat)
    ensures ValueOf(NatToDigits(n)) == n
    decreases n
  {
    var ds := NatToDigits(n);
    var init := if n < 10 then [] else NatToDigits(n / 10);
    assert ds == init + [DigitChar(n % 10)];
    assert ds[..|ds| - 1] == init;
    assert ValueOf(ds) == ValueOf(init) * 10 + n % 10;
    if n >= 10 {
      NatToDigitsValue(n / 10);
      assert ValueOf(init) == n / 10;
    }
    DivMod10(n);
  }

  lemma DivMod10(n: nat)
    ensures (n / 10) * 10 + n % 10 == n
  {
  }

  lemma {:induction false} PaddedValue(n: nat, w: nat)
    requires n < Pow10(w)
    ensures ValueOf(Padded(n, w)) == n
    decreases w
  {
    if w > 0 {
      var ds := Padded(n, w);
      assert ds[..|ds| - 1] == Padded(n / 10, w - 1);
      PaddedValue(n / 10, w - 1);
      DivMod10(n);
    }
  }

  /** The digit run stops exactly where the digits stop. */
  lemma {:induction false} DigitRunOfDigits(ds: string, rest: string)
    requires AllDigits(ds)
    requires rest == [] || !IsDigit(rest[0])
    ensures DigitRun(ds + rest) == |ds|
    ensures (ds + rest)[..|ds|] == ds && (ds + rest)[|ds|..] == rest
    decreases |ds|
  {
    if ds != [] {
      assert (ds + rest)[1..] == ds[1..] + rest;
      DigitRunOfDigits(ds[1..], rest);
    }
  }

  lemma {:induction false} Space0Skips(sp: string, rest: string)
    requires forall i :: 0 <= i < |sp| ==> IsSpace(sp[i])
    requires rest == [] || !IsSpace(rest[0])
    ensures Space0(sp + rest) == rest
    decreases |sp|
  {
    if sp != [] {
      assert (sp + rest)[1..] == sp[1..] + rest;
      Space0Skips(sp[1..], rest);
    }
  }

  /** A literal in front of the input is consumed exactly. */
  lemma TagThen(t: string, rest: string)
    ensures Tag(t, t + rest) == Ok((), rest)
  {
    assert (t + rest)[..|t|] == t;
    assert (t + rest)[|t|..] == rest;
  }

  /** `u64` reads a whole run of digits whose value fits. */
  lemma U64Of(ds: string, rest: string)
    requires |ds| > 0 && AllDigits(ds) && ValueOf(ds) < 0x1_0000_0000_0000_0000
    requires rest == [] || !IsDigit(rest[0])
    ensures U64(ds + rest) == Ok(ValueOf(ds), rest)
  {
    DigitRunOfDigits(ds, rest);
    assert (ds + rest)[..|ds|] == ds;
    assert (ds + rest)[|ds|..] == rest;
  }

  /** `space0` in front of a character that is not a space consumes nothing. */
  lemma Space0None(s: string)
    requires s == [] || !IsSpace(s[0])
    ensures Space0(s) == s
  {
  }

  /** The fraction digits in front of something that is not a digit. */
  lemma FractionOf(fs: string, rest: string)
    requires AllDigits(fs)
    requires rest == [] || !IsDigit(rest[0])
    ensures FractionDigits(fs + rest) == (Shifted(ValueOf(fs), |fs|), rest)
  {
    DigitRunOfDigits(fs, rest);
  }

  lemma UnsignedDecimal(ds: string, fs: string, rest: string)
    requires |ds| > 0 && AllDigits(ds) && AllDigits(fs)
    requires rest == [] || !IsDigit(rest[0])
    ensures UnsignedFloat(ds + ("." + (fs + rest))).Ok?
    ensures UnsignedFloat(ds + ("." + (fs + rest))).value == ValueOf(ds) as real + Shifted(ValueOf(fs), |fs|)
    ensures UnsignedFloat(ds + ("." + (fs + rest))).rest == rest
  {
    var u := "." + (fs + rest);
    DigitRunOfDigits(ds, u);
    assert u[1..] == fs + rest;
    FractionOf(fs, rest);
  }

  /** `float` reads digits, `.` and fraction digits, up to the first character that is not a digit. */
  lemma FloatOfDecimal(ds: string, fs: string, rest: string)
    requires |ds| > 0 && AllDigits(ds) && AllDigits(fs)
    requires rest == [] || !IsDigit(rest[0])
    ensures Float(ds + ("." + (fs + rest))).Ok?
    ensures Float(ds + ("." + (fs + rest))).value == ValueOf(ds) as real + Shifted(ValueOf(fs), |fs|)
    ensures Float(ds + ("." + (fs + rest))).rest == rest
  {
    var s := ds + ("." + (fs + rest));
    assert IsDigit(s[0]);
    UnsignedDecimal(ds, fs, rest);
    FloatUnsigned(s);
  }

  /** Without a sign in front, `float` is the unsigned number. */
  lemma FloatUnsigned(s: string)
    requires |s| > 0 && s[0] != '-' && s[0] != '+'
    ensures Float(s) == UnsignedFloat(s)
  {
  }

  /** `float` reads a whole number when the digits are followed by neither a digit nor `.`. */
  lemma FloatOfInteger(ds: string, rest: string)
    requires |ds| > 0 && AllDigits(ds)
    requires rest == [] || (!IsDigit(rest[0]) && rest[0] != '.')
    ensures Float(ds + rest) == Ok(ValueOf(ds) as real, rest)
  {
    var s := ds + rest;
    assert IsDigit(s[0]);
    DigitRunOfDigits(ds, rest);
    FloatUnsigned(s);
  }

  /** A leading `-` negates the number that follows it. */
  lemma FloatNegative(t: string)
    requires |t| > 0 && (IsDigit(t[0]) || t[0] == '.')
    requires Float(t).Ok?
    ensures Float("-" + t).Ok?
    ensures Float("-" + t).value == -Float(t).value
    ensures Float("-" + t).rest == Float(t).rest
  {
    assert ("-" + t)[1..] == t;
    FloatUnsigned(t);
  }

  /** `n` shifted by six decimal places is `n` divided by a million. */
  lemma ShiftedSix(n: nat)
    ensures Shifted(n, 6) == n as real / 1000000.0
  {
  }
}
