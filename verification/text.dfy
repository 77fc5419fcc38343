/**
 * The java.lang text operations the roster CSV, the pick labels and the
 * trade summaries rely on: `String.trim`, `String.split(",")`,
 * `String.join`, `Integer.toString`, `Integer.parseInt`, the plain
 * decimal subset of `Double.parseDouble`, and `%.2f` formatting.
 */
module Text {
  import opened Wrappers

  // ---------------------------------------------------------------- trim

  /** `String.trim` drops every leading and trailing character at or below U+0020. */
  predicate IsTrimmed(c: char)
  {
    c <= ' '
  }

  function TrimStart(s: string): (r: string)
    ensures |r| <= |s| && r == s[|s| - |r|..]
    ensures r == [] || !IsTrimmed(r[0])
    ensures forall i :: 0 <= i < |s| - |r| ==> IsTrimmed(s[i])
  {
    if s != [] && IsTrimmed(s[0]) then TrimStart(s[1..]) else s
  }

  function TrimEnd(s: string): (r: string)
    ensures |r| <= |s| && r == s[..|r|]
    ensures r == [] || !IsTrimmed(r[|r| - 1])
    ensures forall i :: |r| <= i < |s| ==> IsTrimmed(s[i])
  {
    if s != [] && IsTrimmed(s[|s| - 1]) then TrimEnd(s[..|s| - 1]) else s
  }

  /** `String.trim`: the slice of `s` between its leading and trailing control characters and spaces. */
  function Trim(s: string): (r: string)
    ensures |r| <= |s|
    ensures r == [] || (!IsTrimmed(r[0]) && !IsTrimmed(r[|r| - 1]))
  {
    TrimEnd(TrimStart(s))
  }

  /** A string with no space or control character at either end is its own trim. */
  lemma TrimIdle(s: string)
    requires s == [] || (!IsTrimmed(s[0]) && !IsTrimmed(s[|s| - 1]))
    ensures Trim(s) == s
  {
  }

  /** A line is blank after `trim` exactly when it holds only spaces and control characters. */
  lemma TrimBlank(s: string)
    ensures Trim(s) == [] <==> forall i :: 0 <= i < |s| ==> IsTrimmed(s[i])
  {
    var t := TrimStart(s);
    if t != [] {
      assert !IsTrimmed(t[0]) && t[0] == s[|s| - |t|];
    }
  }

  // --------------------------------------------------------- split, join

  /** Every field between separators, empty ones included. */
  function SplitFields(s: string, sep: char): (r: seq<string>)
    ensures |r| >= 1
    ensures forall i :: 0 <= i < |r| ==> sep !in r[i]
  {
    if s == [] then [[]]
    else
      var rest := SplitFields(s[1..], sep);
      if s[0] == sep then [[]] + rest
      else [[s[0]] + rest[0]] + rest[1..]
  }

  /** The longest prefix of `fields` that does not end with an empty field. */
  function DropTrailingEmpty(fields: seq<string>): (r: seq<string>)
    ensures |r| <= |fields| && r == fields[..|r|]
    ensures r == [] || r[|r| - 1] != []
    ensures forall i :: |r| <= i < |fields| ==> fields[i] == []
  {
    if fields == [] || fields[|fields| - 1] != [] then fields
    else DropTrailingEmpty(fields[..|fields| - 1])
  }

  /**
   * `String.split` on a one-character separator with limit 0: a string
   * without the separator comes back whole (even the empty string);
   * otherwise the fields, with trailing empty fields removed.
   */
  function Split(s: string, sep: char): seq<string>
  {
    if sep !in s then [s] else DropTrailingEmpty(SplitFields(s, sep))
  }

  /** `String.join(sep, xs)`. */
  function Join(sep: string, xs: seq<string>): (r: string)
    ensures xs == [] ==> r == []
    ensures |xs| == 1 ==> r == xs[0]
  {
    if |xs| == 0 then []
    else if |xs| == 1 then xs[0]
    else xs[0] + sep + Join(sep, xs[1..])
  }

  /** Appending one more element adds the separator and that element at the end. */
  lemma {:induction false} JoinAppend(sep: string, xs: seq<string>, x: string)
    requires xs != []
    ensures Join(sep, xs + [x]) == Join(sep, xs) + sep + x
  {
    if |xs| == 1 {
      assert xs + [x] == [xs[0], x];
    } else {
      assert (xs + [x])[1..] == xs[1..] + [x];
      JoinAppend(sep, xs[1..], x);
    }
  }

  lemma {:induction false} SplitFieldsPrepend(a: string, t: string, sep: char)
    requires sep !in a
    ensures SplitFields(a + t, sep) == [a + SplitFields(t, sep)[0]] + SplitFields(t, sep)[1..]
  {
    if a != [] {
      assert (a + t)[1..] == a[1..] + t;
      SplitFieldsPrepend(a[1..], t, sep);
      assert [a[0]] + (a[1..] + SplitFields(t, sep)[0]) == a + SplitFields(t, sep)[0];
    } else {
      assert a + t == t;
      var f := SplitFields(t, sep);
      assert [] + f[0] == f[0];
      assert f == [f[0]] + f[1..];
    }
  }

  /** Splitting a joined list of separator-free fields gives back the fields. */
  lemma {:induction false} SplitFieldsJoin(xs: seq<string>, sep: char)
    requires xs != []
    requires forall i :: 0 <= i < |xs| ==> sep !in xs[i]
    ensures SplitFields(Join([sep], xs), sep) == xs
  {
    if |xs| == 1 {
      SplitFieldsPrepend(xs[0], [], sep);
      assert xs[0] + [] == xs[0];
    } else {
      var rest := Join([sep], xs[1..]);
      assert Join([sep], xs) == xs[0] + ([sep] + rest);
      SplitFieldsPrepend(xs[0], [sep] + rest, sep);
      assert ([sep] + rest)[1..] == rest;
      assert SplitFields([sep] + rest, sep) == [[]] + SplitFields(rest, sep);
      SplitFieldsJoin(xs[1..], sep);
      assert xs[0] + [] == xs[0];
      assert xs == [xs[0]] + xs[1..];
    }
  }

  // ------------------------------------------------------------ integers

  predicate IsDigit(c: char)
  {
    '0' <= c <= '9'
  }

  predicate AllDigits(s: string)
  {
    forall i :: 0 <= i < |s| ==> IsDigit(s[i])
  }

  function DigitChar(d: nat): (c: char)
    requires d < 10
    ensures IsDigit(c) && c as int - '0' as int == d
  {
    ('0' as int + d) as char
  }

  function DigitValue(c: char): (d: nat)
    requires IsDigit(c)
    ensures d < 10 && DigitChar(d) == c
  {
    c as int - '0' as int
  }

  /** The decimal value of a digit string, most significant digit first. */
  function DigitsValue(s: string): nat
    requires AllDigits(s)
  {
    if s == [] then 0 else DigitsValue(s[..|s| - 1]) * 10 + DigitValue(s[|s| - 1])
  }

  function Pow10(n: nat): (p: nat)
    ensures p >= 1
  {
    if n == 0 then 1 else 10 * Pow10(n - 1)
  }

  /** A digit string is worth less than ten to the power of its length. */
  lemma {:induction false} DigitsValueBound(s: string)
    requires AllDigits(s)
    ensures DigitsValue(s) < Pow10(|s|)
  {
    if s != [] {
      DigitsValueBound(s[..|s| - 1]);
    }
  }

  /** `Integer.toString` of a non-negative value: its decimal digits, without leading zeros. */
  function NatToString(n: nat): (r: string)
    ensures |r| >= 1 && AllDigits(r)
    ensures DigitsValue(r) == n
  {
    if n < 10 then
      assert [DigitChar(n)][..0] == [];
      [DigitChar(n)]
    else
      var r := NatToString(n / 10) + [DigitChar(n % 10)];
      assert r[..|r| - 1] == NatToString(n / 10);
      r
  }

  /** `Integer.toString` / string concatenation of an `int`. */
  function IntToString(n: int): (r: string)
    ensures r != [] && (r[0] == '-' || IsDigit(r[0])) && IsDigit(r[|r| - 1])
    ensures forall i :: 1 <= i < |r| ==> IsDigit(r[i])
  {
    if n < 0 then "-" + NatToString(-n) else NatToString(n)
  }

  const IntMin: int := -0x8000_0000
  const IntMax: int := 0x7fff_ffff

  /** The range of a Java `int`. */
  predicate IsInt32(n: int)
  {
    IntMin <= n <= IntMax
  }

  /**
   * `Integer.parseInt(s)` for ASCII digits: an optional sign followed by
   * at least one digit, whose value fits in an `int`; `None` stands for
   * the `NumberFormatException` it throws otherwise.
   */
  function ParseInt(s: string): (r: Option<int>)
    ensures r.Some? ==> IsInt32(r.value)
    ensures r.Some? ==> s != [] && AllDigits(if s[0] == '-' || s[0] == '+' then s[1..] else s)
  {
    if s == [] then None
    else
      var body := if s[0] == '-' || s[0] == '+' then s[1..] else s;
      if body == [] || !AllDigits(body) then None
      else
        var v := if s[0] == '-' then -(DigitsValue(body) as int) else DigitsValue(body);
        if IsInt32(v) then Some(v) else None
  }

  /** `Integer.parseInt(Integer.toString(n)) == n` for every `int`. */
  lemma ParseIntToString(n: int)
    requires IsInt32(n)
    ensures ParseInt(IntToString(n)) == Some(n)
  {
    if n < 0 {
      assert ("-" + NatToString(-n))[1..] == NatToString(-n);
    }
  }

  /** A digit string of at most nine digits always parses, to its decimal value. */
  lemma ParseIntDigits(s: string)
    requires s != [] && AllDigits(s) && |s| <= 9
    ensures ParseInt(s) == Some(DigitsValue(s))
  {
    DigitsValueBound(s);
    Pow10AtMostNine(|s|);
  }

  lemma {:induction false} Pow10AtMostNine(k: nat)
    requires k <= 9
    ensures Pow10(k) <= 1_000_000_000
    decreases 9 - k
  {
    if k < 9 {
      Pow10AtMostNine(k + 1);
    }
  }

  // ------------------------------------------------------------ decimals

  /** The digit string that precedes the first '.' of `s`, and the one after it (empty when there is no '.'). */
  function IndexOfChar(s: string, c: char): (i: nat)
    ensures i <= |s| && c !in s[..i]
    ensures i < |s| ==> s[i] == c
  {
    if s == [] || s[0] == c then 0
    else
      var i := 1 + IndexOfChar(s[1..], c);
      assert s[..i] == [s[0]] + s[1..][..i - 1];
      i
  }

  /** Digits, optionally a '.' and more digits, at least one digit in all: its exact decimal value. */
  function ParseUnsignedDecimal(body: string): (r: Option<real>)
    ensures r.Some? ==> r.value >= 0.0
  {
    var dot := IndexOfChar(body, '.');
    var whole := body[..dot];
    var frac := if dot < |body| then body[dot + 1..] else [];
    if !AllDigits(whole) || !AllDigits(frac) || |whole| + |frac| == 0 then None
    else Some(DecimalValue(whole, frac))
  }

  /** The value of the numeral `whole.frac`. */
  function DecimalValue(whole: string, frac: string): (v: real)
    requires AllDigits(whole) && AllDigits(frac)
    ensures v >= 0.0
  {
    DigitsValue(whole) as real + DigitsValue(frac) as real / Pow10(|frac|) as real
  }

  /**
   * `Double.parseDouble` on plain decimal notation: surrounding spaces,
   * an optional sign, then digits with an optional fractional part. The
   * value is the exact decimal value.
   */
  function ParseDecimal(text: string): Option<real>
  {
    ParseSignedDecimal(Trim(text))
  }

  function ParseSignedDecimal(s: string): Option<real>
  {
    if s == [] then None
    else if s[0] == '-' then
      match ParseUnsignedDecimal(s[1..])
      case None => None
      case Some(v) => Some(-v)
    else if s[0] == '+' then ParseUnsignedDecimal(s[1..])
    else ParseUnsignedDecimal(s)
  }

  /** The whole number of cents `%.2f` shows for a magnitude, rounding half up. */
  function Cents(magnitude: real): nat
    requires magnitude >= 0.0
  {
    (magnitude * 100.0 + 0.5).Floor as nat
  }

  function Magnitude(x: real): real
  {
    if x < 0.0 then -x else x
  }

  /** The value `%.2f` shows: `x` rounded half up (away from zero) to hundredths. */
  function RoundedCents(x: real): (r: real)
    ensures -0.005 < r - x <= 0.005 || -0.005 <= r - x < 0.005
  {
    var c := Cents(Magnitude(x));
    if x < 0.0 then -(c as real / 100.0) else c as real / 100.0
  }

  /** `String.format("%.2f", x)` with '.' as decimal separator; a negative value keeps its sign even when it rounds to zero. */
  function FormatCents(x: real): string
  {
    (if x < 0.0 then "-" else "") + CentsNumeral(Cents(Magnitude(x)))
  }

  /** A number of cents written as units, '.', and exactly two digits. */
  function CentsNumeral(c: nat): (r: string)
    ensures r != [] && IsDigit(r[0]) && IsDigit(r[|r| - 1])
  {
    NatToString(c / 100) + "." + [DigitChar(c % 100 / 10), DigitChar(c % 10)]
  }

  /** In digits followed by '.', the first '.' is the one after the digits. */
  lemma {:induction false} IndexOfDot(digits: string, rest: string)
    requires AllDigits(digits)
    ensures IndexOfChar(digits + "." + rest, '.') == |digits|
  {
    if digits != [] {
      assert (digits + "." + rest)[1..] == digits[1..] + "." + rest;
      IndexOfDot(digits[1..], rest);
    }
  }

  lemma TwoDigitsValue(c: nat)
    ensures DigitsValue([DigitChar(c % 100 / 10), DigitChar(c % 10)]) == c % 100
  {
    var d1, d2 := c % 100 / 10, c % 10;
    var frac := [DigitChar(d1), DigitChar(d2)];
    assert DigitsValue(frac) == d1 * 10 + d2 by {
      assert frac[..1] == [DigitChar(d1)];
      assert [DigitChar(d1)][..0] == [];
      assert DigitsValue([DigitChar(d1)]) == d1;
    }
    assert d1 * 10 + d2 == c % 100 by {
      var m := c % 100;
      assert c == 100 * (c / 100) + m;
      assert c == 10 * (10 * (c / 100) + m / 10) + m % 10;
    }
  }

  lemma CentsSplit(c: nat)
    ensures (c / 100) as real + (c % 100) as real / 100.0 == c as real / 100.0
  {
    var q, m := c / 100, c % 100;
    assert c == 100 * q + m;
    assert c as real == 100.0 * q as real + m as real;
  }

  /** A numeral `whole.frac` reads as the whole part plus the fraction scaled by its number of digits. */
  lemma ParseWholeDotFrac(whole: string, frac: string)
    requires AllDigits(whole) && AllDigits(frac) && |whole| + |frac| > 0
    ensures ParseUnsignedDecimal(whole + "." + frac) == Some(DecimalValue(whole, frac))
  {
    var body := whole + "." + frac;
    IndexOfDot(whole, frac);
    assert body[..|whole|] == whole;
    assert body[|whole| + 1..] == frac;
  }

  /** The unsigned part of a `%.2f` rendering reads back as the number of cents over 100. */
  lemma ParseCentsBody(c: nat)
    ensures ParseUnsignedDecimal(CentsNumeral(c)) == Some(c as real / 100.0)
  {
    var frac := [DigitChar(c % 100 / 10), DigitChar(c % 10)];
    ParseWholeDotFrac(NatToString(c / 100), frac);
    TwoDigitsValue(c);
    assert Pow10(|frac|) == 100;
    assert DecimalValue(NatToString(c / 100), frac) == (c / 100) as real + (c % 100) as real / 100.0;
    CentsSplit(c);
  }

  /** An optionally '-'-prefixed numeral with a digit at each end parses as its unsigned part, negated for '-'. */
  lemma ParseSigned(negative: bool, body: string, v: real)
    requires body != [] && IsDigit(body[0]) && IsDigit(body[|body| - 1])
    requires ParseUnsignedDecimal(body) == Some(v)
    ensures ParseDecimal((if negative then "-" else "") + body) == Some(if negative then -v else v)
  {
    var s := (if negative then "-" else "") + body;
    TrimIdle(s);
    if negative {
      assert s[0] == '-' && s[1..] == body;
    } else {
      assert s == body;
    }
  }

  /** A signed rendering of a number of cents reads back as that many hundredths. */
  lemma ParseSignedCents(negative: bool, c: nat)
    ensures ParseDecimal((if negative then "-" else "") + CentsNumeral(c)) ==
      Some(if negative then -(c as real / 100.0) else c as real / 100.0)
  {
    ParseCentsBody(c);
    ParseSigned(negative, CentsNumeral(c), c as real / 100.0);
  }

  /** The rendering and the rounded value of `x`, both written in terms of its number of cents `c`. */
  lemma CentsOf(x: real, c: nat)
    requires c == Cents(Magnitude(x))
    ensures FormatCents(x) == (if x < 0.0 then "-" else "") + CentsNumeral(c)
    ensures RoundedCents(x) == if x < 0.0 then -(c as real / 100.0) else c as real / 100.0
  {
  }

  lemma ParseFormatCentsAt(x: real, c: nat)
    requires c == Cents(Magnitude(x))
    ensures ParseDecimal(FormatCents(x)) == Some(RoundedCents(x))
  {
    CentsOf(x, c);
    ParseSignedCents(x < 0.0, c);
  }

  /** Reading back a `%.2f` rendering gives the rounded value. */
  lemma ParseFormatCents(x: real)
    ensures ParseDecimal(FormatCents(x)) == Some(RoundedCents(x))
  {
    ParseFormatCentsAt(x, Cents(Magnitude(x)));
  }
}
