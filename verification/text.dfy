/**
 * Text handling the scripts rely on: file-name tests, the digits of a date,
 * the integer Yearmon (YYYYMM) that every trading script derives from a
 * date, numeric coercion of a text cell, and `str.strip()` of a column name.
 */
module Text {
  import opened Tables

  predicate StartsWith(s: string, prefix: string)
  {
    |prefix| <= |s| && s[..|prefix|] == prefix
  }

  predicate EndsWith(s: string, suffix: string)
  {
    |suffix| <= |s| && s[|s| - |suffix|..] == suffix
  }

  predicate IsDigit(c: char)
  {
    '0' <= c <= '9'
  }

  predicate NotDash(c: char)
  {
    c != '-'
  }

  predicate AllDigits(s: string)
  {
    forall i :: 0 <= i < |s| ==> IsDigit(s[i])
  }

  function DigitValue(c: char): nat
    requires IsDigit(c)
  {
    (c as int) - ('0' as int)
  }

  function DigitChar(d: nat): (c: char)
    requires d < 10
    ensures IsDigit(c) && DigitValue(c) == d
  {
    (('0' as int) + d) as char
  }

  function Pow10(n: nat): (p: nat)
    ensures p >= 1
  {
    if n == 0 then 1 else 10 * Pow10(n - 1)
  }

  /** The integer a string of decimal digits denotes (`int(s)` on digits only). */
  function DigitsValue(s: string): nat
    requires AllDigits(s)
  {
    if s == [] then 0 else DigitsValue(s[..|s| - 1]) * 10 + DigitValue(s[|s| - 1])
  }

  lemma {:induction false} DigitsValueConcat(a: string, b: string)
    requires AllDigits(a) && AllDigits(b)
    ensures AllDigits(a + b)
    ensures DigitsValue(a + b) == DigitsValue(a) * Pow10(|b|) + DigitsValue(b)
  {
    AllDigitsConcat(a, b);
    if b == [] {
      assert a + b == a;
    } else {
      var b' := b[..|b| - 1];
      var c := b[|b| - 1];
      assert a + b == (a + b') + [c];
      AllDigitsConcat(a, b');
      DigitsValueConcat(a, b');
      var x, p, y, d := DigitsValue(a), Pow10(|b'|), DigitsValue(b'), DigitValue(c);
      assert DigitsValue(a + b) == DigitsValue(a + b') * 10 + d by {
        assert (a + b)[..|a + b| - 1] == a + b';
      }
      assert DigitsValue(b) == y * 10 + d;
      ShiftDigit(x, p, y, d);
    }
  }

  lemma AllDigitsConcat(a: string, b: string)
    requires AllDigits(a) && AllDigits(b)
    ensures AllDigits(a + b)
  {
    forall i | 0 <= i < |a + b| ensures IsDigit((a + b)[i]) {
      if i >= |a| { assert (a + b)[i] == b[i - |a|]; }
    }
  }

  /** Appending a digit to the lower part of a number shifts both parts one place. */
  lemma ShiftDigit(x: int, p: int, y: int, d: int)
    ensures (x * p + y) * 10 + d == x * (10 * p) + (y * 10 + d)
  {
  }

  /** `n` written with exactly `width` decimal digits, zero-padded on the left (`%04d`, `%02d`). */
  function FixedDigits(n: nat, width: nat): (r: string)
    ensures |r| == width && AllDigits(r)
  {
    if width == 0 then [] else FixedDigits(n / 10, width - 1) + [DigitChar(n % 10)]
  }

  lemma {:induction false} FixedDigitsValue(n: nat, width: nat)
    requires n < Pow10(width)
    ensures DigitsValue(FixedDigits(n, width)) == n
  {
    if width > 0 {
      assert n / 10 < Pow10(width - 1);
      FixedDigitsValue(n / 10, width - 1);
      var r := FixedDigits(n, width);
      assert r[..|r| - 1] == FixedDigits(n / 10, width - 1);
    }
  }

  /** How pandas prints a midnight timestamp: 'YYYY-MM-DD'. */
  function DateText(d: ParsedDate): string
  {
    FixedDigits(d.year, 4) + "-" + FixedDigits(d.month, 2) + "-" + FixedDigits(d.day, 2)
  }

  /** `strftime('%Y%m%d')`. */
  function CompactText(d: ParsedDate): string
  {
    FixedDigits(d.year, 4) + FixedDigits(d.month, 2) + FixedDigits(d.day, 2)
  }

  /** The intended Yearmon of a date. */
  function YearMonth(d: Date): int
  {
    d.year * 100 + d.month
  }

  /** `int(text.replace('-', '')) // 100`; None where `int` would raise. */
  function DashlessYearmon(text: string): Option<int>
  {
    var digits := Filter(text, NotDash);
    if |digits| > 0 && AllDigits(digits) then Some(DigitsValue(digits) / 100) else None
  }

  /** `int(re.sub(r'\D', '', text)) // 100`; None where `int` would raise (no digit left). */
  function DigitYearmon(text: string): Option<int>
  {
    var digits := Filter(text, IsDigit);
    if digits == [] then None else Some(DigitsValue(digits) / 100)
  }

  /** `int(d.strftime('%Y%m%d')) // 100`. */
  function CompactYearmon(d: ParsedDate): int
  {
    DigitsValue(CompactText(d)) / 100
  }

  lemma CompactValue(d: ParsedDate)
    ensures DigitsValue(CompactText(d)) == d.year * 10000 + d.month * 100 + d.day
  {
    var y, m, dd := FixedDigits(d.year, 4), FixedDigits(d.month, 2), FixedDigits(d.day, 2);
    assert Pow10(2) == 100 && Pow10(4) == 10000;
    FixedDigitsValue(d.year, 4);
    FixedDigitsValue(d.month, 2);
    FixedDigitsValue(d.day, 2);
    DigitsValueConcat(y, m);
    DigitsValueConcat(y + m, dd);
    assert CompactText(d) == (y + m) + dd;
    Shift100(d.year, d.month, d.day);
  }

  lemma Shift100(y: int, m: int, d: int)
    ensures (y * 100 + m) * 100 + d == y * 10000 + m * 100 + d
  {
  }

  lemma {:induction false} DivHundred(a: int, r: int)
    requires 0 <= r < 100
    ensures (a * 100 + r) / 100 == a
  {
  }

  /** mom: the Yearmon read off `strftime('%Y%m%d')` is the date's YYYYMM. */
  lemma CompactYearmonIsYearMonth(d: ParsedDate)
    ensures CompactYearmon(d) == YearMonth(d)
  {
    CompactValue(d);
    assert d.year * 10000 + d.month * 100 + d.day == (d.year * 100 + d.month) * 100 + d.day;
    DivHundred(d.year * 100 + d.month, d.day);
  }

  /** Filtering `a + "-" + b` by a test the dash fails filters the two sides. */
  lemma FilterAroundDash(a: string, b: string, p: char -> bool)
    requires !p('-')
    ensures Filter(a + "-" + b, p) == Filter(a, p) + Filter(b, p)
  {
    var dash: string := "-";
    assert Filter(dash, p) == [] by {
      assert dash == [dash[0]] + dash[1..] && dash[1..] == [];
    }
    FilterConcat(a + dash, b, p);
    FilterConcat(a, dash, p);
    assert Filter(a + dash, p) == Filter(a, p);
  }

  lemma FilterDateText(d: ParsedDate, p: char -> bool)
    requires !p('-') && forall c :: IsDigit(c) ==> p(c)
    ensures Filter(DateText(d), p) == CompactText(d)
  {
    var y, m, dd := FixedDigits(d.year, 4), FixedDigits(d.month, 2), FixedDigits(d.day, 2);
    FilterKeepsAll(y, p);
    FilterKeepsAll(m, p);
    FilterKeepsAll(dd, p);
    assert DateText(d) == (y + "-" + m) + "-" + dd;
    FilterAroundDash(y + "-" + m, dd, p);
    FilterAroundDash(y, m, p);
  }

  /** Removing the dashes from 'YYYY-MM-DD' or all non-digits from either spelling gives 'YYYYMMDD'. */
  lemma DateTextDigits(d: ParsedDate)
    ensures Filter(DateText(d), NotDash) == CompactText(d)
    ensures Filter(DateText(d), IsDigit) == CompactText(d)
    ensures Filter(CompactText(d), IsDigit) == CompactText(d)
  {
    FilterDateText(d, NotDash);
    FilterDateText(d, IsDigit);
    FilterKeepsAll(CompactText(d), IsDigit);
  }

  /** factor.py: `int(str(date).replace('-', '')) // 100` is the date's YYYYMM. */
  lemma DashlessYearmonIsYearMonth(d: ParsedDate)
    ensures DashlessYearmon(DateText(d)) == Some(YearMonth(d))
  {
    DateTextDigits(d);
    CompactYearmonIsYearMonth(d);
  }

  /** volatility's My_YM gives the same YYYYMM for 'YYYY-MM-DD' and for 'YYYYMMDD'. */
  lemma DigitYearmonBothSpellings(d: ParsedDate)
    ensures DigitYearmon(DateText(d)) == DigitYearmon(CompactText(d)) == Some(YearMonth(d))
  {
    DateTextDigits(d);
    CompactYearmonIsYearMonth(d);
  }

  /** The position of the first `c` in `s`. */
  function IndexOf(s: string, c: char): (r: Option<nat>)
    ensures r.Some? ==> r.value < |s|
  {
    if s == [] then None
    else if s[0] == c then Some(0)
    else
      match IndexOf(s[1..], c)
      case None => None
      case Some(k) => Some(k + 1)
  }

  /** `IndexOf` finds the first `c`, and finds none only when there is none. */
  lemma {:induction false} IndexOfFirst(s: string, c: char)
    ensures IndexOf(s, c).Some? ==> IndexOf(s, c).value < |s| && s[IndexOf(s, c).value] == c && c !in s[..IndexOf(s, c).value]
    ensures IndexOf(s, c).None? ==> c !in s
  {
    if s != [] && s[0] != c {
      IndexOfFirst(s[1..], c);
      if IndexOf(s[1..], c).Some? {
        var k := IndexOf(s[1..], c).value;
        assert s[..k + 1] == [s[0]] + s[1..][..k];
      }
    }
  }

  /** The first `c` at position `k` is what `IndexOf` finds. */
  lemma {:induction false} IndexOfAt(s: string, c: char, k: nat)
    requires k <= |s| && c !in s[..k]
    ensures IndexOf(s, c) == if k < |s| && s[k] == c then Some(k) else if k == |s| then None else IndexOf(s, c)
  {
    if k > 0 {
      assert s[0] == s[..k][0];
      assert s[1..][..k - 1] == s[..k][1..];
      IndexOfAt(s[1..], c, k - 1);
    }
  }

  /** `m` times ten to the power `e`, one decimal place at a time. */
  function Shifted(m: real, e: int): real
    decreases if e < 0 then -e else e
  {
    if e == 0 then m
    else if e > 0 then Shifted(m * 10.0, e - 1)
    else Shifted(m / 10.0, e + 1)
  }

  /** Shifting by `e` places multiplies by 10^e, or divides by 10^-e when `e` is negative. */
  lemma {:induction false} ShiftedIsPower(m: real, e: int)
    ensures e >= 0 ==> Shifted(m, e) == m * Pow10(e) as real
    ensures e < 0 ==> Shifted(m, e) == m / Pow10(-e) as real
    decreases if e < 0 then -e else e
  {
    if e > 0 {
      ShiftedIsPower(m * 10.0, e - 1);
      assert Pow10(e) == 10 * Pow10(e - 1);
    } else if e < 0 {
      ShiftedIsPower(m / 10.0, e + 1);
      assert Pow10(-e) == 10 * Pow10(-e - 1);
    }
  }

  /** An unsigned decimal literal: digits, optionally one '.', at least one digit. */
  function ParseUnsigned(s: string): Option<real>
  {
    match IndexOf(s, '.')
    case None =>
      if |s| > 0 && AllDigits(s) then Some(DigitsValue(s) as real) else None
    case Some(k) =>
      var whole, frac := s[..k], s[k + 1..];
      if |whole| + |frac| > 0 && AllDigits(whole) && AllDigits(frac) then
        Some(DigitsValue(whole) as real + Shifted(DigitsValue(frac) as real, -|frac|))
      else None
  }

  predicate IsExpLetter(c: char)
  {
    c == 'e' || c == 'E'
  }

  /** The position of the first exponent letter in `s`. */
  function ExpIndex(s: string): (r: Option<nat>)
    ensures r.Some? ==> r.value < |s|
  {
    if s == [] then None
    else if IsExpLetter(s[0]) then Some(0)
    else
      match ExpIndex(s[1..])
      case None => None
      case Some(k) => Some(k + 1)
  }

  /** `ExpIndex` finds the first exponent letter, and finds none only when there is none. */
  lemma {:induction false} ExpIndexFirst(s: string)
    ensures ExpIndex(s).Some? ==>
      ExpIndex(s).value < |s| && IsExpLetter(s[ExpIndex(s).value])
      && forall i :: 0 <= i < ExpIndex(s).value ==> !IsExpLetter(s[i])
    ensures ExpIndex(s).None? ==> forall i :: 0 <= i < |s| ==> !IsExpLetter(s[i])
  {
    if s != [] && !IsExpLetter(s[0]) {
      ExpIndexFirst(s[1..]);
      assert forall i :: 1 <= i < |s| ==> s[i] == s[1..][i - 1];
    }
  }

  /** The first exponent letter at position `k` is what `ExpIndex` finds; with none up to the end, it finds none. */
  lemma {:induction false} ExpIndexAt(s: string, k: nat)
    requires k <= |s| && forall i :: 0 <= i < k ==> !IsExpLetter(s[i])
    ensures k < |s| && IsExpLetter(s[k]) ==> ExpIndex(s) == Some(k)
    ensures k == |s| ==> ExpIndex(s) == None
  {
    if k > 0 {
      assert !IsExpLetter(s[0]);
      ExpIndexAt(s[1..], k - 1);
    }
  }

  /** An exponent: an optional sign and at least one digit. */
  function ParseExponent(s: string): Option<int>
  {
    if |s| > 0 && (s[0] == '-' || s[0] == '+') then
      if |s| > 1 && AllDigits(s[1..]) then Some(SignedValue(s[..1], s[1..])) else None
    else if |s| > 0 && AllDigits(s) then Some(DigitsValue(s))
    else None
  }

  /** The integer `digits` spells, negated after a minus sign. */
  function SignedValue(sign: string, digits: string): int
    requires AllDigits(digits)
  {
    if sign == "-" then -(DigitsValue(digits) as int) else DigitsValue(digits)
  }

  /** A decimal literal with an optional exponent, split at the first 'e' or 'E'. */
  function ParseScientific(s: string): Option<real>
  {
    match ExpIndex(s)
    case None => ParseUnsigned(s)
    case Some(k) =>
      match (ParseUnsigned(s[..k]), ParseExponent(s[k + 1..]))
      case (Some(m), Some(e)) => Some(Shifted(m, e))
      case _ => None
  }

  /** An optional leading sign, and the rest of the text. */
  function SplitSign(s: string): (string, string)
  {
    if |s| > 0 && (s[0] == '-' || s[0] == '+') then (s[..1], s[1..]) else ([], s)
  }

  /** A literal with an optional sign. */
  function ParseSigned(s: string): Option<real>
  {
    var (sign, u) := SplitSign(s);
    match ParseScientific(u)
    case None => None
    case Some(v) => Some(if sign == "-" then -v else v)
  }

  /**
   * A number written as text, as `to_numeric` and `float()` read it: the
   * surrounding whitespace is stripped, then an optional sign, digits with at
   * most one '.', and an optional exponent. "inf" and "nan" are not numbers here.
   */
  function ParseNumber(s: string): Option<real>
  {
    ParseSigned(Strip(s))
  }

  /** `pd.to_numeric(cell, errors='coerce')`: numbers pass, blanks and non-numeric text become missing. */
  function ToNumeric(c: Cell): Option<real>
  {
    match c
    case Num(x) => Some(x)
    case Blank => None
    case Text(s) => ParseNumber(s)
  }

  /** The exponent part of a numeral: 'e' or 'E', an optional sign, digits. */
  datatype Exponent = Exponent(letter: char, sign: string, digits: string)

  /** A numeral as written: sign, whole digits, an optional point and fraction digits, an optional exponent. */
  datatype Numeral = Numeral(sign: string, whole: string, point: bool, frac: string, exp: Option<Exponent>)

  predicate IsSign(s: string)
  {
    s == [] || s == "+" || s == "-"
  }

  /** The grammar of a numeral: at least one mantissa digit, and a fraction only after a point. */
  predicate WellFormed(n: Numeral)
  {
    IsSign(n.sign) && AllDigits(n.whole) && AllDigits(n.frac) && (n.point || n.frac == [])
    && |n.whole| + |n.frac| > 0
    && (n.exp.Some? ==>
          IsExpLetter(n.exp.value.letter) && IsSign(n.exp.value.sign)
          && AllDigits(n.exp.value.digits) && |n.exp.value.digits| > 0)
  }

  function MantissaText(n: Numeral): string
  {
    n.whole + (if n.point then "." else "") + n.frac
  }

  function ExponentText(n: Numeral): string
  {
    match n.exp
    case None => []
    case Some(x) => [x.letter] + x.sign + x.digits
  }

  /** The text of a numeral. */
  function Spell(n: Numeral): string
  {
    n.sign + MantissaText(n) + ExponentText(n)
  }

  /** The value of the mantissa of a numeral. */
  function MantissaValue(n: Numeral): real
    requires WellFormed(n)
  {
    DigitsValue(n.whole) as real + Shifted(DigitsValue(n.frac) as real, -|n.frac|)
  }

  /** The value of the unsigned part of a numeral: its mantissa times ten to its exponent. */
  function Magnitude(n: Numeral): real
    requires WellFormed(n)
  {
    match n.exp
    case None => MantissaValue(n)
    case Some(x) => Shifted(MantissaValue(n), SignedValue(x.sign, x.digits))
  }

  /** The value a numeral denotes: its magnitude, negated after a minus. */
  function NumeralValue(n: Numeral): real
    requires WellFormed(n)
  {
    if n.sign == "-" then -Magnitude(n) else Magnitude(n)
  }

  /** Text `s` is numeral `n` with whitespace `s[..i]` before it and `s[j..]` after it. */
  ghost predicate WrittenAs(s: string, n: Numeral, i: nat, j: nat)
  {
    WellFormed(n) && i <= j <= |s| && AllSpace(s[..i]) && AllSpace(s[j..]) && s[i..j] == Spell(n)
  }

  /** Every numeral, padded with any whitespace, reads as the value it denotes. */
  lemma NumeralParses(n: Numeral, pre: string, post: string)
    requires WellFormed(n) && AllSpace(pre) && AllSpace(post)
    ensures ParseNumber(pre + Spell(n) + post) == Some(NumeralValue(n))
  {
    SpellEnds(n);
    StripPadded(pre, Spell(n), post);
    SignedParses(n);
  }

  /** A numeral without padding reads as the value it denotes. */
  lemma SignedParses(n: Numeral)
    requires WellFormed(n)
    ensures ParseSigned(Spell(n)) == Some(NumeralValue(n))
  {
    var u := MantissaText(n) + ExponentText(n);
    assert Spell(n) == n.sign + u;
    SpellEnds(n);
    ScientificParses(n);
    SplitSpell(n.sign, u);
    SignThenLiteral(n.sign, u, Magnitude(n));
  }

  /** A sign and a literal read as the literal's value, negated after '-'. */
  lemma SignThenLiteral(sign: string, u: string, v: real)
    requires SplitSign(sign + u) == (sign, u) && ParseScientific(u) == Some(v)
    ensures ParseSigned(sign + u) == Some(if sign == "-" then -v else v)
  {
  }

  /** What `SplitSign` cuts off a numeral's text is the numeral's sign. */
  lemma SplitSpell(sign: string, u: string)
    requires IsSign(sign) && |u| > 0 && u[0] != '+' && u[0] != '-'
    ensures SplitSign(sign + u) == (sign, u)
  {
    if sign == [] {
      assert sign + u == u;
    } else {
      assert (sign + u)[0] == sign[0] && (sign + u)[..1] == sign && (sign + u)[1..] == u;
    }
  }

  /** `SplitSign` cuts a text into a sign and the rest. */
  lemma SplitSignJoin(s: string)
    ensures IsSign(SplitSign(s).0) && SplitSign(s).0 + SplitSign(s).1 == s
  {
    if |s| > 0 && (s[0] == '-' || s[0] == '+') {
      assert s[..1] == [s[0]];
    }
  }

  /** The first and last characters of a numeral are not whitespace, and a signless numeral does not start with a sign. */
  lemma SpellEnds(n: Numeral)
    requires WellFormed(n)
    ensures |Spell(n)| > 0 && |MantissaText(n)| > 0
    ensures !IsSpace(Spell(n)[0]) && !IsSpace(Spell(n)[|Spell(n)| - 1])
    ensures MantissaText(n)[0] != '+' && MantissaText(n)[0] != '-'
  {
    var m := MantissaText(n);
    var s := Spell(n);
    assert s == n.sign + m + ExponentText(n);
    if |n.whole| > 0 {
      assert m[0] == n.whole[0];
    } else {
      assert n.point;
      assert m[0] == '.';
    }
    if n.sign == [] {
      assert s[0] == m[0];
    } else {
      assert s[0] == n.sign[0];
    }
    match n.exp
    case None =>
      if |n.frac| > 0 {
        assert s[|s| - 1] == n.frac[|n.frac| - 1];
      } else if n.point {
        assert s[|s| - 1] == '.';
      } else {
        assert s[|s| - 1] == n.whole[|n.whole| - 1];
      }
    case Some(x) =>
      assert s[|s| - 1] == x.digits[|x.digits| - 1];
  }

  /** Whitespace around a text that neither starts nor ends with whitespace is what `strip` removes. */
  lemma StripPadded(pre: string, core: string, post: string)
    requires AllSpace(pre) && AllSpace(post)
    requires |core| > 0 && !IsSpace(core[0]) && !IsSpace(core[|core| - 1])
    ensures Strip(pre + core + post) == core
  {
    assert pre + core + post == pre + (core + post);
    TrimLeftPadded(pre, core + post);
    TrimRightPadded(core, post);
  }

  lemma {:induction false} TrimLeftPadded(pre: string, x: string)
    requires AllSpace(pre) && |x| > 0 && !IsSpace(x[0])
    ensures TrimLeft(pre + x) == x
  {
    if pre != [] {
      assert (pre + x)[1..] == pre[1..] + x;
      TrimLeftPadded(pre[1..], x);
    }
  }

  lemma {:induction false} TrimRightPadded(x: string, post: string)
    requires AllSpace(post) && |x| > 0 && !IsSpace(x[|x| - 1])
    ensures TrimRight(x + post) == x
  {
    if post == [] {
      assert x + post == x;
    } else {
      var init := post[..|post| - 1];
      assert (x + post)[..|x + post| - 1] == x + init;
      TrimRightPadded(x, init);
    }
  }

  /** The unsigned part of a numeral reads as its magnitude. */
  lemma ScientificParses(n: Numeral)
    requires WellFormed(n)
    ensures ParseScientific(MantissaText(n) + ExponentText(n)) == Some(Magnitude(n))
  {
    var m := MantissaText(n);
    UnsignedParses(n);
    MantissaHasNoExp(n);
    match n.exp
    case None =>
      assert m + ExponentText(n) == m;
      ExpIndexAt(m, |m|);
    case Some(x) =>
      ExponentSplit(m, x);
      ExponentParses(x.sign, x.digits);
      ScaledParses(m, x, MantissaValue(n), SignedValue(x.sign, x.digits));
  }

  /** A mantissa and an exponent that both read, read together as their product. */
  lemma ScaledParses(m: string, x: Exponent, v: real, e: int)
    requires ParseUnsigned(m) == Some(v) && ParseExponent(x.sign + x.digits) == Some(e)
    requires var s := m + ([x.letter] + x.sign + x.digits);
      ExpIndex(s) == Some(|m|) && s[..|m|] == m && s[|m| + 1..] == x.sign + x.digits
    ensures ParseScientific(m + ([x.letter] + x.sign + x.digits)) == Some(Shifted(v, e))
  {
  }

  /** A mantissa holds no exponent letter. */
  lemma MantissaHasNoExp(n: Numeral)
    requires WellFormed(n)
    ensures forall i :: 0 <= i < |MantissaText(n)| ==> !IsExpLetter(MantissaText(n)[i])
  {
    forall i | 0 <= i < |MantissaText(n)| ensures !IsExpLetter(MantissaText(n)[i]) {
      MantissaChar(n, i);
    }
  }

  /** A mantissa followed by an exponent splits at the exponent letter. */
  lemma ExponentSplit(m: string, x: Exponent)
    requires IsExpLetter(x.letter) && forall i :: 0 <= i < |m| ==> !IsExpLetter(m[i])
    ensures var s := m + ([x.letter] + x.sign + x.digits);
      ExpIndex(s) == Some(|m|) && s[..|m|] == m && s[|m| + 1..] == x.sign + x.digits
  {
    var s := m + ([x.letter] + x.sign + x.digits);
    assert s[|m|] == x.letter;
    assert s[..|m|] == m;
    ExpIndexAt(s, |m|);
    assert s[|m| + 1..] == x.sign + x.digits;
  }

  /** A mantissa character is a digit or the point. */
  lemma MantissaChar(n: Numeral, i: nat)
    requires WellFormed(n) && i < |MantissaText(n)|
    ensures IsDigit(MantissaText(n)[i]) || MantissaText(n)[i] == '.'
  {
    var p: string := if n.point then "." else "";
    assert MantissaText(n) == n.whole + p + n.frac;
    if i < |n.whole| {
      assert MantissaText(n)[i] == n.whole[i];
    } else if i < |n.whole| + |p| {
      assert MantissaText(n)[i] == '.';
    } else {
      assert MantissaText(n)[i] == n.frac[i - |n.whole| - |p|];
    }
  }

  lemma UnsignedParses(n: Numeral)
    requires WellFormed(n)
    ensures ParseUnsigned(MantissaText(n)) == Some(MantissaValue(n))
  {
    var m := MantissaText(n);
    if n.point {
      assert m == n.whole + "." + n.frac;
      assert m[|n.whole|] == '.';
      assert m[..|n.whole|] == n.whole;
      IndexOfAt(m, '.', |n.whole|);
      assert m[..|n.whole|] == n.whole;
      assert m[|n.whole| + 1..] == n.frac;
    } else {
      assert m == n.whole && m[..|m|] == m;
      IndexOfAt(m, '.', |m|);
    }
  }

  lemma ExponentParses(sign: string, digits: string)
    requires IsSign(sign) && AllDigits(digits) && |digits| > 0
    ensures ParseExponent(sign + digits) == Some(SignedValue(sign, digits))
  {
    var s := sign + digits;
    if sign == [] {
      assert s == digits;
    } else {
      assert s[0] == sign[0] && s[1..] == digits;
    }
  }

  /** Every text that reads as a number is a padded numeral, and reads as the value that numeral denotes. */
  lemma ParsedIsNumeral(s: string) returns (n: Numeral, i: nat, j: nat)
    requires ParseNumber(s).Some?
    ensures WrittenAs(s, n, i, j) && ParseNumber(s) == Some(NumeralValue(n))
  {
    i, j := StripBounds(s);
    n := SignedShape(Strip(s));
    SignedParses(n);
  }

  /** A literal `ParseSigned` reads is the text of a numeral. */
  lemma SignedShape(t: string) returns (n: Numeral)
    requires ParseSigned(t).Some?
    ensures WellFormed(n) && Spell(n) == t
  {
    SplitSignJoin(t);
    var (sign, u) := SplitSign(t);
    n := WithSign(sign, u);
  }

  /** A sign followed by a literal `ParseScientific` reads is the text of a numeral. */
  lemma WithSign(sign: string, u: string) returns (n: Numeral)
    requires IsSign(sign) && ParseScientific(u).Some?
    ensures WellFormed(n) && n.sign == sign && Spell(n) == sign + u
  {
    var w, point, frac, exp := ScientificShape(u);
    n := Signed(sign, Numeral("", w, point, frac, exp));
  }

  /** A numeral given a sign: well-formed, and spelt as the sign before the unsigned text. */
  lemma Signed(sign: string, m: Numeral) returns (n: Numeral)
    requires IsSign(sign) && WellFormed(m)
    ensures n == m.(sign := sign) && WellFormed(n) && Spell(n) == sign + (MantissaText(m) + ExponentText(m))
  {
    n := m.(sign := sign);
    assert MantissaText(n) == MantissaText(m) && ExponentText(n) == ExponentText(m);
  }

  /** A literal `ParseScientific` reads splits into a mantissa and an optional exponent. */
  lemma ScientificShape(u: string) returns (whole: string, point: bool, frac: string, exp: Option<Exponent>)
    requires ParseScientific(u).Some?
    ensures WellFormed(Numeral("", whole, point, frac, exp))
    ensures MantissaText(Numeral("", whole, point, frac, exp)) + ExponentText(Numeral("", whole, point, frac, exp)) == u
  {
    ExpIndexFirst(u);
    match ExpIndex(u)
    case None =>
      whole, point, frac := UnsignedShape(u);
      exp := None;
      var m := whole + (if point then "." else "") + frac;
      assert MantissaText(Numeral("", whole, point, frac, exp)) == m;
      assert m + [] == m;
    case Some(k) =>
      assert ParseUnsigned(u[..k]).Some? && ParseExponent(u[k + 1..]).Some?;
      whole, point, frac := UnsignedShape(u[..k]);
      var sign, digits := ExponentShape(u[k + 1..]);
      exp := Some(Exponent(u[k], sign, digits));
      JoinAtExp(u, k, whole + (if point then "." else "") + frac, sign, digits);
  }

  /** An exponent `ParseExponent` reads is an optional sign and at least one digit. */
  lemma ExponentShape(x: string) returns (sign: string, digits: string)
    requires ParseExponent(x).Some?
    ensures IsSign(sign) && AllDigits(digits) && |digits| > 0 && sign + digits == x
  {
    if x[0] == '-' || x[0] == '+' {
      sign, digits := x[..1], x[1..];
      assert sign == "-" || sign == "+";
    } else {
      sign, digits := [], x;
    }
  }

  /** A text is what comes before position `k`, the letter at `k`, and what comes after it. */
  lemma JoinAtExp(u: string, k: nat, m: string, sign: string, digits: string)
    requires k < |u| && m == u[..k] && sign + digits == u[k + 1..]
    ensures m + ([u[k]] + sign + digits) == u
  {
    assert [u[k]] + sign + digits == [u[k]] + (sign + digits);
    assert u == u[..k] + [u[k]] + u[k + 1..];
  }

  /** A literal `ParseUnsigned` reads is digits with at most one point between them. */
  lemma UnsignedShape(m: string) returns (whole: string, point: bool, frac: string)
    requires ParseUnsigned(m).Some?
    ensures AllDigits(whole) && AllDigits(frac) && (point || frac == []) && |whole| + |frac| > 0
    ensures whole + (if point then "." else "") + frac == m
  {
    IndexOfFirst(m, '.');
    match IndexOf(m, '.')
    case None =>
      whole, point, frac := m, false, [];
    case Some(k) =>
      whole, point, frac := m[..k], true, m[k + 1..];
      assert m == m[..k] + "." + m[k + 1..];
  }

  /** A plain digit string reads as the integer it spells. */
  lemma ParseNumberDigits(s: string)
    requires |s| > 0 && AllDigits(s)
    ensures ParseNumber(s) == Some(DigitsValue(s) as real)
  {
    var n := IntegerNumeral(s);
    NumeralParses(n, [], []);
    assert [] + Spell(n) + [] == s;
  }

  /** A digit string is the text of a numeral with no sign, point or exponent, and denotes the integer it spells. */
  lemma IntegerNumeral(s: string) returns (n: Numeral)
    requires |s| > 0 && AllDigits(s)
    ensures WellFormed(n) && Spell(n) == s && NumeralValue(n) == DigitsValue(s) as real
  {
    n := Numeral("", s, false, "", None);
    assert Spell(n) == s;
    assert DigitsValue(n.frac) == 0 && Shifted(0.0, 0) == 0.0;
  }

  /** Letters of "inf", "infinity" and "nan", which pandas and `float()` read as special values. */
  predicate SpecialLetter(c: char)
  {
    c in "infinityINFINITYnaNA"
  }

  /**
   * A character that can occur in a text pandas or `float()` reads as a
   * number: the characters of a numeral, whitespace, the letters of the
   * special values, and the '_' that `float()` allows between digits.
   */
  predicate NumberChar(c: char)
  {
    IsDigit(c) || c == '.' || c == '-' || c == '+' || IsExpLetter(c) || IsSpace(c) || SpecialLetter(c) || c == '_'
  }

  /** Text holding any character that occurs in no number coerces to missing, never to 0. */
  lemma ParseNumberRejects(s: string, k: nat)
    requires k < |s| && !NumberChar(s[k])
    ensures ParseNumber(s) == None
  {
    if ParseNumber(s).Some? {
      NumberCharsOnly(s);
    }
  }

  /** Every character of a text that reads as a number is whitespace or occurs in a numeral. */
  lemma NumberCharsOnly(s: string)
    requires ParseNumber(s).Some?
    ensures forall k :: 0 <= k < |s| ==> NumberChar(s[k])
  {
    var n, i, j := ParsedIsNumeral(s);
    forall k | 0 <= k < |s|
      ensures NumberChar(s[k])
    {
      if k < i {
        assert s[..i][k] == s[k];
      } else if k >= j {
        assert s[j..][k - j] == s[k];
      } else {
        assert s[i..j][k - i] == s[k];
        SpellChar(n, k - i);
      }
    }
  }

  /** Every character of a numeral is a digit, a point, a sign or an exponent letter. */
  lemma SpellChar(n: Numeral, p: nat)
    requires WellFormed(n) && p < |Spell(n)|
    ensures NumberChar(Spell(n)[p])
  {
    var s := Spell(n);
    var m := MantissaText(n);
    assert s == n.sign + m + ExponentText(n);
    if p < |n.sign| {
      assert s[p] == n.sign[p];
    } else if p < |n.sign| + |m| {
      assert s[p] == m[p - |n.sign|];
      MantissaChar(n, p - |n.sign|);
    } else {
      var x := n.exp.value;
      var q := p - |n.sign| - |m|;
      assert s[p] == ExponentText(n)[q];
      assert ExponentText(n) == [x.letter] + x.sign + x.digits;
      if q == 0 {
      } else if q < 1 + |x.sign| {
        assert ExponentText(n)[q] == x.sign[q - 1];
      } else {
        assert ExponentText(n)[q] == x.digits[q - 1 - |x.sign|];
      }
    }
  }

  /** Characters Python's `str.isspace()` accepts. */
  predicate IsSpace(c: char)
  {
    ('\U{9}' <= c <= '\U{D}') || ('\U{1C}' <= c <= '\U{20}') || c == '\U{85}' || c == '\U{A0}'
    || c == '\U{1680}' || ('\U{2000}' <= c <= '\U{200A}') || c == '\U{2028}' || c == '\U{2029}'
    || c == '\U{202F}' || c == '\U{205F}' || c == '\U{3000}'
  }

  predicate AllSpace(s: string)
  {
    forall i :: 0 <= i < |s| ==> IsSpace(s[i])
  }

  function TrimLeft(s: string): string
  {
    if s == [] || !IsSpace(s[0]) then s else TrimLeft(s[1..])
  }

  function TrimRight(s: string): string
  {
    if s == [] || !IsSpace(s[|s| - 1]) then s else TrimRight(s[..|s| - 1])
  }

  /** `lstrip` keeps a suffix, cuts only whitespace, and leaves no whitespace in front. */
  lemma {:induction false} TrimLeftCuts(s: string)
    ensures var r := TrimLeft(s);
      |r| <= |s| && r == s[|s| - |r|..] && AllSpace(s[..|s| - |r|])
      && (r == [] || !IsSpace(r[0]))
  {
    if s != [] && IsSpace(s[0]) {
      TrimLeftCuts(s[1..]);
      var r := TrimLeft(s[1..]);
      assert s[1..][..|s| - 1 - |r|] == s[1..|s| - |r|];
    }
  }

  /** `rstrip` keeps a prefix, cuts only whitespace, and leaves no whitespace at the end. */
  lemma {:induction false} TrimRightCuts(s: string)
    ensures var r := TrimRight(s);
      |r| <= |s| && r == s[..|r|] && AllSpace(s[|r|..])
      && (r == [] || !IsSpace(r[|r| - 1]))
  {
    if s != [] && IsSpace(s[|s| - 1]) {
      TrimRightCuts(s[..|s| - 1]);
      var r := TrimRight(s[..|s| - 1]);
      assert s[|r|..] == s[..|s| - 1][|r|..] + [s[|s| - 1]];
    }
  }

  /** `str.strip()`: drop surrounding whitespace. */
  function Strip(s: string): string
  {
    TrimRight(TrimLeft(s))
  }

  /** The stripped name is a middle slice of the original with only whitespace cut off either side. */
  lemma StripCutsOnlySpace(s: string)
    ensures var r := Strip(s);
      (exists i, j :: 0 <= i <= j <= |s| && r == s[i..j] && AllSpace(s[..i]) && AllSpace(s[j..]))
      && (r == [] || (!IsSpace(r[0]) && !IsSpace(r[|r| - 1])))
  {
    var i, j := StripBounds(s);
    var l := TrimLeft(s);
    var r := TrimRight(l);
    TrimLeftCuts(s);
    TrimRightCuts(l);
    if r != [] {
      assert r[0] == l[0];
    }
  }

  /** Where `str.strip()` cuts: before `i` and from `j` on, only whitespace. */
  lemma StripBounds(s: string) returns (i: nat, j: nat)
    ensures i <= j <= |s| && Strip(s) == s[i..j] && AllSpace(s[..i]) && AllSpace(s[j..])
  {
    var l := TrimLeft(s);
    var r := TrimRight(l);
    TrimLeftCuts(s);
    TrimRightCuts(l);
    i := |s| - |l|;
    j := i + |r|;
    assert r == s[i..j];
    assert s[j..] == l[|r|..];
  }

  /** Stripping twice is stripping once. */
  lemma StripIdempotent(s: string)
    ensures Strip(Strip(s)) == Strip(s)
  {
    var r := Strip(s);
    StripCutsOnlySpace(s);
    if r != [] {
      StripPadded([], r, []);
      assert [] + r + [] == r;
    }
  }
}
