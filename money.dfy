/**
 * Exact decimal amounts as the account code uses them: text is parsed into a
 * mantissa with a decimal scale, compared, added and subtracted exactly, rounded
 * to hundredths and written back with exactly two fractional digits.
 */
module Money {
  import opened Wrappers

  /** The value mant / 10^scale. */
  datatype Decimal = Decimal(mant: int, scale: nat)

  function Pow10(n: nat): (r: nat)
    ensures r >= 1
  {
    if n == 0 then 1 else 10 * Pow10(n - 1)
  }

  lemma {:induction false} Pow10Add(a: nat, b: nat)
    ensures Pow10(a + b) == Pow10(a) * Pow10(b)
  {
    if b > 0 {
      Pow10Add(a, b - 1);
      calc {
        Pow10(a + b);
        10 * Pow10(a + b - 1);
        10 * (Pow10(a) * Pow10(b - 1));
        Pow10(a) * (10 * Pow10(b - 1));
        Pow10(a) * Pow10(b);
      }
    }
  }

  function Max(a: nat, b: nat): nat { if a < b then b else a }

  function Abs(x: int): nat { if x < 0 then -x else x }

  // ---------------------------------------------------------------- digits

  predicate IsDigit(c: char) { '0' <= c <= '9' }

  predicate IsDigits(s: string) { forall i | 0 <= i < |s| :: IsDigit(s[i]) }

  function DigitValue(c: char): (d: nat)
    requires IsDigit(c)
    ensures d < 10
  {
    (c as int) - ('0' as int)
  }

  function DigitChar(d: nat): (c: char)
    requires d < 10
    ensures IsDigit(c) && DigitValue(c) == d
  {
    ('0' as int + d) as char
  }

  /** The natural number a string of decimal digits denotes, most significant first. */
  function DigitsValue(s: string): nat
    requires IsDigits(s)
  {
    if s == [] then 0 else 10 * DigitsValue(s[..|s| - 1]) + DigitValue(s[|s| - 1])
  }

  lemma DigitsValueSnoc(s: string, c: char)
    requires IsDigits(s) && IsDigit(c)
    ensures IsDigits(s + [c]) && DigitsValue(s + [c]) == 10 * DigitsValue(s) + DigitValue(c)
  {
    assert (s + [c])[..|s|] == s;
  }

  /** The shortest decimal rendering of n. */
  function NatDigits(n: nat): (s: string)
    ensures |s| > 0 && IsDigits(s) && DigitsValue(s) == n
    decreases n
  {
    if n < 10 then
      assert [DigitChar(n)][..0] == [];
      [DigitChar(n)]
    else
      var prefix := NatDigits(n / 10);
      DigitsValueSnoc(prefix, DigitChar(n % 10));
      prefix + [DigitChar(n % 10)]
  }

  lemma {:induction false} DigitsValueAtLeastFirst(s: string)
    requires |s| > 0 && IsDigits(s)
    ensures DigitsValue(s) >= DigitValue(s[0])
  {
    if |s| > 1 {
      DigitsValueAtLeastFirst(s[..|s| - 1]);
    }
  }

  /** Digit text without a leading zero is the rendering of its own value. */
  lemma {:induction false} NatDigitsCanonical(s: string)
    requires |s| > 0 && IsDigits(s) && (|s| == 1 || s[0] != '0')
    ensures NatDigits(DigitsValue(s)) == s
  {
    var last := s[|s| - 1];
    var d := DigitValue(last);
    assert DigitChar(d) == last;
    if |s| == 1 {
      assert s == [last];
    } else {
      var prefix := s[..|s| - 1];
      var n := DigitsValue(s);
      DigitsValueAtLeastFirst(prefix);
      NatDigitsCanonical(prefix);
      assert n == 10 * DigitsValue(prefix) + d && n >= 10;
      assert n / 10 == DigitsValue(prefix) && n % 10 == d;
      assert NatDigits(n) == NatDigits(DigitsValue(prefix)) + [DigitChar(d)];
      assert s == prefix + [last];
    }
  }

  // --------------------------------------------------------------- parsing

  /** The position of the first '.' in s, or |s| when there is none. */
  function DotIndex(s: string): (i: nat)
    ensures i <= |s|
    ensures i < |s| ==> s[i] == '.'
    ensures forall k | 0 <= k < i :: s[k] != '.'
  {
    if s == [] then 0
    else if s[0] == '.' then 0
    else 1 + DotIndex(s[1..])
  }

  /** Digits, optionally followed by '.' and more digits. */
  function ParseUnsigned(s: string): Option<Decimal>
  {
    var i := DotIndex(s);
    if i == |s| then
      if |s| > 0 && IsDigits(s) then Some(Decimal(DigitsValue(s), 0)) else None
    else
      ParseFraction(s[..i], s[i + 1..])
  }

  /** The digits around the decimal point; the scale is the number of fractional digits. */
  function ParseFraction(whole: string, frac: string): Option<Decimal>
  {
    if |whole| > 0 && |frac| > 0 && IsDigits(whole) && IsDigits(frac)
    then Some(Decimal(DigitsValue(whole + frac), |frac|))
    else None
  }

  /**
   * Decimal text as the account code accepts it: an optional '-', digits, and
   * an optional fraction of '.' and digits. Anything else is malformed.
   */
  function Parse(s: string): Option<Decimal>
  {
    if |s| > 0 && s[0] == '-' then
      match ParseUnsigned(s[1..])
      case None => None
      case Some(d) => Some(Decimal(-d.mant, d.scale))
    else
      ParseUnsigned(s)
  }

  /** The grammar of unsigned decimal text, stated without reference to the parser. */
  predicate IsPlainUnsigned(t: string)
  {
    (|t| > 0 && IsDigits(t))
    || exists i | 0 < i < |t| - 1 :: t[i] == '.' && IsDigits(t[..i]) && IsDigits(t[i + 1..])
  }

  /** The grammar of decimal text: an optional '-' before unsigned decimal text. */
  predicate IsPlainDecimal(s: string)
  {
    if |s| > 0 && s[0] == '-' then IsPlainUnsigned(s[1..]) else IsPlainUnsigned(s)
  }

  lemma ParseUnsignedGrammar(t: string)
    ensures ParseUnsigned(t).Some? <==> IsPlainUnsigned(t)
  {
    if ParseUnsigned(t).Some? {
      AcceptedIsPlain(t);
    }
    if IsPlainUnsigned(t) {
      PlainIsAccepted(t);
    }
  }

  lemma AcceptedIsPlain(t: string)
    requires ParseUnsigned(t).Some?
    ensures IsPlainUnsigned(t)
  {
    var d := DotIndex(t);
    if d < |t| {
      assert ParseFraction(t[..d], t[d + 1..]).Some?;
      assert 0 < d < |t| - 1 && t[d] == '.' && IsDigits(t[..d]) && IsDigits(t[d + 1..]);
    }
  }

  lemma PlainIsAccepted(t: string)
    requires IsPlainUnsigned(t)
    ensures ParseUnsigned(t).Some?
  {
    if |t| > 0 && IsDigits(t) {
      DigitsHaveNoDot(t);
      DotIndexNone(t);
    } else {
      var i :| 0 < i < |t| - 1 && t[i] == '.' && IsDigits(t[..i]) && IsDigits(t[i + 1..]);
      forall k | 0 <= k < i ensures t[k] != '.' {
        assert t[k] == t[..i][k];
      }
      DotIndexAt(t, i);
    }
  }

  lemma DigitsHaveNoDot(t: string)
    requires IsDigits(t)
    ensures forall k | 0 <= k < |t| :: t[k] != '.'
  {
  }

  /** The parser accepts exactly the plain decimal grammar. */
  lemma ParseAcceptsGrammar(s: string)
    ensures Parse(s).Some? <==> IsPlainDecimal(s)
  {
    if |s| > 0 && s[0] == '-' {
      ParseUnsignedGrammar(s[1..]);
    } else {
      ParseUnsignedGrammar(s);
    }
  }

  lemma DotIndexNone(s: string)
    requires forall k | 0 <= k < |s| :: s[k] != '.'
    ensures DotIndex(s) == |s|
  {
  }

  /** Text of digits alone is a whole number. */
  lemma ParseWhole(s: string)
    requires |s| > 0 && IsDigits(s)
    ensures Parse(s) == Some(Decimal(DigitsValue(s), 0))
    ensures Parse("-" + s) == Some(Decimal(-(DigitsValue(s) as int), 0))
  {
    forall k | 0 <= k < |s| ensures s[k] != '.' {
      assert IsDigit(s[k]);
    }
    DotIndexNone(s);
    assert ParseUnsigned(s) == Some(Decimal(DigitsValue(s), 0));
    assert IsDigit(s[0]);
    assert ("-" + s)[1..] == s;
  }

  /** Text containing a comma (the "10,1" of the tests) is never a decimal. */
  lemma ParseRejectsComma(s: string, k: nat)
    requires k < |s| && s[k] == ','
    ensures Parse(s) == None
  {
    var t := if |s| > 0 && s[0] == '-' then s[1..] else s;
    var j := if |s| > 0 && s[0] == '-' then k - 1 else k;
    ParseUnsignedGrammar(t);
    assert 0 <= j < |t| && t[j] == ',';
    assert !IsDigits(t) by {
      assert !IsDigit(t[j]);
    }
    forall i | 0 < i < |t| - 1 && t[i] == '.'
      ensures !(IsDigits(t[..i]) && IsDigits(t[i + 1..]))
    {
      if j < i {
        assert t[..i][j] == t[j];
      } else {
        assert t[i + 1..][j - i - 1] == t[j];
      }
    }
  }

  // ------------------------------------------------------------ arithmetic

  /** d's mantissa expressed at the finer scale s. */
  function Scaled(d: Decimal, s: nat): int
    requires s >= d.scale
  {
    d.mant * Pow10(s - d.scale)
  }

  lemma ScaledTwice(d: Decimal, s: nat, t: nat)
    requires d.scale <= s <= t
    ensures Scaled(d, s) * Pow10(t - s) == Scaled(d, t)
  {
    Pow10Add(s - d.scale, t - s);
    assert t - d.scale == (s - d.scale) + (t - s);
  }

  /** balance.LessThan(amount): compared at the common scale. */
  predicate Less(x: Decimal, y: Decimal)
  {
    var s := Max(x.scale, y.scale);
    Scaled(x, s) < Scaled(y, s)
  }

  /** Exact sum, at the larger of the two scales. */
  function Add(x: Decimal, y: Decimal): (r: Decimal)
    ensures r.scale == Max(x.scale, y.scale)
  {
    var s := Max(x.scale, y.scale);
    Decimal(Scaled(x, s) + Scaled(y, s), s)
  }

  /** Exact difference, at the larger of the two scales. */
  function Sub(x: Decimal, y: Decimal): (r: Decimal)
    ensures r.scale == Max(x.scale, y.scale)
  {
    var s := Max(x.scale, y.scale);
    Decimal(Scaled(x, s) - Scaled(y, s), s)
  }

  // -------------------------------------------------------------- rounding

  /**
   * c hundredths is a nearest hundredth to d, and of two equally near ones the
   * one farther from zero: rounding to two places, half away from zero.
   */
  predicate RoundsTo(d: Decimal, c: int)
  {
    var s := Max(d.scale, 2);
    var u := Pow10(s - 2);
    var v := Scaled(d, s);
    2 * Abs(c * u - v) <= u && (2 * Abs(c * u - v) == u ==> Abs(c * u) > Abs(v))
  }

  /** d rounded to hundredths, as a count of hundredths. */
  function Round(d: Decimal): int
  {
    if d.scale <= 2 then Scaled(d, 2) else SignedRound(d.mant, Pow10(d.scale - 2))
  }

  /** v divided by u, rounded half away from zero. */
  function SignedRound(v: int, u: nat): int
    requires u >= 1
  {
    var m := Abs(v);
    var q := if 2 * (m % u) >= u then m / u + 1 else m / u;
    if v < 0 then -q else q
  }

  lemma RoundIsNearest(d: Decimal)
    ensures RoundsTo(d, Round(d))
  {
    if d.scale > 2 {
      var u := Pow10(d.scale - 2);
      RoundsToAbove(d, Round(d));
      SignedRoundNearest(d.mant, u);
    } else {
      assert Pow10(0) == 1;
    }
  }

  /** SignedRound(v, u) times u is a nearest multiple of u to v, the one farther from zero on a tie. */
  lemma SignedRoundNearest(v: int, u: nat)
    requires u >= 1
    ensures var c := SignedRound(v, u);
      2 * Abs(c * u - v) <= u && (2 * Abs(c * u - v) == u ==> Abs(c * u) > Abs(v))
  {
    var m := Abs(v);
    var a: int := if 2 * (m % u) >= u then m / u + 1 else m / u;
    NearestMagnitude(m, u);
    SignedNearest(SignedRound(v, u), a, v, u);
  }

  /** Giving the rounded magnitude the sign of the value keeps it as near. */
  lemma SignedNearest(c: int, a: int, v: int, u: nat)
    requires u >= 1 && a >= 0
    requires c == (if v < 0 then -a else a)
    requires 2 * Abs(a * u - Abs(v)) <= u && (2 * Abs(a * u - Abs(v)) == u ==> a * u > Abs(v))
    ensures 2 * Abs(c * u - v) <= u && (2 * Abs(c * u - v) == u ==> Abs(c * u) > Abs(v))
  {
    MulSign(a, u);
    if v < 0 {
      MulNegate(a, u);
    }
  }

  lemma MulNegate(a: int, u: int)
    ensures (-a) * u == -(a * u)
  {
  }

  /** RoundsTo for a decimal with more than two fractional digits. */
  lemma RoundsToAbove(d: Decimal, c: int)
    requires d.scale > 2
    ensures var u := Pow10(d.scale - 2);
      RoundsTo(d, c) <==> 2 * Abs(c * u - d.mant) <= u && (2 * Abs(c * u - d.mant) == u ==> Abs(c * u) > Abs(d.mant))
  {
    assert Max(d.scale, 2) == d.scale;
    assert Scaled(d, d.scale) == d.mant by {
      assert Pow10(0) == 1;
    }
  }

  /** Rounding a magnitude m to a multiple of u, half up, lands at most half a step away. */
  lemma NearestMagnitude(m: nat, u: nat)
    requires u >= 1
    ensures var a := if 2 * (m % u) >= u then m / u + 1 else m / u;
      a >= 0 && 2 * Abs(a * u - m) <= u && (2 * Abs(a * u - m) == u ==> a * u > m)
  {
    var q, r := m / u, m % u;
    assert m == q * u + r && 0 <= r < u;
    MulSign(q, u);
    if 2 * r >= u {
      assert (q + 1) * u == q * u + u;
      assert (q + 1) * u - m == u - r;
    } else {
      assert q * u - m == -r;
    }
  }

  lemma MulSign(a: int, u: nat)
    ensures a >= 0 ==> a * u >= 0
    ensures a <= 0 ==> a * u <= 0
  {
  }

  lemma MulAtLeast(k: int, u: nat)
    requires k >= 1
    ensures k * u >= u
    ensures k >= 2 ==> k * u >= 2 * u
  {
    assert k * u == (k - 1) * u + u;
    MulSign(k - 1, u);
    if k >= 2 {
      assert k * u == (k - 2) * u + 2 * u;
      MulSign(k - 2, u);
    }
  }

  /** Of two multiples of u, at most one is the half-away-from-zero nearest to v. */
  lemma NearestMultipleUnique(c: int, e: int, u: nat, v: int)
    requires u >= 1
    requires 2 * Abs(c * u - v) <= u && (2 * Abs(c * u - v) == u ==> Abs(c * u) > Abs(v))
    requires 2 * Abs(e * u - v) <= u && (2 * Abs(e * u - v) == u ==> Abs(e * u) > Abs(v))
    ensures c == e
  {
    var cu, eu := c * u, e * u;
    assert eu - cu == (e - c) * u;
    if c < e {
      MulAtLeast(e - c, u);
      if c >= 0 { MulSign(c, u); } else { MulSign(e, u); }
    } else if e < c {
      assert cu - eu == (c - e) * u;
      MulAtLeast(c - e, u);
      if e >= 0 { MulSign(e, u); } else { MulSign(c, u); }
    }
  }

  /** Nearest-hundredth rounding has only one answer, so RoundsTo defines Round. */
  lemma RoundsToUnique(d: Decimal, c: int)
    requires RoundsTo(d, c)
    ensures c == Round(d)
  {
    RoundIsNearest(d);
    var s := Max(d.scale, 2);
    NearestMultipleUnique(c, Round(d), Pow10(s - 2), Scaled(d, s));
  }

  lemma RoundNonNegative(d: Decimal)
    requires d.mant >= 0
    ensures Round(d) >= 0
  {
    if d.scale <= 2 {
      MulSign(d.mant, Pow10(2 - d.scale));
    } else {
      DivNonNegative(d.mant, Pow10(d.scale - 2));
    }
  }

  lemma DivNonNegative(v: int, u: nat)
    requires u >= 1 && v >= 0
    ensures SignedRound(v, u) >= 0
  {
  }

  /** At two fractional digits or fewer, rounding is exact. */
  lemma RoundExact(d: Decimal)
    requires d.scale <= 2
    ensures Round(d) == Scaled(d, 2)
  {
  }

  // ------------------------------------------------------------ formatting

  /** The rendering of StringFixed(2): a sign when negative, digits, '.', two digits. */
  predicate HasTwoDecimals(s: string)
  {
    |s| >= 4 && s[|s| - 3] == '.' && IsDigit(s[|s| - 2]) && IsDigit(s[|s| - 1])
  }

  /** Writes c hundredths with exactly two fractional digits. */
  function Format(c: int): string
  {
    var m := Abs(c);
    (if c < 0 then "-" else "") + NatDigits(m / 100) + "." + [DigitChar(m % 100 / 10), DigitChar(m % 10)]
  }

  /** The text of balance.Sub(amount).StringFixed(2) and of balance.Add(amount).StringFixed(2). */
  function StringFixed2(d: Decimal): string
  {
    Format(Round(d))
  }

  lemma DotAfterDigits(whole: string, tail: string)
    requires IsDigits(whole)
    ensures DotIndex(whole + "." + tail) == |whole|
  {
    var body := whole + "." + tail;
    forall k | 0 <= k < |whole| ensures body[k] != '.' {
      assert body[k] == whole[k] && IsDigit(whole[k]);
    }
    DotIndexAt(body, |whole|);
  }

  lemma TwoDigitsValue(whole: string, d1: char, d2: char)
    requires IsDigits(whole) && IsDigit(d1) && IsDigit(d2)
    ensures IsDigits(whole + [d1, d2])
    ensures DigitsValue(whole + [d1, d2]) == 100 * DigitsValue(whole) + 10 * DigitValue(d1) + DigitValue(d2)
  {
    DigitsValueSnoc(whole, d1);
    DigitsValueSnoc(whole + [d1], d2);
    assert whole + [d1] + [d2] == whole + [d1, d2];
  }

  /** Digits, '.', digits spell a fraction whose scale is the number of fractional digits. */
  lemma UnsignedDotted(whole: string, frac: string)
    requires |whole| > 0 && |frac| > 0 && IsDigits(whole) && IsDigits(frac)
    ensures ParseUnsigned(whole + "." + frac) == Some(Decimal(DigitsValue(whole + frac), |frac|))
  {
    var body := whole + "." + frac;
    DotAfterDigits(whole, frac);
    assert body[..|whole|] == whole;
    assert body[|whole| + 1..] == frac;
  }

  /** The same text read by Parse: it starts with a digit, so it carries no sign. */
  lemma ParseDotted(whole: string, frac: string)
    requires |whole| > 0 && |frac| > 0 && IsDigits(whole) && IsDigits(frac)
    ensures Parse(whole + "." + frac) == Some(Decimal(DigitsValue(whole + frac), |frac|))
  {
    UnsignedDotted(whole, frac);
    assert (whole + "." + frac)[0] == whole[0];
  }

  /** The digits of a concatenation: the first part shifted left by the length of the second. */
  lemma {:induction false} DigitsValueAppend(a: string, b: string)
    requires IsDigits(a) && IsDigits(b)
    ensures IsDigits(a + b) && DigitsValue(a + b) == DigitsValue(a) * Pow10(|b|) + DigitsValue(b)
    decreases |b|
  {
    if b == [] {
      assert a + b == a;
    } else {
      var init, last := b[..|b| - 1], b[|b| - 1];
      assert b == init + [last];
      assert a + b == (a + init) + [last];
      DigitsValueAppend(a, init);
      DigitsValueSnoc(a + init, last);
      DigitsValueSnoc(init, last);
      ShiftDigit(DigitsValue(a), DigitsValue(init), DigitValue(last), Pow10(|init|));
    }
  }

  lemma ShiftDigit(x: int, y: int, d: int, p: int)
    ensures 10 * (x * p + y) + d == x * (10 * p) + (10 * y + d)
  {
    assert 10 * (x * p) == x * (10 * p);
  }

  /** The rendering of a natural number parses back to it. */
  lemma ParseNat(n: nat)
    ensures Parse(NatDigits(n)) == Some(Decimal(n, 0))
  {
    ParseWhole(NatDigits(n));
  }

  /**
   * The text "w.f", with w and f written out in digits, parses to w + f / 10^k,
   * k being the number of digits of f.
   */
  lemma ParseNatFraction(w: nat, f: nat)
    ensures var frac := NatDigits(f);
      Parse(NatDigits(w) + "." + frac) == Some(Decimal(w * Pow10(|frac|) + f, |frac|))
  {
    ParseDotted(NatDigits(w), NatDigits(f));
    DigitsValueAppend(NatDigits(w), NatDigits(f));
  }

  lemma UnsignedHundredths(whole: string, d1: char, d2: char)
    requires |whole| > 0 && IsDigits(whole) && IsDigit(d1) && IsDigit(d2)
    ensures ParseUnsigned(whole + "." + [d1, d2]) == Some(Decimal(DigitsValue(whole + [d1, d2]), 2))
  {
    UnsignedDotted(whole, [d1, d2]);
  }

  lemma DigitSplit(m: nat)
    ensures 100 * (m / 100) + 10 * (m % 100 / 10) + m % 10 == m
  {
    assert m % 10 == (m % 100) % 10;
  }

  /** Formatted hundredths have two fractional digits and parse back to the same value. */
  lemma {:induction false} FormatRoundTrip(c: int)
    ensures HasTwoDecimals(Format(c))
    ensures Parse(Format(c)) == Some(Decimal(c, 2))
  {
    var m := Abs(c);
    var whole := NatDigits(m / 100);
    var d1, d2 := DigitChar(m % 100 / 10), DigitChar(m % 10);
    var body := whole + "." + [d1, d2];
    assert Format(c) == (if c < 0 then "-" else "") + body;
    UnsignedHundredths(whole, d1, d2);
    TwoDigitsValue(whole, d1, d2);
    DigitSplit(m);
    assert ParseUnsigned(body) == Some(Decimal(m, 2));
    if c < 0 {
      assert Format(c)[1..] == body;
    } else {
      assert Format(c) == body;
      assert IsDigit(body[0]);
    }
  }

  /** A whole number of units is written with ".00". */
  lemma FormatWhole(n: nat)
    ensures Format(100 * n) == NatDigits(n) + ".00"
  {
    var m := 100 * n;
    WholeHundreds(n);
    assert Abs(m) == m;
    var whole, cents := NatDigits(n), [DigitChar(0), DigitChar(0)];
    assert Format(m) == "" + whole + "." + cents;
    assert cents == "00";
    assert "" + whole + "." + cents == whole + ".00";
  }

  lemma WholeHundreds(n: nat)
    ensures (100 * n) / 100 == n && (100 * n) % 100 / 10 == 0 && (100 * n) % 10 == 0
  {
    assert (100 * n) % 100 == 0;
    assert 100 * n == 10 * (10 * n);
  }

  lemma DotIndexAt(s: string, i: nat)
    requires i < |s| && s[i] == '.'
    requires forall k | 0 <= k < i :: s[k] != '.'
    ensures DotIndex(s) == i
  {
    if i > 0 {
      DotIndexAt(s[1..], i - 1);
    }
  }

  /** At most two fractional digits, i.e. a whole number of hundredths. */
  predicate IsCents(d: Decimal) { d.scale <= 2 }

  /** The hundredths of a decimal with at most two fractional digits. */
  function Cents(d: Decimal): int
    requires IsCents(d)
  {
    Scaled(d, 2)
  }

  /** Subtraction of whole hundredths needs no rounding. */
  lemma {:induction false} SubCents(x: Decimal, y: Decimal)
    requires IsCents(x) && IsCents(y)
    ensures Round(Sub(x, y)) == Cents(x) - Cents(y)
  {
    var s := Max(x.scale, y.scale);
    ScaledTwice(x, s, 2);
    ScaledTwice(y, s, 2);
    assert Round(Sub(x, y)) == (Scaled(x, s) - Scaled(y, s)) * Pow10(2 - s);
    assert (Scaled(x, s) - Scaled(y, s)) * Pow10(2 - s)
        == Scaled(x, s) * Pow10(2 - s) - Scaled(y, s) * Pow10(2 - s);
  }

  /** Addition of whole hundredths needs no rounding. */
  lemma {:induction false} AddCents(x: Decimal, y: Decimal)
    requires IsCents(x) && IsCents(y)
    ensures Round(Add(x, y)) == Cents(x) + Cents(y)
  {
    var s := Max(x.scale, y.scale);
    ScaledTwice(x, s, 2);
    ScaledTwice(y, s, 2);
    assert Round(Add(x, y)) == (Scaled(x, s) + Scaled(y, s)) * Pow10(2 - s);
    assert (Scaled(x, s) + Scaled(y, s)) * Pow10(2 - s)
        == Scaled(x, s) * Pow10(2 - s) + Scaled(y, s) * Pow10(2 - s);
  }

  /** The comparison agrees with the exact difference. */
  lemma LessIsNegativeDifference(x: Decimal, y: Decimal)
    ensures Less(x, y) <==> Sub(x, y).mant < 0
  {
  }
}
