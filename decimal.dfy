/**
 * Fixed-point decimal numbers in hundredths, the precision at which the plugin
 * stores filter thresholds. `Parse` stands for the host's
 * `Locale.numberFromString` followed by `round(x * 100)`, and `Format` for
 * `Locale.stringFromNumber(x, 2)`, both with '.' as the decimal separator and
 * no digit grouping.
 */
module Decimal {
  import opened Wrappers

  predicate IsDigit(c: char)
  {
    '0' <= c <= '9'
  }

  predicate AllDigits(s: string)
  {
    forall i :: 0 <= i < |s| ==> IsDigit(s[i])
  }

  function DigitValue(c: char): nat
    requires IsDigit(c)
  {
    c as int - '0' as int
  }

  function DigitChar(d: nat): (c: char)
    requires d < 10
    ensures IsDigit(c) && DigitValue(c) == d
  {
    ('0' as int + d) as char
  }

  /** The number a string of decimal digits denotes. */
  function DigitsValue(s: string): nat
    requires AllDigits(s)
  {
    if s == [] then 0 else DigitsValue(s[..|s| - 1]) * 10 + DigitValue(s[|s| - 1])
  }

  /** The decimal digits of `n`, without leading zeros. */
  function NatToDigits(n: nat): (s: string)
    ensures |s| > 0 && AllDigits(s)
    ensures DigitsValue(s) == n
    ensures '.' !in s && '-' !in s && '>' !in s
  {
    if n < 10 then [DigitChar(n)]
    else
      var s := NatToDigits(n / 10) + [DigitChar(n % 10)];
      assert s[..|s| - 1] == NatToDigits(n / 10);
      s
  }

  function Abs(v: int): nat
  {
    if v < 0 then -v else v
  }

  function Pow10(k: nat): (p: nat)
    ensures p >= 1
  {
    if k == 0 then 1 else 10 * Pow10(k - 1)
  }

  /**
   * `whole.frac`, where `frac` has `k` digits, in hundredths: exact when
   * `k <= 2`, otherwise rounded half away from zero as Python 2's `round` does.
   */
  function ScaledHundredths(whole: nat, frac: nat, k: nat): nat
  {
    var n := whole * Pow10(k) + frac;
    if k <= 2 then n * Pow10(2 - k)
    else (2 * n + Pow10(k - 2)) / (2 * Pow10(k - 2))
  }

  /** The first index of `c` in `s`. */
  function IndexOf(s: string, c: char): (r: Option<nat>)
    ensures r.Some? ==> r.value < |s| && s[r.value] == c && c !in s[..r.value]
    ensures r.None? ==> c !in s
  {
    if s == [] then None
    else if s[0] == c then Some(0)
    else match IndexOf(s[1..], c)
      case None => None
      case Some(i) =>
        assert s[..i + 1] == [s[0]] + s[1..][..i];
        Some(i + 1)
  }

  /** An unsigned number `digits` or `digits.digits`, in hundredths; `None` when malformed. */
  function ParseUnsigned(s: string): Option<nat>
  {
    match IndexOf(s, '.')
    case None =>
      if |s| > 0 && AllDigits(s) then Some(DigitsValue(s) * 100) else None
    case Some(i) =>
      var whole, frac := s[..i], s[i + 1..];
      if |whole| > 0 && |frac| > 0 && AllDigits(whole) && AllDigits(frac)
      then Some(ScaledHundredths(DigitsValue(whole), DigitsValue(frac), |frac|))
      else None
  }

  /** The unsigned numbers the parser accepts: digits and at most one '.', which is neither first nor last. */
  predicate IsUnsignedNumber(s: string)
  {
    |s| > 0 && s[0] != '.' && s[|s| - 1] != '.'
    && (forall i | 0 <= i < |s| :: IsDigit(s[i]) || s[i] == '.')
    && (forall i, j | 0 <= i < j < |s| :: s[i] == '.' ==> s[j] != '.')
  }

  /** The numbers the parser accepts: `['-'] digits ['.' digits]`. */
  predicate IsNumber(s: string)
  {
    if |s| > 0 && s[0] == '-' then IsUnsignedNumber(s[1..]) else IsUnsignedNumber(s)
  }

  /** The unsigned parser reads exactly the unsigned numbers. */
  lemma ParseUnsignedAccepts(s: string)
    ensures ParseUnsigned(s).Some? <==> IsUnsignedNumber(s)
  {
    match IndexOf(s, '.')
    case None =>
      if IsUnsignedNumber(s) {
        forall i | 0 <= i < |s| ensures IsDigit(s[i]) {
          assert s[i] in s;
        }
      }
    case Some(i) =>
      var whole, frac := s[..i], s[i + 1..];
      if ParseUnsigned(s).Some? {
        forall k | 0 <= k < |s| && k != i ensures IsDigit(s[k]) {
          if k < i {
            assert s[k] == whole[k];
          } else {
            assert s[k] == frac[k - i - 1];
          }
        }
        assert IsDigit(whole[0]);
        assert s[|s| - 1] == frac[|frac| - 1] && IsDigit(frac[|frac| - 1]);
      }
      if IsUnsignedNumber(s) {
        assert i > 0 && i < |s| - 1;
        forall k | 0 <= k < |whole| ensures IsDigit(whole[k]) {
          assert whole[k] == s[k];
          assert whole[k] != '.' by {
            assert s[k] in s[..i];
          }
        }
        forall k | 0 <= k < |frac| ensures IsDigit(frac[k]) {
          assert frac[k] == s[i + 1 + k];
        }
      }
  }

  /** The parser reads exactly the numbers: any other string is `None`. */
  lemma ParseAccepts(s: string)
    ensures Parse(s).Some? <==> IsNumber(s)
  {
    if |s| > 0 && s[0] == '-' {
      ParseUnsignedAccepts(s[1..]);
    } else {
      ParseUnsignedAccepts(s);
    }
  }

  /** A signed decimal number in hundredths; `None` when the string is not a number. */
  function Parse(s: string): (r: Option<int>)
    ensures r.Some? ==> |s| > 0 && s != "-"
    ensures r.Some? && r.value < 0 ==> s[0] == '-'
    ensures r.Some? && s[0] == '-' ==> r.value <= 0
  {
    if |s| > 0 && s[0] == '-' then
      match ParseUnsigned(s[1..])
      case None => None
      case Some(m) => Some(0 - m)
    else ParseUnsigned(s)
  }

  /** `a`, negated when `negative`. */
  function Signed(negative: bool, a: nat): int
  {
    if negative then -(a as int) else a as int
  }

  /** With at most two fraction digits nothing is rounded: `h / 100 == whole.frac`, that is `h * 10^k == 100 * n`. */
  lemma ScaledHundredthsExact(whole: nat, frac: nat, k: nat)
    requires k <= 2
    ensures ScaledHundredths(whole, frac, k) * Pow10(k) == 100 * (whole * Pow10(k) + frac)
  {
    assert Pow10(0) == 1;
    assert Pow10(1) == 10;
    assert Pow10(2) == 100;
  }

  /**
   * With more fraction digits the value is rounded to the nearest hundredth, a
   * half going up (away from zero, the value being non-negative): with
   * `p == 10^(k-2)`, `h` hundredths stand for `n / 10^k` when
   * `h - 1/2 <= n / p < h + 1/2`.
   */
  lemma ScaledHundredthsRounds(whole: nat, frac: nat, k: nat)
    requires k > 2
    ensures var n, p := whole * Pow10(k) + frac, Pow10(k - 2);
      var h := ScaledHundredths(whole, frac, k);
      2 * h * p <= 2 * n + p < 2 * (h + 1) * p
  {
    var n, p := whole * Pow10(k) + frac, Pow10(k - 2);
    var h := ScaledHundredths(whole, frac, k);
    var x, d := 2 * n + p, 2 * p;
    assert h == x / d;
    assert x == d * h + x % d && 0 <= x % d < d;
  }

  /** `[-]whole.frac` reads as its value in hundredths, rounded as `ScaledHundredths` says, negated after a '-'. */
  lemma ParsePoint(negative: bool, whole: string, frac: string)
    requires |whole| > 0 && |frac| > 0 && AllDigits(whole) && AllDigits(frac)
    ensures Parse((if negative then "-" else "") + (whole + "." + frac))
      == Some(Signed(negative, ScaledHundredths(DigitsValue(whole), DigitsValue(frac), |frac|)))
  {
    var h := ScaledHundredths(DigitsValue(whole), DigitsValue(frac), |frac|);
    var body := whole + "." + frac;
    ParseUnsignedPoint(whole, frac);
    assert body[0] != '-' by {
      assert body[0] == whole[0];
      assert IsDigit(whole[0]);
    }
    ParseSigned(negative, body, h);
    assert Signed(negative, h) == if negative then -(h as int) else h as int;
  }

  /** `[-]whole` reads as that many units, 100 hundredths each, negated after a '-'. */
  lemma ParseWhole(negative: bool, whole: string)
    requires |whole| > 0 && AllDigits(whole)
    ensures Parse((if negative then "-" else "") + whole) == Some(Signed(negative, DigitsValue(whole) * 100))
  {
    assert '.' !in whole by {
      forall i | 0 <= i < |whole| ensures whole[i] != '.' {
        assert IsDigit(whole[i]);
      }
    }
    assert whole[0] != '-' by {
      assert IsDigit(whole[0]);
    }
    var h := DigitsValue(whole) * 100;
    assert ParseUnsigned(whole) == Some(h);
    ParseSigned(negative, whole, h);
    assert Signed(negative, h) == if negative then -(h as int) else h as int;
  }

  /** A third fraction digit of 5 rounds up: 30.555 is read as 30.56. */
  lemma ExampleRoundsHalfUp()
    ensures Parse("30.555") == Some(3056)
  {
    assert DigitsValue("30") == 30 by {
      assert "30"[..1] == "3";
    }
    assert DigitsValue("555") == 555 by {
      assert "555"[..2] == "55";
      assert "55"[..1] == "5";
    }
    assert ScaledHundredths(30, 555, 3) == 3056 by {
      assert Pow10(1) == 10;
      assert Pow10(3) == 1000;
    }
    ParsePoint(false, "30", "555");
    assert "30.555" == "" + ("30" + "." + "555");
  }

  /** A negative half rounds away from zero: -0.005 is read as -0.01. */
  lemma ExampleRoundsAwayFromZero()
    ensures Parse("-0.005") == Some(-1)
  {
    assert DigitsValue("0") == 0;
    assert DigitsValue("005") == 5 by {
      assert "005"[..2] == "00";
      assert "00"[..1] == "0";
    }
    assert ScaledHundredths(0, 5, 3) == 1 by {
      assert Pow10(1) == 10;
      assert Pow10(3) == 1000;
    }
    ParsePoint(true, "0", "005");
    assert "-0.005" == "-" + ("0" + "." + "005");
  }

  /** A number of hundredths printed with exactly two fraction digits, `"%.2f"`. */
  function Format(v: int): (s: string)
    ensures '>' !in s
    ensures v < 0 <==> |s| > 0 && s[0] == '-'
    ensures |s| >= 4 && s[|s| - 3] == '.' && AllDigits(s[|s| - 2..])
    ensures var start := if v < 0 then 1 else 0;
      start < |s| - 3 && AllDigits(s[start..|s| - 3])
  {
    var a := Abs(v);
    var sign, digits := if v < 0 then "-" else "", NatToDigits(a / 100);
    var frac := [DigitChar(a % 100 / 10), DigitChar(a % 100 % 10)];
    var s := sign + (digits + "." + frac);
    assert s[|s| - 2..] == frac;
    assert s[|sign|..|s| - 3] == digits;
    s
  }

  /** Two digits with the values `d1` and `d2` denote `10 * d1 + d2`. */
  lemma TwoDigits(d1: nat, d2: nat)
    requires d1 < 10 && d2 < 10
    ensures AllDigits([DigitChar(d1), DigitChar(d2)])
    ensures DigitsValue([DigitChar(d1), DigitChar(d2)]) == 10 * d1 + d2
  {
    var s := [DigitChar(d1), DigitChar(d2)];
    assert s[..1] == [DigitChar(d1)];
    assert [DigitChar(d1)][..0] == [];
    assert DigitsValue([DigitChar(d1)]) == d1;
  }

  /** Two fraction digits scale exactly. */
  lemma ScaledTwoDigits(whole: nat, frac: nat)
    ensures ScaledHundredths(whole, frac, 2) == whole * 100 + frac
  {
    assert Pow10(2) == 100 by {
      assert Pow10(0) == 1;
      assert Pow10(1) == 10;
    }
  }

  /** `whole.frac` splits at its only '.' and reads as the scaled value of its two parts. */
  lemma ParseUnsignedPoint(whole: string, frac: string)
    requires |whole| > 0 && |frac| > 0 && AllDigits(whole) && AllDigits(frac)
    ensures ParseUnsigned(whole + "." + frac) == Some(ScaledHundredths(DigitsValue(whole), DigitsValue(frac), |frac|))
  {
    var s := whole + "." + frac;
    assert s[|whole|] == '.';
    assert s[..|whole|] == whole;
    assert s[|whole| + 1..] == frac;
    assert '.' !in whole by {
      forall i | 0 <= i < |whole| ensures whole[i] != '.' {
        assert IsDigit(whole[i]);
      }
    }
    assert IndexOf(s, '.') == Some(|whole|);
  }

  /** Whole digits, a point and two fraction digits read back as their value in hundredths. */
  lemma ParseUnsignedDigits(q: nat, d1: nat, d2: nat)
    requires d1 < 10 && d2 < 10
    ensures ParseUnsigned(NatToDigits(q) + "." + [DigitChar(d1), DigitChar(d2)]) == Some(q * 100 + (10 * d1 + d2))
  {
    TwoDigits(d1, d2);
    ParseUnsignedPoint(NatToDigits(q), [DigitChar(d1), DigitChar(d2)]);
    ScaledTwoDigits(q, 10 * d1 + d2);
  }

  /** An unsigned number printed with two fraction digits is read back exactly. */
  lemma ParseUnsignedFormat(a: nat)
    ensures ParseUnsigned(NatToDigits(a / 100) + "." + [DigitChar(a % 100 / 10), DigitChar(a % 100 % 10)]) == Some(a)
  {
    var q, r := a / 100, a % 100;
    var d1, d2 := r / 10, r % 10;
    assert a == q * 100 + (10 * d1 + d2);
    ParseUnsignedDigits(q, d1, d2);
  }

  /** A sign in front of an unsigned number that reads back as `a` gives `-a`; no sign gives `a`. */
  lemma ParseSigned(negative: bool, body: string, a: nat)
    requires ParseUnsigned(body) == Some(a) && |body| > 0 && body[0] != '-'
    ensures Parse((if negative then "-" else "") + body) == Some(if negative then -(a as int) else a as int)
  {
    var s := (if negative then "-" else "") + body;
    if negative {
      assert s[1..] == body;
    } else {
      assert s == body;
    }
  }

  /** What `Format` prints, `Parse` reads back: the two-decimal round trip of a stored threshold. */
  lemma ParseFormat(v: int)
    ensures Parse(Format(v)) == Some(v)
  {
    var a := Abs(v);
    var digits := NatToDigits(a / 100);
    var body := digits + "." + [DigitChar(a % 100 / 10), DigitChar(a % 100 % 10)];
    ParseUnsignedFormat(a);
    assert body[0] != '-' by {
      assert body[0] == digits[0];
      assert IsDigit(digits[0]);
    }
    ParseSigned(v < 0, body, a);
    assert Format(v) == (if v < 0 then "-" else "") + body;
    assert (if v < 0 then -(a as int) else a as int) == v;
  }
}
