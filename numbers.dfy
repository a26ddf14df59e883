/**
 * The JavaScript number operations the auction code relies on, restricted to
 * the integer values it applies them to: the truncating remainder `%`,
 * `Math.floor` of a quotient, `Number.prototype.toString()` in base 10,
 * `String.prototype.padStart` with a single-character pad, and
 * `parseFloat(x.toFixed(2))` over exact reals.
 */
module Numbers {

  /** JavaScript `a % b` for a positive divisor: the remainder takes the sign of the dividend. */
  function TruncRem(a: int, b: int): (r: int)
    requires b > 0
    ensures a >= 0 ==> 0 <= r < b
    ensures a < 0 ==> -b < r <= 0
    ensures a >= 0 ==> r == a % b
  {
    if a >= 0 then a % b else -((-a) % b)
  }

  /** The truncating remainder is odd in the dividend: `(-a) % b == -(a % b)`. */
  lemma TruncRemOdd(a: int, b: int)
    requires b > 0
    ensures TruncRem(-a, b) == -TruncRem(a, b)
  {
  }

  /** `Math.floor(a / b)` for an integer dividend and a positive divisor. */
  function FloorDiv(a: int, b: int): (q: int)
    requires b > 0
    ensures q * b <= a < q * b + b
  {
    a / b
  }

  /** The decimal digit character for `d`. */
  function DigitChar(d: int): (c: char)
    requires 0 <= d < 10
    ensures '0' <= c <= '9' && c as int - '0' as int == d
  {
    ('0' as int + d) as char
  }

  predicate IsDigits(s: string)
  {
    forall i | 0 <= i < |s| :: '0' <= s[i] <= '9'
  }

  /** The value of a string of decimal digits (the empty string reads as 0). */
  function ParseNat(s: string): nat
    requires IsDigits(s)
  {
    if s == [] then 0
    else ParseNat(s[..|s| - 1]) * 10 + (s[|s| - 1] as int - '0' as int)
  }

  /** `n.toString()` for a non-negative integer: its shortest decimal spelling. */
  function NatToString(n: nat): (s: string)
    ensures |s| >= 1 && IsDigits(s)
    ensures n < 10 <==> |s| == 1
    ensures n < 100 ==> |s| <= 2
    ensures n >= 1 ==> s[0] != '0'
  {
    if n < 10 then [DigitChar(n)]
    else NatToString(n / 10) + [DigitChar(n % 10)]
  }

  /** Reading back the decimal spelling of `n` gives `n`. */
  lemma {:induction false} ParseNatToString(n: nat)
    ensures ParseNat(NatToString(n)) == n
  {
    var s := NatToString(n);
    if n < 10 {
      assert s[..0] == [];
    } else {
      var t := NatToString(n / 10);
      assert s[..|s| - 1] == t;
      ParseNatToString(n / 10);
    }
  }

  /** `n.toString()` for an integer: a minus sign before the digits of `|n|` when negative. */
  function IntToString(n: int): (s: string)
    ensures n >= 0 ==> IsDigits(s) && |s| >= 1 && ParseNat(s) == n
    ensures n < 0 ==> |s| >= 2 && s[0] == '-' && IsDigits(s[1..]) && ParseNat(s[1..]) == -n
    ensures n >= 0 ==> (n < 10 <==> |s| == 1)
    ensures 0 <= n < 100 ==> |s| <= 2
    ensures n >= 1 ==> s[0] != '0'
  {
    if n >= 0 then
      ParseNatToString(n);
      NatToString(n)
    else
      ParseNatToString(-n);
      var d := NatToString(-n);
      assert ("-" + d)[1..] == d;
      "-" + d
  }

  /** `s.padStart(n, c)` for a one-character pad `c`. */
  function PadStart(s: string, n: nat, c: char): (r: string)
    ensures |r| == if |s| >= n then |s| else n
    ensures r[|r| - |s|..] == s
    ensures forall i | 0 <= i < |r| - |s| :: r[i] == c
    decreases n
  {
    if |s| >= n then s
    else [c] + PadStart(s, n - 1, c)
  }

  /**
   * The display form `v.toString().padStart(2, '0')`: a single digit gets a
   * leading '0'; a negative value or one of two or more digits is left as spelled.
   */
  function Pad2(v: int): (s: string)
    ensures |s| >= 2
    ensures 0 <= v < 10 ==> s == ['0'] + IntToString(v)
    ensures v < 0 || v >= 10 ==> s == IntToString(v)
    ensures 0 <= v <= 99 ==> |s| == 2
  {
    PadStart(IntToString(v), 2, '0')
  }

  /** Padding a value in 0..99 gives exactly two digits that read back as the value. */
  lemma TwoDigits(v: int)
    requires 0 <= v <= 99
    ensures |Pad2(v)| == 2 && IsDigits(Pad2(v)) && ParseNat(Pad2(v)) == v
  {
    var s := IntToString(v);
    var r := Pad2(v);
    if v < 10 {
      assert r == ['0'] + s;
      assert r[..1] == ['0'] && r[..1][..0] == [];
      assert s[..0] == [];
    }
  }

  /** A value of 100 or more is shown unpadded: its plain decimal spelling. */
  lemma Pad2Wide(v: int)
    requires v >= 100
    ensures Pad2(v) == IntToString(v) && |Pad2(v)| >= 3
  {
    assert NatToString(v) == NatToString(v / 10) + [DigitChar(v % 10)];
  }

  /**
   * `x.toFixed(2)` read as a whole number of hundredths: the nearest one, a tie
   * going away from zero (toFixed rounds the magnitude and re-attaches the sign).
   */
  function Cents(x: real): (n: int)
    ensures x >= 0.0 ==> n as real - 0.5 <= x * 100.0 < n as real + 0.5
    ensures x < 0.0 ==> n as real - 0.5 < x * 100.0 <= n as real + 0.5
  {
    if x < 0.0 then -((-x) * 100.0 + 0.5).Floor
    else (x * 100.0 + 0.5).Floor
  }

  /** `parseFloat(x.toFixed(2))` on an exact real: a whole number of hundredths within half a hundredth of `x`. */
  function ToFixed2(x: real): (y: real)
    ensures -0.005 <= y - x <= 0.005
    ensures (y * 100.0).Floor as real == y * 100.0
  {
    Cents(x) as real / 100.0
  }

  /** Rounding twice is rounding once. */
  lemma ToFixed2Idempotent(x: real)
    ensures ToFixed2(ToFixed2(x)) == ToFixed2(x)
  {
    var n := Cents(x);
    var y := ToFixed2(x);
    assert y * 100.0 == n as real;
    if y < 0.0 {
      assert (-y) * 100.0 + 0.5 == (-n) as real + 0.5;
      assert ((-y) * 100.0 + 0.5).Floor == -n;
    } else {
      assert y * 100.0 + 0.5 == n as real + 0.5;
      assert (y * 100.0 + 0.5).Floor == n;
    }
    assert Cents(y) == n;
  }
}
