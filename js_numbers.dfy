/**
 * Integer and real arithmetic as JavaScript performs it, written out for the
 * places where the model depends on it: byte truncation of typed arrays,
 * the truncating remainder operator `%`, `Math.floor`, and the decimal
 * rendering of integers inside template literals.
 */
module JsNumbers {
  /** An element of a `Uint8Array`. */
  type byte = x: int | 0 <= x < 256

  const TWO_POW_32: int := 0x1_0000_0000
  const TWO_POW_64: int := 0x1_0000_0000_0000_0000
  const TWO_POW_53: int := 0x20_0000_0000_0000

  /** Storing an integer into a `Uint8Array`, or `v & 0xFF`: the value modulo 256. */
  function ToUint8(v: int): (b: byte)
    ensures (v - b) % 256 == 0
    ensures 0 <= v < 256 ==> b == v
  {
    v % 256
  }

  /** `v | 0` on an integer: the value wrapped to a signed 32-bit integer. */
  function ToInt32(v: int): (r: int)
    ensures -TWO_POW_32 / 2 <= r < TWO_POW_32 / 2
    ensures (v - r) % TWO_POW_32 == 0
    ensures -TWO_POW_32 / 2 <= v < TWO_POW_32 / 2 ==> r == v
  {
    var m := v % TWO_POW_32;
    if m >= TWO_POW_32 / 2 then m - TWO_POW_32 else m
  }

  /** The gap between neighbouring doubles at magnitude `m`: 1 below 2^53, doubled in each binade above. */
  function DoubleSpacing(m: nat): (u: nat)
    ensures u >= 1
    ensures m < TWO_POW_53 ==> u == 1
    decreases m
  {
    if m < TWO_POW_53 then 1 else 2 * DoubleSpacing(m / 2)
  }

  /** A magnitude rounded to the nearest multiple of its spacing, a tie going to the even multiple. */
  function RoundMagnitude(m: nat): (r: nat)
    ensures m - DoubleSpacing(m) / 2 <= r <= m + DoubleSpacing(m) / 2
    ensures m <= TWO_POW_53 ==> r == m
  {
    var u := DoubleSpacing(m);
    var rest := m % u;
    assert 0 <= rest < u && rest <= m by {
      UnitRemainder(m, u);
    }
    assert m == TWO_POW_53 ==> DoubleSpacing(m / 2) == 1 && u == 2 && rest == 0;
    if 2 * rest < u || (2 * rest == u && (m / u) % 2 == 0) then m - rest
    else m - rest + u
  }

  /** The remainder by a positive unit is below the unit and at most the dividend. */
  lemma UnitRemainder(m: nat, u: nat)
    requires u >= 1
    ensures 0 <= m % u < u && m % u <= m
  {
  }

  /**
   * `Number(big)` on an integer: the nearest double, ties to even. Integers of
   * magnitude up to 2^53 convert exactly; larger ones move by at most half
   * the spacing of doubles around them, keeping their sign.
   */
  function BigIntToNumber(v: int): (r: int)
    ensures -TWO_POW_53 <= v <= TWO_POW_53 ==> r == v
    ensures v >= 0 ==> v - DoubleSpacing(v) / 2 <= r <= v + DoubleSpacing(v) / 2
    ensures v < 0 ==> v - DoubleSpacing(-v) / 2 <= r <= v + DoubleSpacing(-v) / 2
  {
    if v < 0 then -(RoundMagnitude(-v) as int) else RoundMagnitude(v)
  }

  /** 2^53 + 1 is the first integer `Number` does not keep: it lies halfway between 2^53 and 2^53 + 2 and goes to the even 2^53. */
  lemma FirstInexactBigInt()
    ensures BigIntToNumber(TWO_POW_53 + 1) == TWO_POW_53
  {
    assert DoubleSpacing((TWO_POW_53 + 1) / 2) == 1;
  }

  /** The truncating remainder `a % b` of JavaScript on integers: the sign follows the dividend. */
  function JsRem(a: int, b: int): (r: int)
    requires b > 0
    ensures a >= 0 ==> 0 <= r < b
    ensures a < 0 ==> -b < r <= 0
  {
    if a >= 0 then a % b else -((-a) % b)
  }

  /** Euclidean division is unique: any decomposition with a remainder in `[0, b)` is the one `%` computes. */
  lemma ModUnique(a: int, b: int, d: int, r: int)
    requires b > 0 && 0 <= r < b && a == d * b + r
    ensures a % b == r && a / b == d
  {
    var r' := a % b;
    var d' := a / b;
    assert a == d' * b + r';
    assert (d - d') * b == r' - r;
    ProductBounds(d - d', b);
  }

  /** A nonzero integer multiple of a positive number is at least that number in size. */
  lemma ProductBounds(x: int, b: int)
    requires b > 0
    ensures x >= 1 ==> x * b >= b
    ensures x <= -1 ==> x * b <= -b
  {
  }

  /** The truncating remainder, shifted up by `b` when negative, is the floor remainder. */
  lemma JsRemToFloorMod(a: int, b: int)
    requires b > 0
    ensures a % b == (if JsRem(a, b) < 0 then JsRem(a, b) + b else JsRem(a, b))
  {
    if a < 0 {
      var q := (-a) / b;
      var m := (-a) % b;
      assert -a == q * b + m;
      assert (-q) * b == -(q * b) && (-q - 1) * b == -(q * b) - b;
      if m == 0 {
        ModUnique(a, b, -q, 0);
      } else {
        ModUnique(a, b, -q - 1, b - m);
      }
    }
  }

  /** Dividing by a positive number preserves comparisons against a product with it. */
  lemma RealDivBounds(a: real, b: real, c: real)
    requires b > 0.0
    ensures a < c * b ==> a / b < c
    ensures c * b <= a ==> c <= a / b
  {
    var t := a / b;
    assert t * b == a;
    if a < c * b {
      assert t * b < c * b;
    }
  }

  /** `Math.floor` of a real number. */
  function Floor(x: real): (f: int)
    ensures f as real <= x < f as real + 1.0
  {
    x.Floor
  }

  /** `Math.trunc` of a real number: rounds toward zero. */
  function Trunc(x: real): (t: int)
    ensures x >= 0.0 ==> t as real <= x < t as real + 1.0
    ensures x < 0.0 ==> t as real - 1.0 < x <= t as real
  {
    if x >= 0.0 then x.Floor else -((-x).Floor)
  }

  /** The remainder `a % b` of JavaScript on numbers, for a positive divisor. */
  function JsRealRem(a: real, b: real): real
    requires b > 0.0
  {
    a - b * Trunc(a / b) as real
  }

  /** One decimal digit as a character. */
  function DigitChar(d: int): (c: char)
    requires 0 <= d < 10
    ensures '0' <= c <= '9'
    ensures c as int - '0' as int == d
  {
    ('0' as int + d) as char
  }

  /** The decimal rendering of a natural number, without leading zeros. */
  function NatToString(n: nat): (s: string)
    ensures |s| >= 1
    ensures forall i :: 0 <= i < |s| ==> '0' <= s[i] <= '9'
    decreases n
  {
    if n < 10 then [DigitChar(n)] else NatToString(n / 10) + [DigitChar(n % 10)]
  }

  /** The rendering `${i}` of an integer in a template literal. */
  function IntToString(i: int): (s: string)
    ensures |s| >= 1
    ensures forall k :: 0 <= k < |s| ==> s[k] != '_'
    ensures s[0] == '-' <==> i < 0
  {
    if i < 0 then "-" + NatToString(-i) else NatToString(i)
  }

  /** Different natural numbers render differently: the rendering has no leading zeros. */
  lemma {:induction false} NatToStringInjective(a: nat, b: nat)
    requires NatToString(a) == NatToString(b)
    ensures a == b
    decreases a
  {
    var s := NatToString(a);
    if a >= 10 && b >= 10 {
      assert s[..|s| - 1] == NatToString(a / 10) && s[..|s| - 1] == NatToString(b / 10);
      assert DigitChar(a % 10) == s[|s| - 1] == DigitChar(b % 10);
      NatToStringInjective(a / 10, b / 10);
    }
  }

  /** Different integers render differently in a template literal. */
  lemma IntToStringInjective(a: int, b: int)
    requires IntToString(a) == IntToString(b)
    ensures a == b
  {
    if a < 0 && b < 0 {
      assert IntToString(a)[1..] == NatToString(-a) && IntToString(b)[1..] == NatToString(-b);
      NatToStringInjective(-a, -b);
    } else if a >= 0 && b >= 0 {
      NatToStringInjective(a, b);
    }
  }
}
