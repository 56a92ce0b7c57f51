/**
 The two scalings of the settings: the volume to a percentage, the brightness to the range of the backlight device.
 */
module Scaling {
  const MAX32: int := 0xFFFF_FFFF

  /** `std::lround` of a non-negative number: the nearest integer, halves away from zero. */
  function Lround(x: real): (n: int)
    requires x >= 0.0
    ensures n as real <= x + 0.5 < n as real + 1.0
  {
    (x + 0.5).Floor
  }

  /** What parsing the volume string gives: a 64-bit number, written in hex or decimal, or nothing usable. */
  datatype Parsed = Unusable | Number(raw: nat, isHex: bool)

  function Clamped(raw: nat): nat {
    if raw > MAX32 then MAX32 else raw
  }

  /** `settingsVolumeToPercent` after the parsing, over the reals. */
  function VolumePercent(volume: Parsed): int {
    match volume
    case Unusable => 100
    case Number(raw, isHex) =>
      if !isHex && raw <= 100 then raw
      else Lround(Clamped(raw) as real * 100.0 / MAX32 as real)
  }

  /** The scaled value in integers. */
  function Nearest(c: nat): int {
    (200 * c + MAX32) / (2 * MAX32)
  }

  /**
   Any quotient that is off by less than 1 / (2 MAX32) rounds to the integer nearest to the exact one: the exact one is
   never that close to a half, so the rounding errors of a floating-point division cannot show.
   */
  lemma NearestIsRobust(c: nat, q: real)
    requires c <= MAX32 && q >= 0.0
    requires -1.0 < (q - c as real * 100.0 / MAX32 as real) * (2.0 * MAX32 as real) < 1.0
    ensures Lround(q) == Nearest(c)
  {
    var n := Nearest(c);
    var m := MAX32 as real;
    // 2 M n <= 200 c + M < 2 M (n + 1), and 200 c + M is odd while 2 M n is even
    assert 2 * MAX32 * n <= 200 * c + MAX32 < 2 * MAX32 * (n + 1);
    assert 2 * MAX32 * n + 1 <= 200 * c + MAX32;
    var e := c as real * 100.0 / m;
    assert e * (2.0 * m) == 200.0 * c as real;
    assert (q + 0.5) * (2.0 * m) > 200.0 * c as real + m - 1.0;
    assert (q + 0.5) * (2.0 * m) < 200.0 * c as real + m + 1.0;
    assert (200 * c + MAX32) as real == 200.0 * c as real + m;
    assert n as real * (2.0 * m) < (q + 0.5) * (2.0 * m) < (n as real + 1.0) * (2.0 * m);
  }

  /**
   The volume percentage is always in [0, 100]: 100 for what is no number, a decimal up to 100 as it is, and otherwise
   the nearest integer, where no tie can occur.
   */
  lemma VolumeBounds(volume: Parsed)
    ensures 0 <= VolumePercent(volume) <= 100
    ensures volume.Unusable? ==> VolumePercent(volume) == 100
    ensures volume.Number? && !volume.isHex && volume.raw <= 100 ==> VolumePercent(volume) == volume.raw
    ensures volume.Number? && (volume.isHex || volume.raw > 100) ==>
              && VolumePercent(volume) == Nearest(Clamped(volume.raw))
              && (200 * Clamped(volume.raw)) % (2 * MAX32) != MAX32
  {
    if volume.Number? && (volume.isHex || volume.raw > 100) {
      var c := Clamped(volume.raw);
      NearestIsRobust(c, c as real * 100.0 / MAX32 as real);
      assert (200 * c) % 2 == 0;
    }
  }

  /** Scaled volumes grow with the raw value, from 0 up to 100. */
  lemma VolumeMonotone(a: nat, b: nat)
    requires a <= b
    ensures VolumePercent(Number(a, true)) <= VolumePercent(Number(b, true))
    ensures a > 100 ==> VolumePercent(Number(a, false)) <= VolumePercent(Number(b, false))
    ensures VolumePercent(Number(0, true)) == 0 && VolumePercent(Number(MAX32, true)) == 100
  {
    VolumeBounds(Number(a, true));
    VolumeBounds(Number(b, true));
    VolumeBounds(Number(a, false));
    VolumeBounds(Number(b, false));
    VolumeBounds(Number(0, true));
    VolumeBounds(Number(MAX32, true));
  }

  /** A decimal volume up to 100 is a percentage, a larger one is scaled: between 100 and 101 the result drops to 0. */
  lemma DecimalVolumeDrops()
    ensures VolumePercent(Number(100, false)) == 100 && VolumePercent(Number(101, false)) == 0
  {
    VolumeBounds(Number(101, false));
  }

  lemma AtLeastQuotient(x: nat, n: nat)
    ensures n <= x / (2 * MAX32) <==> 2 * MAX32 * n <= x
  {
  }

  /**
   When the larger of two decimal volumes is at least as loud: both are percentages, both are scaled, or the larger one
   is so large that scaling leaves it no less than the percentage.
   */
  lemma DecimalVolumeOrder(a: nat, b: nat)
    requires a <= b
    ensures VolumePercent(Number(a, false)) <= VolumePercent(Number(b, false)) <==>
              b <= 100 || a > 100 || 2 * MAX32 * a <= 200 * Clamped(b) + MAX32
  {
    VolumeMonotone(a, b);
    if a <= 100 < b {
      VolumeBounds(Number(b, false));
      AtLeastQuotient(200 * Clamped(b) + MAX32, a);
    }
  }

  // ---------- backlight ----------

  const INT_MAX: int := 0x7FFF_FFFF

  /** The 32-bit expression `(brightness * maxValue + 127) / 255` does not overflow. */
  predicate Fits(brightness: int, maxValue: int) {
    brightness * maxValue + 127 <= INT_MAX
  }

  function Backlight(brightness: int, maxValue: int): int
    requires 0 <= brightness <= 255 && maxValue > 0 && Fits(brightness, maxValue)
  {
    (brightness * maxValue + 127) / 255
  }

  /** No brightness overflows iff full brightness does not. */
  lemma AllFit(maxValue: int)
    requires maxValue > 0
    ensures (forall b :: 0 <= b <= 255 ==> Fits(b, maxValue)) <==> maxValue <= 8421504
  {
    if maxValue <= 8421504 {
      forall b | 0 <= b <= 255 ensures Fits(b, maxValue) {
        assert b * maxValue <= 255 * maxValue;
      }
    } else {
      assert !Fits(255, maxValue);
    }
  }

  /** The device value is off the exact proportion by at most one half, and both ends are hit. */
  lemma BacklightNearest(b: int, maxValue: int)
    requires 0 <= b <= 255 && maxValue > 0 && Fits(b, maxValue)
    ensures -127 <= 255 * Backlight(b, maxValue) - b * maxValue <= 127
    ensures 0 <= Backlight(b, maxValue) <= maxValue
    ensures b == 0 ==> Backlight(b, maxValue) == 0
    ensures b == 255 ==> Backlight(b, maxValue) == maxValue
  {
    assert 0 <= b * maxValue <= 255 * maxValue;
  }

  lemma OneStep(a: int, b: int, m: int)
    requires a < b && m > 0
    ensures a * m + m <= b * m
  {
    var d := b - a - 1;
    assert d * m >= 0;
    assert b * m == (a + 1 + d) * m == a * m + m + d * m;
  }

  lemma RoundingMonotone(x: int, y: int)
    requires x <= y
    ensures (x + 127) / 255 <= (y + 127) / 255
    ensures x + 255 <= y ==> (x + 127) / 255 < (y + 127) / 255
  {
  }

  /** More brightness never gives less, and on a device with at least 255 steps it always gives more. */
  lemma BacklightMonotone(a: int, b: int, maxValue: int)
    requires 0 <= a < b <= 255 && maxValue > 0 && Fits(a, maxValue) && Fits(b, maxValue)
    ensures Backlight(a, maxValue) <= Backlight(b, maxValue)
    ensures maxValue >= 255 ==> Backlight(a, maxValue) < Backlight(b, maxValue)
  {
    OneStep(a, b, maxValue);
    RoundingMonotone(a * maxValue, b * maxValue);
  }
}
