/** The zone reducer `slider_to_drum_pads` (src/main.rs:59-87). */
module DrumPads {
  import opened LedTypes

  const PADS: nat := 8
  const ZONE_WIDTH: nat := 4

  datatype Channel = Red | Green | Blue

  function Level(c: Rgb, ch: Channel): Byte {
    match ch
    case Red => c.r
    case Green => c.g
    case Blue => c.b
  }

  /** First slider LED of zone `i`. */
  function ZoneStart(i: nat): nat { ZONE_WIDTH * i }

  /** One past the last slider LED of zone `i`: `min(4i + 4, 31)`. */
  function ZoneEnd(i: nat): nat {
    if ZONE_WIDTH * i + ZONE_WIDTH < SLIDER_LEDS then ZONE_WIDTH * i + ZONE_WIDTH else SLIDER_LEDS
  }

  /** Zones 0 to 6 cover four LEDs and zone 7 covers three, so no zone is empty. */
  function ZoneSize(i: nat): (n: nat)
    requires i < PADS
    ensures n == if i < PADS - 1 then 4 else 3
    ensures ZoneStart(i) + n == ZoneEnd(i) <= SLIDER_LEDS
  {
    ZoneEnd(i) - ZoneStart(i)
  }

  /** Sum of one channel over the LEDs `lo .. hi`. */
  function ChannelSum(leds: seq<Rgb>, ch: Channel, lo: nat, hi: nat): nat
    requires lo <= hi <= |leds|
    decreases hi - lo
  {
    if lo == hi then 0 else ChannelSum(leds, ch, lo, hi - 1) + Level(leds[hi - 1], ch)
  }

  lemma {:induction false} ChannelSumBound(leds: seq<Rgb>, ch: Channel, lo: nat, hi: nat)
    requires lo <= hi <= |leds|
    ensures ChannelSum(leds, ch, lo, hi) <= 255 * (hi - lo)
    decreases hi - lo
  {
    if lo < hi {
      ChannelSumBound(leds, ch, lo, hi - 1);
    }
  }

  /** A sum of n values, each at most 255, divided by n > 0 fits in a byte. */
  lemma MeanFitsByte(total: nat, n: nat)
    requires 0 < n && total <= 255 * n
    ensures total / n <= 255
  {
  }

  /** The truncating mean of one channel over zone `i`; it is at most 255. */
  function ChannelMean(leds: seq<Rgb>, ch: Channel, i: nat): (m: Byte)
    requires |leds| == SLIDER_LEDS && i < PADS
    ensures m * ZoneSize(i) <= ChannelSum(leds, ch, ZoneStart(i), ZoneEnd(i)) < (m + 1) * ZoneSize(i)
  {
    ChannelSumBound(leds, ch, ZoneStart(i), ZoneEnd(i));
    MeanFitsByte(ChannelSum(leds, ch, ZoneStart(i), ZoneEnd(i)), ZoneSize(i));
    ChannelSum(leds, ch, ZoneStart(i), ZoneEnd(i)) / ZoneSize(i)
  }

  /** The colour of pad `i`: the per-channel mean of its zone. */
  function ZoneMean(leds: seq<Rgb>, i: nat): (c: Rgb)
    requires |leds| == SLIDER_LEDS && i < PADS
    ensures forall ch: Channel :: Level(c, ch) == ChannelMean(leds, ch, i)
  {
    Rgb(ChannelMean(leds, Red, i), ChannelMean(leds, Green, i), ChannelMean(leds, Blue, i))
  }

  /** The byte the program stores for a pad, `(total / count) as u8`, is the zone's mean. */
  lemma StoredMeanIsZoneMean(leds: seq<Rgb>, i: nat, totalR: nat, totalG: nat, totalB: nat)
    requires |leds| == SLIDER_LEDS && i < PADS
    requires totalR == ChannelSum(leds, Red, ZoneStart(i), ZoneEnd(i))
    requires totalG == ChannelSum(leds, Green, ZoneStart(i), ZoneEnd(i))
    requires totalB == ChannelSum(leds, Blue, ZoneStart(i), ZoneEnd(i))
    ensures Rgb((totalR / ZoneSize(i)) % 0x100, (totalG / ZoneSize(i)) % 0x100, (totalB / ZoneSize(i)) % 0x100)
         == ZoneMean(leds, i)
  {
    var n := ZoneSize(i);
    assert totalR / n == ChannelMean(leds, Red, i);
    assert totalG / n == ChannelMean(leds, Green, i);
    assert totalB / n == ChannelMean(leds, Blue, i);
  }

  /** The 8-pad summary of a slider. */
  function Summary(leds: seq<Rgb>): (pads: seq<Rgb>)
    requires |leds| == SLIDER_LEDS
    ensures |pads| == PADS
    ensures forall i :: 0 <= i < PADS ==> pads[i] == ZoneMean(leds, i)
  {
    seq(PADS, i requires 0 <= i < PADS => ZoneMean(leds, i))
  }

  /**
   * `slider_to_drum_pads`: for each pad, accumulate its zone in 32-bit
   * totals and a count, then store each total divided by the count, cast to
   * a byte. Being U32 and Byte, the assignments show that no total overflows
   * and that the cast never truncates.
   */
  method SliderToDrumPads(leds: seq<Rgb>) returns (pads: seq<Rgb>)
    requires |leds| == SLIDER_LEDS
    ensures pads == Summary(leds)
  {
    var drumPads := new Rgb[PADS](_ => Rgb(0, 0, 0));
    var padIdx := 0;
    while padIdx < PADS
      invariant 0 <= padIdx <= PADS
      invariant forall k :: 0 <= k < padIdx ==> drumPads[k] == ZoneMean(leds, k)
    {
      var startLed := padIdx * ZONE_WIDTH;
      var endLed := if startLed + ZONE_WIDTH < SLIDER_LEDS then startLed + ZONE_WIDTH else SLIDER_LEDS;
      var totalR: U32, totalG: U32, totalB: U32, count: U32 := 0, 0, 0, 0;
      var led := startLed;
      while led < endLed
        invariant startLed <= led <= endLed
        invariant count == led - startLed
        invariant totalR == ChannelSum(leds, Red, startLed, led)
        invariant totalG == ChannelSum(leds, Green, startLed, led)
        invariant totalB == ChannelSum(leds, Blue, startLed, led)
        invariant forall k :: 0 <= k < padIdx ==> drumPads[k] == ZoneMean(leds, k)
      {
        ChannelSumBound(leds, Red, startLed, led + 1);
        ChannelSumBound(leds, Green, startLed, led + 1);
        ChannelSumBound(leds, Blue, startLed, led + 1);
        totalR := totalR + leds[led].r;
        totalG := totalG + leds[led].g;
        totalB := totalB + leds[led].b;
        count := count + 1;
        led := led + 1;
      }
      if count > 0 {
        assert startLed == ZoneStart(padIdx) && endLed == ZoneEnd(padIdx) && count == ZoneSize(padIdx);
        StoredMeanIsZoneMean(leds, padIdx, totalR, totalG, totalB);
        drumPads[padIdx] := Rgb((totalR / count) % 0x100, (totalG / count) % 0x100, (totalB / count) % 0x100);
      }
      padIdx := padIdx + 1;
    }
    pads := drumPads[..];
  }

  /** A channel sum lies between the count times the smallest level and the count times the largest. */
  lemma {:induction false} ChannelSumBetween(leds: seq<Rgb>, ch: Channel, lo: nat, hi: nat, min: nat, max: nat)
    requires lo <= hi <= |leds|
    requires forall k :: lo <= k < hi ==> min <= Level(leds[k], ch) <= max
    ensures min * (hi - lo) <= ChannelSum(leds, ch, lo, hi) <= max * (hi - lo)
    decreases hi - lo
  {
    if lo < hi {
      ChannelSumBetween(leds, ch, lo, hi - 1, min, max);
      assert min * (hi - lo) == min * (hi - 1 - lo) + min;
      assert max * (hi - lo) == max * (hi - 1 - lo) + max;
    }
  }

  /** A zone lit with one colour C gives pad colour C. */
  lemma UniformZone(leds: seq<Rgb>, i: nat, c: Rgb)
    requires |leds| == SLIDER_LEDS && i < PADS
    requires forall k :: ZoneStart(i) <= k < ZoneEnd(i) ==> leds[k] == c
    ensures ZoneMean(leds, i) == c
  {
    var n := ZoneSize(i);
    forall ch: Channel ensures ChannelMean(leds, ch, i) == Level(c, ch) {
      var v := Level(c, ch);
      ChannelSumBetween(leds, ch, ZoneStart(i), ZoneEnd(i), v, v);
      assert ChannelSum(leds, ch, ZoneStart(i), ZoneEnd(i)) == v * n;
    }
    assert ChannelMean(leds, Red, i) == c.r;
    assert ChannelMean(leds, Green, i) == c.g;
    assert ChannelMean(leds, Blue, i) == c.b;
  }

  /** Thirty-one identical colours C give eight pads equal to C. */
  lemma UniformSlider(leds: seq<Rgb>, c: Rgb)
    requires |leds| == SLIDER_LEDS
    requires forall k :: 0 <= k < |leds| ==> leds[k] == c
    ensures Summary(leds) == seq(PADS, _ => c)
  {
    forall i | 0 <= i < PADS ensures Summary(leds)[i] == c {
      UniformZone(leds, i, c);
    }
  }

  lemma {:induction false} ChannelSumLocal(a: seq<Rgb>, b: seq<Rgb>, ch: Channel, lo: nat, hi: nat)
    requires lo <= hi <= |a| && hi <= |b|
    requires forall k :: lo <= k < hi ==> a[k] == b[k]
    ensures ChannelSum(a, ch, lo, hi) == ChannelSum(b, ch, lo, hi)
    decreases hi - lo
  {
    if lo < hi {
      ChannelSumLocal(a, b, ch, lo, hi - 1);
    }
  }

  /** Pad i depends only on the LEDs of zone i. */
  lemma ZoneMeanLocal(a: seq<Rgb>, b: seq<Rgb>, i: nat)
    requires |a| == SLIDER_LEDS && |b| == SLIDER_LEDS && i < PADS
    requires forall k :: ZoneStart(i) <= k < ZoneEnd(i) ==> a[k] == b[k]
    ensures ZoneMean(a, i) == ZoneMean(b, i)
  {
    ChannelSumLocal(a, b, Red, ZoneStart(i), ZoneEnd(i));
    ChannelSumLocal(a, b, Green, ZoneStart(i), ZoneEnd(i));
    ChannelSumLocal(a, b, Blue, ZoneStart(i), ZoneEnd(i));
  }

  /** Two sliders that differ only at LED 30 give the same pads 0 to 6. */
  lemma LastLedOnlyMovesLastPad(a: seq<Rgb>, b: seq<Rgb>)
    requires |a| == SLIDER_LEDS && |b| == SLIDER_LEDS
    requires forall k :: 0 <= k < SLIDER_LEDS - 1 ==> a[k] == b[k]
    ensures Summary(a)[..PADS - 1] == Summary(b)[..PADS - 1]
  {
    forall i | 0 <= i < PADS - 1 ensures Summary(a)[i] == Summary(b)[i] {
      ZoneMeanLocal(a, b, i);
    }
  }
}
