/** Regrouping decoded bytes into colours and reversing the slider (src/main.rs:42-57). */
module Colors {
  import opened LedTypes

  /**
   * The colours of a decoded byte run: each full wire triple (b0, b1, b2)
   * becomes Rgb(r = b1, g = b2, b = b0); a trailing group of one or two
   * bytes is dropped.
   */
  function BytesToRgb(data: seq<Byte>): (colors: seq<Rgb>)
    ensures |colors| == |data| / 3
    ensures forall k :: 0 <= k < |colors| ==>
      colors[k] == Rgb(data[3 * k + 1], data[3 * k + 2], data[3 * k])
    decreases |data|
  {
    if |data| < 3 then []
    else [Rgb(data[1], data[2], data[0])] + BytesToRgb(data[3..])
  }

  /** The colours in the opposite order. */
  function Reversed(leds: seq<Rgb>): (r: seq<Rgb>)
    ensures |r| == |leds|
    ensures forall j :: 0 <= j < |leds| ==> r[j] == leds[|leds| - 1 - j]
  {
    if leds == [] then [] else Reversed(leds[1..]) + [leds[0]]
  }
}
