/** The colour wheel: an integer hue position turned into an RGB triple. */
module Color {

  /** One pixel: red, green and blue channels. */
  type Rgb = (int, int, int)

  const Black: Rgb := (0, 0, 0)

  predicate IsChannel(v: int) {
    0 <= v <= 255
  }

  predicate IsColour(c: Rgb) {
    IsChannel(c.0) && IsChannel(c.1) && IsChannel(c.2)
  }

  /** Hue position to colour, in three 85-wide segments green -> red -> blue -> green.
      A position outside [0, 255] is answered with black rather than wrapped. */
  function Wheel(pos: int): (c: Rgb)
    ensures (pos < 0 || 255 < pos) ==> c == Black
    ensures 0 <= pos <= 255 ==> IsColour(c) && c.0 + c.1 + c.2 == 255
    ensures 0 <= pos < 85 ==> c.2 == 0
    ensures 85 <= pos < 170 ==> c.1 == 0
    ensures 170 <= pos <= 255 ==> c.0 == 0
  {
    if pos < 0 || pos > 255 then Black
    else if pos < 85 then (pos * 3, 255 - pos * 3, 0)
    else if pos < 170 then
      var p := pos - 85;
      (255 - p * 3, 0, p * 3)
    else
      var p := pos - 170;
      (0, p * 3, 255 - p * 3)
  }

  /** The hue position a wheel colour came from, read back from whichever channel
      grows linearly in its segment. */
  function WheelPos(c: Rgb): int
  {
    if c.2 == 0 && c.1 > 0 then c.0 / 3
    else if c.1 == 0 then 85 + c.2 / 3
    else 170 + c.1 / 3
  }

  /** Every position but the last is recovered from its colour, so the wheel never
      repeats a colour inside [0, 255). */
  lemma WheelRoundTrip(pos: int)
    requires 0 <= pos < 255
    ensures WheelPos(Wheel(pos)) == pos
  {
  }

  /** The last position closes the circle: it shows the colour of position 0. */
  lemma WheelClosesCircle()
    ensures Wheel(255) == Wheel(0)
    ensures WheelPos(Wheel(255)) == 0
  {
  }

  /** Neighbouring positions, across segment boundaries too, differ by at most 3 per channel. */
  lemma WheelContinuous(pos: int)
    requires 0 <= pos < 255
    ensures -3 <= Wheel(pos + 1).0 - Wheel(pos).0 <= 3
    ensures -3 <= Wheel(pos + 1).1 - Wheel(pos).1 <= 3
    ensures -3 <= Wheel(pos + 1).2 - Wheel(pos).2 <= 3
  {
  }
}
