/** Frame composition: the ring from bearing data and confidence, the compass-rose
    overlay, the power scale, and blanking. */
module Render {
  import opened Config
  import opened Numeric
  import opened Color
  import opened RingMap

  /** A pixel buffer the transport shows: ring pixels first, then the scale. */
  predicate IsFrame(pixels: seq<Rgb>)
  {
    |pixels| == TotalPixels
  }

  /** Wheel position for a confidence: the confidence range is mapped linearly, and
      clamped, onto positions 255 (weak) down to 160 (strong), then truncated. */
  function ColourPosition(confidence: real): (pos: int)
    ensures ConfidenceMaxCol <= pos <= ConfidenceMinCol
    ensures confidence <= ConfidenceMin ==> pos == ConfidenceMinCol
    ensures ConfidenceMax <= confidence ==> pos == ConfidenceMaxCol
  {
    Trunc(Interp(confidence, ConfidenceMin, ConfidenceMax,
                 ConfidenceMinCol as real, ConfidenceMaxCol as real))
  }

  /** A higher confidence never moves the colour back toward the weak end of the wheel. */
  lemma ColourPositionMonotone(c: real, c': real)
    requires c <= c'
    ensures ColourPosition(c') <= ColourPosition(c)
  {
    InterpMonotone(c, c', ConfidenceMin, ConfidenceMax,
                   ConfidenceMinCol as real, ConfidenceMaxCol as real);
    TruncMonotone(Interp(c', ConfidenceMin, ConfidenceMax, ConfidenceMinCol as real, ConfidenceMaxCol as real),
                  Interp(c, ConfidenceMin, ConfidenceMax, ConfidenceMinCol as real, ConfidenceMaxCol as real));
  }

  /** The data colour for a confidence. Its position is always inside the wheel, so it is
      never the wheel's out-of-range black; it lies in the green-blue-red half of the wheel. */
  function ConfidenceColour(confidence: real): (c: Rgb)
    ensures IsColour(c) && c.0 + c.1 + c.2 == 255
    ensures c != Black
    ensures c.0 == 0 || c.1 == 0
  {
    Wheel(ColourPosition(confidence))
  }

  /** The compass-rose marker: the weakest-confidence colour dimmed to `RoseBrightness`,
      each channel truncated. */
  function RosePixel(): (p: Rgb)
    ensures p == (0, 10, 0)
  {
    var base := Wheel(ConfidenceMinCol);
    (Trunc(base.0 as real * RoseBrightness), Trunc(base.1 as real * RoseBrightness),
     Trunc(base.2 as real * RoseBrightness))
  }

  /** Scaling one channel by an intensity in [0, 1] and rounding stays in [0, channel]. */
  lemma ScaledChannelWithin(c: int, v: real)
    requires IsChannel(c) && 0.0 <= v <= 1.0
    ensures 0 <= RoundHalfEven(c as real * v) <= c
    ensures v == 0.0 ==> RoundHalfEven(c as real * v) == 0
    ensures v == 1.0 ==> RoundHalfEven(c as real * v) == c
  {
    if v == 0.0 {
      assert c as real * v == 0.0;
      RoundHalfEvenUnique(0.0, 0);
    } else if v == 1.0 {
      assert c as real * v == c as real;
      RoundHalfEvenUnique(c as real, c);
    }
    MulMonotone(0.0, v, c as real);
    MulMonotone(v, 1.0, c as real);
    assert 0.0 <= c as real * v <= c as real;
    RoundWithin(c as real * v, c);
  }

  /** A colour scaled by a bin intensity, each channel rounded half to even. */
  function Scaled(colour: Rgb, v: real): (p: Rgb)
    requires IsColour(colour) && 0.0 <= v <= 1.0
    ensures 0 <= p.0 <= colour.0 && 0 <= p.1 <= colour.1 && 0 <= p.2 <= colour.2
    ensures v == 1.0 ==> p == colour
    ensures v == 0.0 ==> p == Black
  {
    var (r, g, b) := colour;
    ScaledChannelWithin(r, v);
    ScaledChannelWithin(g, v);
    ScaledChannelWithin(b, v);
    (RoundHalfEven(r as real * v), RoundHalfEven(g as real * v), RoundHalfEven(b as real * v))
  }

  /** Ring indices that carry a compass-rose marker: every (RingPixels / RosePoints)-th one. */
  predicate IsRosePoint(i: int)
  {
    i % (RingPixels / RosePoints) == 0
  }

  /** The rose points of the ring are exactly north, east, south and west. */
  lemma RosePointsAreCompassPoints(i: int)
    requires 0 <= i < RingPixels
    ensures IsRosePoint(i) <==> (i == 0 || i == 6 || i == 12 || i == 18)
  {
  }

  /** One ring pixel: a proper colour; at a rose point a bin too weak to show is replaced by
      the marker, and any other bin shows as the colour scaled by its intensity. */
  function RingPixel(colour: Rgb, v: real, i: int): (p: Rgb)
    requires IsColour(colour) && 0.0 <= v <= 1.0
    ensures IsColour(p)
    ensures RoseBrightness <= v ==> p == Scaled(colour, v)
    ensures v == 0.0 && !IsRosePoint(i) ==> p == Black
    ensures v == 0.0 && IsRosePoint(i) ==> p == (0, 10, 0)
  {
    if IsRosePoint(i) && v < RoseBrightness then RosePixel() else Scaled(colour, v)
  }

  /** Draw the ring: every ring pixel shows the confidence colour scaled by its rescaled bin,
      except at a rose point whose bin is weaker than the marker, which shows the marker.
      A bin at least as bright as the marker is never hidden, and the scale is untouched. */
  function DisplayRingData(pixels: seq<Rgb>, data: seq<real>, confidence: real): (out: seq<Rgb>)
    requires IsFrame(pixels) && RingPixels <= |data|
    ensures IsFrame(out)
    ensures out[RingPixels..] == pixels[RingPixels..]
    ensures forall i :: 0 <= i < RingPixels ==> IsColour(out[i])
    ensures forall i :: 0 <= i < RingPixels && (RoseBrightness <= MapRingData(data)[i] || !IsRosePoint(i)) ==>
      out[i] == Scaled(ConfidenceColour(confidence), MapRingData(data)[i])
    ensures forall i :: 0 <= i < RingPixels && IsRosePoint(i) && MapRingData(data)[i] < RoseBrightness ==>
      out[i] == RosePixel()
  {
    var colour := ConfidenceColour(confidence);
    var v := MapRingData(data);
    seq(RingPixels, i requires 0 <= i < RingPixels => RingPixel(colour, v[i], i)) + pixels[RingPixels..]
  }

  /** Power needed to light logical scale pixel x: `numpy.linspace(PowerMin, PowerMax, ScalePixels)[x]`. */
  function Threshold(x: nat): (t: real)
    requires x < ScalePixels
    ensures PowerMin <= t <= PowerMax
    ensures x == 0 ==> t == PowerMin
    ensures x == ScalePixels - 1 ==> t == PowerMax
  {
    LinspaceAscending(PowerMin, PowerMax, ScalePixels, x, x);
    Linspace(PowerMin, PowerMax, ScalePixels, x)
  }

  /** Physical index of logical scale pixel x: counted back from the last pixel in HUD mode,
      forward from the end of the ring otherwise. */
  function ScaleIndex(hud: bool, x: int): (j: int)
    ensures 0 <= x < ScalePixels ==> RingPixels <= j < TotalPixels
    ensures hud ==> ScaleIndex(false, x) + j == RingPixels + TotalPixels - 1
  {
    if hud then TotalPixels - 1 - x else RingPixels + x
  }

  /** Logical scale pixel shown at physical index j. */
  function ScaleSlot(hud: bool, j: int): int
  {
    if hud then TotalPixels - 1 - j else j - RingPixels
  }

  /** In both orientations the scale indexing is a bijection from the logical scale pixels
      onto the physical indices after the ring, so it never touches a ring pixel. */
  lemma ScaleIndexBijective(hud: bool)
    ensures forall x :: 0 <= x < ScalePixels ==>
      RingPixels <= ScaleIndex(hud, x) < TotalPixels && ScaleSlot(hud, ScaleIndex(hud, x)) == x
    ensures forall j :: RingPixels <= j < TotalPixels ==>
      0 <= ScaleSlot(hud, j) < ScalePixels && ScaleIndex(hud, ScaleSlot(hud, j)) == j
  {
  }

  /** Draw the power scale: logical pixel x is lit in the power colour exactly when the power
      reaches its threshold and is black otherwise; lit pixels form a prefix; the ring is
      untouched; below `PowerMin` nothing is lit and from `PowerMax` on everything is. */
  method DisplayPowerValue(pixels: seq<Rgb>, power: real, hud: bool) returns (out: seq<Rgb>)
    requires IsFrame(pixels)
    ensures IsFrame(out)
    ensures out[..RingPixels] == pixels[..RingPixels]
    ensures forall x :: 0 <= x < ScalePixels ==>
      out[ScaleIndex(hud, x)] == (if Threshold(x) <= power then Wheel(PowerCol) else Black)
    ensures forall x, y :: 0 <= x <= y < ScalePixels && out[ScaleIndex(hud, y)] != Black ==>
      out[ScaleIndex(hud, x)] != Black
    ensures power < PowerMin ==> forall j :: RingPixels <= j < TotalPixels ==> out[j] == Black
    ensures PowerMax <= power ==> forall j :: RingPixels <= j < TotalPixels ==> out[j] == Wheel(PowerCol)
  {
    out := pixels;
    var x := 0;
    while x < ScalePixels
      invariant 0 <= x <= ScalePixels
      invariant IsFrame(out)
      invariant out[..RingPixels] == pixels[..RingPixels]
      invariant forall y :: 0 <= y < x ==>
        out[ScaleIndex(hud, y)] == (if Threshold(y) <= power then Wheel(PowerCol) else Black)
    {
      var pxl := ScaleIndex(hud, x);
      if power >= Threshold(x) {
        out := out[pxl := Wheel(PowerCol)];
      } else {
        out := out[pxl := Black];
      }
      x := x + 1;
    }
    forall x, y | 0 <= x <= y < ScalePixels
      ensures Threshold(x) <= Threshold(y)
      ensures PowerMin <= Threshold(x) <= PowerMax
    {
      LinspaceAscending(PowerMin, PowerMax, ScalePixels, x, y);
    }
    ScaleIndexBijective(hud);
    forall j | RingPixels <= j < TotalPixels
      ensures out[j] == (if Threshold(ScaleSlot(hud, j)) <= power then Wheel(PowerCol) else Black)
    {
      assert ScaleIndex(hud, ScaleSlot(hud, j)) == j;
    }
  }

  /** Blank the ring, as for a missing heading: ring pixels black, scale untouched. */
  function BlankRing(pixels: seq<Rgb>): (out: seq<Rgb>)
    requires IsFrame(pixels)
    ensures IsFrame(out)
    ensures forall i :: 0 <= i < RingPixels ==> out[i] == Black
    ensures out[RingPixels..] == pixels[RingPixels..]
  {
    seq(RingPixels, _ => Black) + pixels[RingPixels..]
  }

  /** The LED strip as the transport holds it: the pixel buffer and its global brightness. */
  datatype Strip = Strip(pixels: seq<Rgb>, brightness: real)

  /** The end state of the shutdown fade. `setting` is the brightness configured at start-up
      (0.1 unless the command line overrides it). With a setting of zero nothing happens;
      otherwise every pixel is black and the strip's brightness is set back to the setting.
      The intermediate brightness ramp is not part of the model. */
  function FadeToBlack(s: Strip, setting: real): (r: Strip)
    ensures setting == 0.0 ==> r == s
    ensures setting != 0.0 ==> r.brightness == setting && |r.pixels| == |s.pixels|
    ensures setting != 0.0 ==> forall i :: 0 <= i < |r.pixels| ==> r.pixels[i] == Black
  {
    if setting == 0.0 then s
    else Strip(seq(|s.pixels|, _ => Black), setting)
  }
}
