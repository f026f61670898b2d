/** The data transforms the message handlers apply before drawing: the kerberos-sdr
    reflection, the HUD half flip, the heading spike and the speed-to-power scale. */
module Orient {
  import opened Config
  import opened Numeric
  import opened PySlice
  import opened Outcome

  /** The HUD flip as the handlers write it: `d[n//2-1::-1] + d[n-1:n//2-1:-1]`. */
  function HudFlip<T>(d: seq<T>): (r: seq<T>)
    ensures |r| == |d|
    ensures forall i :: 0 <= i < |d| / 2 ==> r[i] == d[|d| / 2 - 1 - i]
  {
    var a := SliceDownToFront(d, |d| / 2 - 1);
    var b := SliceDown(d, |d| - 1, |d| / 2 - 1);
    assert |a| + |b| == |d| && |d| / 2 <= |a| by {
      if 2 <= |d| {
        assert a == Reverse(d[.. |d| / 2]);
        assert b == Reverse(d[|d| / 2 ..]);
      } else if |d| == 1 {
        assert |a| == 1 && b == [];
      }
    }
    a + b
  }

  /** For every length the flip reverses each half in place, including length 1, where
      the bound -1 wraps round to the last index, and length 0, where it clamps to -1. */
  lemma HudFlipHalves<T>(d: seq<T>)
    ensures HudFlip(d) == Reverse(d[.. |d| / 2]) + Reverse(d[|d| / 2 ..])
  {
    var n := |d|;
    if n == 0 {
      assert HudFlip(d) == [];
    } else if n == 1 {
      assert SliceDownToFront(d, -1) == [d[0]];
      assert SliceDown(d, 0, -1) == [];
    } else {
      var a := SliceDownToFront(d, n / 2 - 1);
      var b := SliceDown(d, n - 1, n / 2 - 1);
      assert a == Reverse(d[.. n / 2]);
      assert b == Reverse(d[n / 2 ..]);
    }
  }

  /** The flip keeps the length and undoes itself. */
  lemma HudFlipInvolution<T>(d: seq<T>)
    ensures |HudFlip(d)| == |d|
    ensures HudFlip(HudFlip(d)) == d
  {
    var h := |d| / 2;
    HudFlipHalves(d);
    var f := HudFlip(d);
    assert f[.. h] == Reverse(d[.. h]);
    assert f[h ..] == Reverse(d[h ..]);
    HudFlipHalves(f);
    ReverseInvolution(d[.. h]);
    ReverseInvolution(d[h ..]);
    assert d == d[.. h] + d[h ..];
  }

  /** Remainders of values in [0, 2n) by n. */
  lemma ModOnce(a: int, n: int)
    requires 0 < n && 0 <= a < 2 * n
    ensures a < n ==> a % n == a
    ensures n <= a ==> a % n == a - n
  {
    if n <= a {
      assert a == 1 * n + (a - n);
    }
  }

  /** Reversing each half of a reversed even-length array, entry by entry. */
  lemma HalvesOfReverse<T>(s: seq<T>, j: int)
    requires |s| % 2 == 0 && 0 <= j < |s|
    ensures var r := Reverse(s);
      (Reverse(r[.. |s| / 2]) + Reverse(r[|s| / 2 ..]))[j] == s[(j + |s| / 2) % |s|]
  {
    var n := |s|;
    var h := n / 2;
    assert n - h == h;
    var r := Reverse(s);
    var lo, hi := Reverse(r[.. h]), Reverse(r[h ..]);
    assert |lo| == h;
    ModOnce(j + h, n);
    if j < h {
      var i := h - 1 - j;
      assert (lo + hi)[j] == lo[j] == r[i];
      assert n - 1 - i == j + h;
    } else {
      var i := h + (n - 1 - j);
      assert (lo + hi)[j] == hi[j - h] == r[i];
      assert n - 1 - i == j - h;
    }
  }

  /** Reversing and then flipping the halves, stated on the reversal itself. */
  lemma FlipOfReverse<T>(s: seq<T>, j: int)
    requires |s| % 2 == 0 && 0 <= j < |s|
    ensures |HudFlip(Reverse(s))| == |s|
    ensures HudFlip(Reverse(s))[j] == s[(j + |s| / 2) % |s|]
  {
    var r := Reverse(s);
    HudFlipHalves(r);
    HalvesOfReverse(s, j);
  }

  /** On an even-length array, Python's reversal followed by the flip of the halves is a
      rotation by half the length. */
  lemma FlipOfReversalRotates<T>(s: seq<T>)
    requires |s| % 2 == 0
    ensures |HudFlip(Reversed(s))| == |s|
    ensures forall j :: 0 <= j < |s| ==> HudFlip(Reversed(s))[j] == s[(j + |s| / 2) % |s|]
  {
    ReversedIsReverse(s);
    forall j | 0 <= j < |s|
      ensures HudFlip(Reverse(s))[j] == s[(j + |s| / 2) % |s|]
    {
      FlipOfReverse(s, j);
    }
    HudFlipInvolution(Reverse(s));
  }

  /** A decoded bearing and sample array after orientation. */
  datatype Oriented = Oriented(bearing: real, doa: seq<real>)

  /** Samples from a kerberos-sdr are reflected across the north-south axis (bearing
      360 - b, array reversed); in HUD mode each half of the array is then reversed. */
  function OrientBearing(bearing: real, doa: seq<real>, kerberos: bool, hud: bool): (o: Oriented)
    ensures o.bearing == (if kerberos then 360.0 - bearing else bearing)
    ensures |o.doa| == |doa|
    ensures !hud ==> o.doa == (if kerberos then Reverse(doa) else doa)
    ensures hud ==> var r := (if kerberos then Reverse(doa) else doa);
      o.doa == Reverse(r[.. |r| / 2]) + Reverse(r[|r| / 2 ..])
  {
    var b := if kerberos then 360.0 - bearing else bearing;
    var d := if kerberos then Reversed(doa) else doa;
    ReversedIsReverse(doa);
    HudFlipHalves(d);
    Oriented(b, if hud then HudFlip(d) else d)
  }

  /** Entries in the heading array: one per degree. */
  const HeadingBins: nat := 360

  /** Value written at the heading's degree. */
  const SpikeLevel: real := 0.99

  /** Python list indexing with `int(heading)`: a negative index counts from the end, and an
      index outside [-n, n) raises IndexError. */
  function SpikeIndex(heading: real): (k: Option<nat>)
    ensures k.Some? <==> -(HeadingBins as int) <= Trunc(heading) < HeadingBins
    ensures k.Some? ==> k.value < HeadingBins && k.value % HeadingBins == Trunc(heading) % HeadingBins
  {
    var t := Trunc(heading);
    if 0 <= t < HeadingBins then Some(t)
    else if -(HeadingBins as int) <= t < 0 then Some(t + HeadingBins)
    else None
  }

  /** The heading array before orientation: zero everywhere but `SpikeLevel` at index k. */
  function Spike(k: nat): (s: seq<real>)
    requires k < HeadingBins
    ensures |s| == HeadingBins && s[k] == SpikeLevel
    ensures forall j :: 0 <= j < |s| && s[j] != 0.0 ==> j == k
  {
    seq(HeadingBins, j requires 0 <= j < HeadingBins => if j == k then SpikeLevel else 0.0)
  }

  /** The heading array as drawn: reversed, then half-flipped unconditionally. */
  function HeadingData(k: nat): (d: seq<real>)
    requires k < HeadingBins
    ensures |d| == HeadingBins
  {
    HudFlip(Reversed(Spike(k)))
  }

  /** After the reversal and the flip, the one spike sits half a turn from the heading. */
  lemma HeadingDataRotated(k: nat)
    requires k < HeadingBins
    ensures |HeadingData(k)| == HeadingBins
    ensures forall j :: 0 <= j < HeadingBins ==>
      HeadingData(k)[j] == (if j == (k + 180) % HeadingBins then SpikeLevel else 0.0)
  {
    FlipOfReversalRotates(Spike(k));
    forall j | 0 <= j < HeadingBins
      ensures HeadingData(k)[j] == (if j == (k + 180) % HeadingBins then SpikeLevel else 0.0)
    {
      ModOnce(j + 180, HeadingBins);
      ModOnce(k + 180, HeadingBins);
    }
  }

  /** A list index k reached from a Python index t (t itself, or t + 360 when negative)
      lands on the same degree half a turn on. */
  lemma WrappedIndexShift(t: int, k: int)
    requires k == t || k == t + HeadingBins
    ensures (k + 180) % HeadingBins == (t + 180) % HeadingBins
  {
    if k != t {
      assert (t + 180 + HeadingBins) % HeadingBins == (t + 180) % HeadingBins;
    }
  }

  /** The drawn heading array carries its one spike at (int(heading) + 180) mod 360, where
      Python's index wrap-around for a negative integer part is already accounted for. */
  lemma SpikeLandsOpposite(heading: real)
    requires SpikeIndex(heading).Some?
    ensures var data := HeadingData(SpikeIndex(heading).value);
      && |data| == HeadingBins
      && forall j :: 0 <= j < HeadingBins ==>
           data[j] == (if j == (Trunc(heading) + 180) % HeadingBins then SpikeLevel else 0.0)
  {
    var k := SpikeIndex(heading).value;
    HeadingDataRotated(k);
    WrappedIndexShift(Trunc(heading), k);
  }

  /** Speed in km/h to a scale power: [-1, 80] mapped linearly onto [PowerMin, PowerMax],
      clamped outside. */
  function SpeedToPower(speed: real): (p: real)
    ensures PowerMin <= p <= PowerMax
    ensures speed <= -1.0 ==> p == PowerMin
    ensures 80.0 <= speed ==> p == PowerMax
  {
    Interp(speed, -1.0, 80.0, PowerMin, PowerMax)
  }

  /** A faster speed never shows a lower power. */
  lemma SpeedToPowerMonotone(s: real, s': real)
    requires s <= s'
    ensures SpeedToPower(s) <= SpeedToPower(s')
  {
    InterpMonotone(s, s', -1.0, 80.0, PowerMin, PowerMax);
  }
}
