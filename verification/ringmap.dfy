/** Decimation of a 0-360 degree sample array onto the ring, and the contrast-clipped
    rescale of the ring bins to [0, 1]. */
module RingMap {
  import opened Config
  import opened Numeric

  /** Samples per ring bin: the integer quotient of the array length by the ring size. */
  function Divisions(n: nat): (d: nat)
    ensures RingPixels * d <= n < RingPixels * (d + 1)
  {
    n / RingPixels
  }

  /** Bin i's run of samples lies inside the array, and no run is empty. */
  lemma BinFits(n: nat, i: nat)
    requires RingPixels <= n && i < RingPixels
    ensures 1 <= Divisions(n)
    ensures i * Divisions(n) + Divisions(n) <= RingPixels * Divisions(n) <= n
  {
    var d := Divisions(n);
    assert (i + 1) * d <= RingPixels * d;
  }

  /** The samples averaged into ring bin i: the i-th run of `Divisions` samples. */
  function BinSlice(data: seq<real>, i: nat): (s: seq<real>)
    requires RingPixels <= |data| && i < RingPixels
    ensures |s| == Divisions(|data|) >= 1
  {
    var d := Divisions(|data|);
    BinFits(|data|, i);
    data[i * d .. i * d + d]
  }

  /** Reference decimation: one bin per ring pixel, ring bin i being the mean of its run
      of samples. */
  function Bins(data: seq<real>): (bins: seq<real>)
    requires RingPixels <= |data|
    ensures |bins| == RingPixels
  {
    seq(RingPixels, i requires 0 <= i < RingPixels => Mean(BinSlice(data, i)))
  }

  /** Each ring bin lies between the smallest and the largest sample of its run. */
  lemma BinsWithinRuns(data: seq<real>)
    requires RingPixels <= |data|
    ensures forall i :: 0 <= i < RingPixels ==>
      SeqMin(BinSlice(data, i)) <= Bins(data)[i] <= SeqMax(BinSlice(data, i))
  {
    forall i | 0 <= i < RingPixels
      ensures SeqMin(BinSlice(data, i)) <= Bins(data)[i] <= SeqMax(BinSlice(data, i))
    {
      MeanWithin(BinSlice(data, i));
    }
  }

  /** Ring bin i of the reference decimation is the mean of samples [i·d, i·d + d). */
  lemma BinsAreRunMeans(data: seq<real>)
    requires RingPixels <= |data|
    ensures forall i :: 0 <= i < RingPixels ==>
      i * Divisions(|data|) + Divisions(|data|) <= |data| &&
      Bins(data)[i] == Mean(data[i * Divisions(|data|) .. i * Divisions(|data|) + Divisions(|data|)])
  {
    forall i | 0 <= i < RingPixels
      ensures i * Divisions(|data|) + Divisions(|data|) <= |data|
    {
      BinFits(|data|, i);
    }
  }

  /** The decimation loop: a running start index that advances by one run per bin. */
  method Decimate(data: seq<real>) returns (output: seq<real>)
    requires RingPixels <= |data|
    ensures |output| == RingPixels
    ensures forall i :: 0 <= i < RingPixels ==>
      i * Divisions(|data|) + Divisions(|data|) <= |data| &&
      output[i] == Mean(data[i * Divisions(|data|) .. i * Divisions(|data|) + Divisions(|data|)])
    ensures output == Bins(data)
  {
    var d := Divisions(|data|);
    output := seq(RingPixels, _ => 0.0);
    var idx := 0;
    var i := 0;
    while i < RingPixels
      invariant 0 <= i <= RingPixels
      invariant |output| == RingPixels
      invariant idx == i * d
      invariant forall k :: 0 <= k < i ==> output[k] == Bins(data)[k]
    {
      BinFits(|data|, i);
      assert data[idx .. idx + d] == BinSlice(data, i);
      output := output[i := Mean(data[idx .. idx + d])];
      idx := idx + d;
      i := i + 1;
    }
    BinsAreRunMeans(data);
  }

  /** Samples past the last whole run (the remainder of the length by the ring size) never
      reach the ring: the bins are those of the array cut to `RingPixels` whole runs. */
  lemma TrailingSamplesIgnored(data: seq<real>)
    requires RingPixels <= |data|
    ensures RingPixels <= RingPixels * Divisions(|data|) <= |data|
    ensures Bins(data) == Bins(data[.. RingPixels * Divisions(|data|)])
  {
    var d := Divisions(|data|);
    BinFits(|data|, 0);
    var cut := data[.. RingPixels * d];
    assert Divisions(|cut|) == d;
    forall i | 0 <= i < RingPixels
      ensures BinSlice(data, i) == BinSlice(cut, i)
    {
      BinFits(|data|, i);
    }
  }

  /** Bins that are not all equal, so the rescale has a proper range. */
  predicate NonFlat(bins: seq<real>)
  {
    |bins| > 0 && SeqMin(bins) < SeqMax(bins)
  }

  /** Lower edge of the rescale: the minimum raised by `ClipValue` of the range. It never
      exceeds the maximum, and equals it exactly when the bins are flat. */
  function ClipFloor(bins: seq<real>): (lo: real)
    requires |bins| > 0
    ensures SeqMin(bins) <= lo <= SeqMax(bins)
    ensures lo == SeqMax(bins) <==> !NonFlat(bins)
  {
    var r := SeqMax(bins) - SeqMin(bins);
    MulMonotone(0.0, ClipValue, r);
    MulMonotone(ClipValue, 1.0, r);
    assert NonFlat(bins) ==> ClipValue * r < r;
    SeqMin(bins) + ClipValue * r
  }

  /** Linear rescale of the bins onto [0, 1] between the clip floor and the maximum. A bin
      is at full intensity exactly when it is a maximum; when the bins are not flat, it is
      dark exactly when it is at or below the clip floor. Flat bins all sit at the maximum,
      so they all come out at full intensity. */
  function Rescale(bins: seq<real>): (out: seq<real>)
    requires |bins| > 0
    ensures |out| == |bins|
    ensures forall i :: 0 <= i < |bins| ==> 0.0 <= out[i] <= 1.0
    ensures forall i :: 0 <= i < |bins| ==> (out[i] == 1.0 <==> bins[i] == SeqMax(bins))
    ensures NonFlat(bins) ==>
      forall i :: 0 <= i < |bins| ==> (out[i] == 0.0 <==> bins[i] <= ClipFloor(bins))
  {
    var hi := SeqMax(bins);
    var lo := ClipFloor(bins);
    seq(|bins|, i requires 0 <= i < |bins| => Interp(bins[i], lo, hi, 0.0, 1.0))
  }

  /** The rescale keeps the order of the bins. */
  lemma RescaleMonotone(bins: seq<real>, i: int, j: int)
    requires 0 <= i < |bins| && 0 <= j < |bins|
    requires bins[i] <= bins[j]
    ensures Rescale(bins)[i] <= Rescale(bins)[j]
  {
    InterpMonotone(bins[i], bins[j], ClipFloor(bins), SeqMax(bins), 0.0, 1.0);
  }

  /** The ring mapping: decimate, then rescale. Every ring value is an intensity in [0, 1];
      the brightest bins map to 1, and, unless all bins are equal, the bins at or below the
      clip floor map to 0. Equal bins all map to 1. */
  function MapRingData(data: seq<real>): (out: seq<real>)
    requires RingPixels <= |data|
    ensures |out| == RingPixels
    ensures forall i :: 0 <= i < RingPixels ==> 0.0 <= out[i] <= 1.0
    ensures forall i :: 0 <= i < RingPixels ==> (out[i] == 1.0 <==> Bins(data)[i] == SeqMax(Bins(data)))
    ensures NonFlat(Bins(data)) ==>
      forall i :: 0 <= i < RingPixels ==> (out[i] == 0.0 <==> Bins(data)[i] <= ClipFloor(Bins(data)))
    ensures !NonFlat(Bins(data)) ==> forall i :: 0 <= i < RingPixels ==> out[i] == 1.0
  {
    var bins := Bins(data);
    assert !NonFlat(bins) ==> forall i :: 0 <= i < RingPixels ==> bins[i] == SeqMax(bins);
    Rescale(bins)
  }
}
