/** The two message handlers of the display: a bearing message draws the ring from its
    sample array and the scale from its power; a GPS message draws a heading marker and
    shows the speed on the scale. */
module Handlers {
  import opened Config
  import opened Numeric
  import opened Color
  import opened RingMap
  import opened Render
  import opened Orient
  import opened Outcome
  import opened Json
  import opened PySlice

  /** A numeric field of a message: KeyError when absent. */
  function NumField(fields: map<string, Value>, key: string): (r: Result<real>)
    ensures key !in fields ==> r == Raised(MissingKey(key))
    ensures r.Ok? <==> key in fields && fields[key].Num?
    ensures r.Ok? ==> fields[key] == Num(r.value)
  {
    if key !in fields then Raised(MissingKey(key))
    else match fields[key]
      case Num(x) => Ok(x)
      case _ => Raised(IllTyped(key))
  }

  predicate AllNumbers(items: seq<Value>)
  {
    forall i :: 0 <= i < |items| ==> items[i].Num?
  }

  /** An array-of-numbers field of a message: KeyError when absent. */
  function NumbersField(fields: map<string, Value>, key: string): (r: Result<seq<real>>)
    ensures key !in fields ==> r == Raised(MissingKey(key))
    ensures r.Ok? <==> key in fields && fields[key].Arr? && AllNumbers(fields[key].items)
    ensures r.Ok? ==> |r.value| == |fields[key].items|
    ensures r.Ok? ==> forall i :: 0 <= i < |r.value| ==> fields[key].items[i] == Num(r.value[i])
  {
    if key !in fields then Raised(MissingKey(key))
    else match fields[key]
      case Arr(items) =>
        if AllNumbers(items) then Ok(seq(|items|, i requires 0 <= i < |items| => items[i].n))
        else Raised(IllTyped(key))
      case _ => Raised(IllTyped(key))
  }

  /** The fields of a bearing message the display uses. */
  datatype BearingMsg = BearingMsg(confidence: real, bearing: real, power: real, doa: seq<real>, kerberos: bool)

  /** Read a bearing message: confidence, bearing, power and raw_doa are required and read in
      that order, so the first one missing is the one reported; the source is optional and
      only "kerberos-sdr" matters. */
  function DecodeBearing(fields: map<string, Value>): (r: Result<BearingMsg>)
    ensures "confidence" !in fields ==> r == Raised(MissingKey("confidence"))
    ensures r.Ok? <==> (NumField(fields, "confidence").Ok? && NumField(fields, "bearing").Ok? &&
                        NumField(fields, "power").Ok? && NumbersField(fields, "raw_doa").Ok?)
    ensures r.Ok? ==> (r.value.kerberos <==> "source" in fields && fields["source"] == Str("kerberos-sdr"))
    ensures r.Ok? ==> fields["confidence"] == Num(r.value.confidence) && fields["power"] == Num(r.value.power)
    ensures r.Ok? ==> fields["bearing"] == Num(r.value.bearing) && NumbersField(fields, "raw_doa") == Ok(r.value.doa)
  {
    var confidence :- NumField(fields, "confidence");
    var bearing :- NumField(fields, "bearing");
    var power :- NumField(fields, "power");
    var doa :- NumbersField(fields, "raw_doa");
    var kerberos := "source" in fields && fields["source"] == Str("kerberos-sdr");
    Ok(BearingMsg(confidence, bearing, power, doa, kerberos))
  }

  /** The sample array a bearing message draws, after orientation. */
  function DrawnSamples(m: BearingMsg, hud: bool): seq<real>
  {
    OrientBearing(m.bearing, m.doa, m.kerberos, hud).doa
  }

  /** The display draws the scale over a frame: the ring as it was, each logical scale pixel
      lit exactly when the power reaches its threshold. */
  predicate PowerShown(out: seq<Rgb>, before: seq<Rgb>, power: real, hud: bool)
    requires IsFrame(before)
  {
    && IsFrame(out)
    && out[..RingPixels] == before[..RingPixels]
    && forall x :: 0 <= x < ScalePixels ==>
         out[ScaleIndex(hud, x)] == (if Threshold(x) <= power then Wheel(PowerCol) else Black)
  }

  /** Handle a bearing message. A missing field, or fewer samples than ring pixels (whose
      bin means are NaN, so rounding the first pixel raises), raises before anything is
      drawn. Otherwise the ring shows the oriented samples at the message's confidence and
      the scale shows its power. */
  method HandleBearing(pixels: seq<Rgb>, fields: map<string, Value>, hud: bool) returns (r: Result<seq<Rgb>>)
    requires IsFrame(pixels)
    ensures r.Raised? <==> (DecodeBearing(fields).Raised? ||
                            |DecodeBearing(fields).value.doa| < RingPixels)
    ensures DecodeBearing(fields).Raised? ==> r == Raised(DecodeBearing(fields).fault)
    ensures r.Ok? ==>
      var m := DecodeBearing(fields).value;
      && RingPixels <= |DrawnSamples(m, hud)|
      && PowerShown(r.value, DisplayRingData(pixels, DrawnSamples(m, hud), m.confidence), m.power, hud)
  {
    var decoded := DecodeBearing(fields);
    if decoded.Raised? {
      return Raised(decoded.fault);
    }
    var m := decoded.value;
    var oriented := OrientBearing(m.bearing, m.doa, m.kerberos, hud);
    if |oriented.doa| < RingPixels {
      return Raised(EmptyBins);
    }
    var ring := DisplayRingData(pixels, oriented.doa, m.confidence);
    var out := DisplayPowerValue(ring, m.power, hud);
    return Ok(out);
  }

  /** The fields of a GPS message the display uses; a null or absent heading is None. */
  datatype GpsMsg = GpsMsg(speed: real, heading: Option<real>)

  /** Read a GPS message: speed is required, heading optional. */
  function DecodeGps(fields: map<string, Value>): (r: Result<GpsMsg>)
    ensures "speed" !in fields ==> r == Raised(MissingKey("speed"))
    ensures r.Ok? <==> (NumField(fields, "speed").Ok? &&
                        ("heading" !in fields || fields["heading"].Null? || fields["heading"].Num?))
    ensures r.Ok? ==> fields["speed"] == Num(r.value.speed)
    ensures r.Ok? ==> (r.value.heading.Some? <==> "heading" in fields && fields["heading"].Num?)
    ensures r.Ok? && r.value.heading.Some? ==> fields["heading"] == Num(r.value.heading.value)
  {
    var speed :- NumField(fields, "speed");
    if "heading" !in fields then Ok(GpsMsg(speed, None))
    else match fields["heading"]
      case Null => Ok(GpsMsg(speed, None))
      case Num(h) => Ok(GpsMsg(speed, Some(h)))
      case _ => Raised(IllTyped("heading"))
  }

  /** Ring bin that holds degree j of a 360-entry heading array. */
  function HeadingBin(j: nat): nat
  {
    j / (HeadingBins / RingPixels)
  }

  /** Heading data decimates to a single non-zero bin: the one holding the rotated spike. */
  lemma HeadingDataBins(k: nat, i: nat)
    requires k < HeadingBins && i < RingPixels
    ensures |HeadingData(k)| == HeadingBins
    ensures Bins(HeadingData(k))[i] ==
      (if i == HeadingBin((k + 180) % HeadingBins) then SpikeLevel / 15.0 else 0.0)
  {
    HeadingDataRotated(k);
    var data := HeadingData(k);
    var t := (k + 180) % HeadingBins;
    assert Divisions(|data|) == 15;
    var s := BinSlice(data, i);
    assert s == data[i * 15 .. i * 15 + 15];
    forall j | 0 <= j < |s|
      ensures s[j] == (if j == t - i * 15 then SpikeLevel else 0.0)
    {
      assert s[j] == data[i * 15 + j];
    }
    SumOfIndicator(s, t - i * 15, SpikeLevel);
    assert (0 <= t - i * 15 < 15) <==> i == t / 15;
  }

  /** The compass picture for heading index k: the strongest-confidence colour half a turn
      from k, rose markers at the other compass points, black elsewhere. */
  function CompassPixel(k: nat, i: nat): Rgb
  {
    if i == HeadingBin((k + 180) % HeadingBins) then Wheel(ConfidenceMaxCol)
    else if IsRosePoint(i) then RosePixel()
    else Black
  }

  /** Drawing the heading data of index k at the strongest confidence yields the compass
      picture: exactly one ring pixel, half a turn from k, at full colour; the scale is
      untouched. */
  lemma CompassRing(pixels: seq<Rgb>, k: nat)
    requires IsFrame(pixels) && k < HeadingBins
    ensures NonFlat(Bins(HeadingData(k)))
    ensures var out := DisplayRingData(pixels, HeadingData(k), ConfidenceMax);
      && out[RingPixels..] == pixels[RingPixels..]
      && forall i :: 0 <= i < RingPixels ==> out[i] == CompassPixel(k, i)
  {
    var data := HeadingData(k);
    HeadingDataBins(k, 0);
    var b := HeadingBin((k + 180) % HeadingBins);
    var bins := Bins(data);
    var other := if b == 0 then 1 else 0;
    forall i | 0 <= i < RingPixels
      ensures bins[i] == (if i == b then SpikeLevel / 15.0 else 0.0)
    {
      HeadingDataBins(k, i);
    }
    assert bins[b] == SpikeLevel / 15.0 && bins[other] == 0.0;
    assert SeqMax(bins) == SpikeLevel / 15.0;
    assert SeqMin(bins) == 0.0;
    assert NonFlat(bins);
    var v := MapRingData(data);
    forall i | 0 <= i < RingPixels
      ensures v[i] == (if i == b then 1.0 else 0.0)
    {
    }
    assert ConfidenceColour(ConfidenceMax) == Wheel(ConfidenceMaxCol);
  }

  /** The ring a GPS message draws. A non-zero heading whose integer part indexes outside the
      heading array raises; any other non-zero heading draws the compass picture; a zero or
      missing heading blanks the ring. The scale is untouched either way. */
  function GpsRing(pixels: seq<Rgb>, heading: Option<real>): (r: Result<seq<Rgb>>)
    requires IsFrame(pixels)
    ensures r.Raised? <==> heading.Some? && heading.value != 0.0 && SpikeIndex(heading.value).None?
    ensures r.Ok? ==> IsFrame(r.value) && r.value[RingPixels..] == pixels[RingPixels..]
    ensures r.Ok? && heading.Some? && heading.value != 0.0 ==>
      forall i :: 0 <= i < RingPixels ==> r.value[i] == CompassPixel(SpikeIndex(heading.value).value, i)
    ensures r.Ok? && (heading.None? || heading.value == 0.0) ==>
      forall i :: 0 <= i < RingPixels ==> r.value[i] == Black
  {
    if heading.Some? && heading.value != 0.0 then
      match SpikeIndex(heading.value)
      case None => Raised(IndexOutOfRange)
      case Some(k) =>
        CompassRing(pixels, k);
        Ok(DisplayRingData(pixels, HeadingData(k), ConfidenceMax))
    else
      Ok(BlankRing(pixels))
  }

  /** Handle a GPS message. A missing speed raises before anything is drawn, and so does a
      heading that indexes outside the heading array; otherwise the ring is drawn from the
      heading and the scale shows the speed as a power. */
  method HandleGps(pixels: seq<Rgb>, fields: map<string, Value>, hud: bool) returns (r: Result<seq<Rgb>>)
    requires IsFrame(pixels)
    ensures DecodeGps(fields).Raised? ==> r == Raised(DecodeGps(fields).fault)
    ensures DecodeGps(fields).Ok? ==>
      var m := DecodeGps(fields).value;
      && (r.Raised? <==> GpsRing(pixels, m.heading).Raised?)
      && (r.Ok? ==> PowerShown(r.value, GpsRing(pixels, m.heading).value, SpeedToPower(m.speed), hud))
  {
    var decoded := DecodeGps(fields);
    if decoded.Raised? {
      return Raised(decoded.fault);
    }
    var m := decoded.value;
    var ring := GpsRing(pixels, m.heading);
    if ring.Raised? {
      return Raised(ring.fault);
    }
    var out := DisplayPowerValue(ring.value, SpeedToPower(m.speed), hud);
    return Ok(out);
  }
}
