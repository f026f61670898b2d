# DoA ring display: a Dafny model of the renderer and the packet router

This project models the core of a direction-of-arrival (DoA) display. A ring of 24
addressable LEDs plus an 8-pixel linear power scale is driven by UDP broadcast JSON
messages. The model covers two parts:

* **The renderer** (`doa_ring.py`). It covers the colour wheel, the decimation of a
  0–360° sample array onto the 24 ring bins and their contrast-clipped rescale to [0, 1],
  the ring frame with its confidence colour and compass-rose markers, and the power-scale
  threshold ladder with its HUD mirroring. It also covers the data transforms of the two
  message handlers: the kerberos-sdr reflection, the HUD half flip, the 360-entry heading
  spike and the speed-to-power scale.
* **The packet router** (`udp_listener.py`, `UDPListener.handle_udp_packet`). A pure
  function takes a parse result and the set of registered callbacks, and returns the
  ordered callback invocations.

The pixel buffer is an immutable `seq<Rgb>` of `TotalPixels` = 32 triples. Every drawing
operation returns a new buffer, and presenting the buffer (`pixels.show()`) is a no-op.
numpy's float arithmetic is modelled with exact `real`:

* `np.interp` with two sample points is clamped piecewise-linear interpolation (`Numeric.Interp`).
* `np.linspace(a, b, n)[k]` is `a + k·((b−a)/(n−1))`.
* `int()` truncates toward zero (`Numeric.Trunc`).
* `round()` is round-half-to-even (`Numeric.RoundHalfEven`).

A Python exception in a handler becomes `Outcome.Raised(fault)`, and a raised result
leaves the buffer unchanged. For a missing field, too few samples or an unindexable heading,
the code also raises before its first pixel write. Inputs where the model raises but the code
draws first, or does not raise at all, are listed under "Left out".

Python slicing with a step of −1 is modelled with CPython's index adjustment (module
`PySlice`), so the edge cases where a bound of −1 wraps to the last index are covered.

Modules: `Config` (constants), `Numeric`, `Color`, `PySlice`, `RingMap`, `Render`,
`Orient`, `Outcome`, `Json`, `Listener`, `Handlers`.

Behaviour of the code that the model keeps:

* `display_ring_data` never reads its `compassrose` parameter, so the rose markers are
  always drawn.
* For flat bins the clip floor equals the maximum. `np.interp` returns its right-hand value
  at or beyond its last sample point, so every bin comes out at 1.0.
* `handle_gps` flips the heading array's halves whether or not HUD mode is on.

## Model

| member | source | states |
|---|---|---|
| `Numeric.Trunc` | doa_ring.py:179 | `int()` of a real truncates toward zero: the result is the integer within one unit of x on the side of zero |
| `Numeric.TruncMonotone` | doa_ring.py:164 | truncation preserves the order of non-negative values |
| `Numeric.RoundHalfEven` | doa_ring.py:174-176 | `round()` gives an integer within one half of x, and an even one on a tie |
| `Numeric.RoundHalfEvenUnique` | doa_ring.py:174-176 | those two properties determine the rounded value uniquely |
| `Numeric.RoundWithin` | doa_ring.py:174-176 | rounding a value in [0, c] for an integer c stays in [0, c] |
| `Numeric.Interp` | doa_ring.py:164 | `np.interp` with two sample points: y0 left of x0 (and at x0 when x0 < x1), y1 at or right of x1 (so a degenerate range x0 == x1 gives y1 at x0), always between y0 and y1, and strictly between them inside the interval |
| `Numeric.InterpLinear` | doa_ring.py:157 | inside the interval the interpolant lies on the straight line through the two sample points |
| `Numeric.InterpMonotone` | doa_ring.py:157 | the interpolant is non-decreasing for ascending sample values and non-increasing for descending ones |
| `Numeric.Linspace` | doa_ring.py:198 | `np.linspace` starts at a and ends at b |
| `Numeric.LinspaceStep` | doa_ring.py:198 | the linspace step divides the range into n−1 equal parts, and is non-negative for an ascending range |
| `Numeric.LinspaceEvenSteps` | doa_ring.py:198 | consecutive linspace points are exactly one step apart |
| `Numeric.LinspaceAscending` | doa_ring.py:198 | on an ascending range the linspace points ascend and stay within [a, b] |
| `Numeric.SeqMax` | doa_ring.py:156 | `max()` of a non-empty array is an element that bounds every element from above |
| `Numeric.SeqMin` | doa_ring.py:156 | `min()` of a non-empty array is an element that bounds every element from below |
| `Numeric.SumBounds` | doa_ring.py:152 | a sum of n values that all lie in [lo, hi] lies in [n·lo, n·hi] |
| `Numeric.MeanBetween` | doa_ring.py:152 | `np.mean` of a non-empty array whose values lie in [lo, hi] lies in [lo, hi] |
| `Numeric.MeanWithin` | doa_ring.py:152 | `np.mean` of a non-empty slice lies between the slice's minimum and maximum |
| `Numeric.SumOfIndicator` | doa_ring.py:274-275 | an array that is zero except one entry sums to that entry, or to zero if the entry lies outside it |
| `Color.Wheel` | doa_ring.py:73-93 | a position outside [0, 255] gives black; inside, the channels are bytes summing to 255, and the zero channel is blue, then green, then red in the three 85-wide segments |
| `Color.WheelRoundTrip` | doa_ring.py:79-92 | every position in [0, 255) is recovered from its colour, so the wheel repeats no colour there |
| `Color.WheelClosesCircle` | doa_ring.py:89-92 | position 255 shows the colour of position 0 |
| `Color.WheelContinuous` | doa_ring.py:79-92 | neighbouring positions differ by at most 3 in each channel, across segment boundaries too |
| `PySlice.SliceDown` | doa_ring.py:255 | `s[start:stop:-1]` with 0 ≤ stop < start < n is the reversal of the entries stop+1 .. start, and it is empty when 0 ≤ start ≤ stop |
| `PySlice.SliceDownToFront` | doa_ring.py:254 | `s[start::-1]` is the reversal of the entries 0 .. start for an in-range start, the reversal of all of s for a start at or past the end, the reversal of the entries 0 .. start+n for a start in [−n, 0) (so −1 on a one-element array gives that element), and empty for a start below −n |
| `PySlice.Reversed` | doa_ring.py:250 | `s[::-1]` has the length of s, and its entry i is s[n−1−i] |
| `PySlice.AdjustDown` | doa_ring.py:254-255 | for a negative step, a bound in [−n, 0) counts from the end, a bound at or past n becomes n−1, a bound below −n becomes −1, and an in-range bound is kept |
| `PySlice.ReverseInvolution` | doa_ring.py:250 | reversing twice gives the original array |
| `PySlice.ReversedIsReverse` | doa_ring.py:250 | Python's `s[::-1]` is the reversal of s |
| `RingMap.Divisions` | doa_ring.py:144 | `len(data)//24` is the floor quotient d: 24·d ≤ len < 24·(d+1) |
| `RingMap.BinFits` | doa_ring.py:144-153 | with at least 24 samples each bin's run of len//24 samples is non-empty and lies inside the array |
| `RingMap.BinSlice` | doa_ring.py:152 | the slice averaged into a bin has exactly len//24 ≥ 1 samples |
| `RingMap.Bins` | doa_ring.py:144-153 | the reference decimation has one bin per ring pixel. Their values are stated by `RingMap.BinsAreRunMeans` and `RingMap.BinsWithinRuns` |
| `RingMap.BinsWithinRuns` | doa_ring.py:150-153 | each ring bin lies between the smallest and the largest sample of its run |
| `RingMap.BinsAreRunMeans` | doa_ring.py:144-153 | ring bin i of the decimation is the mean of samples [i·d, i·d+d), with d = len//24 |
| `RingMap.Decimate` | doa_ring.py:144-153 | the decimation loop with its running start index returns 24 bins, bin i being the mean of samples [i·d, i·d+d) with d = len//24 |
| `RingMap.TrailingSamplesIgnored` | doa_ring.py:144-153 | samples past 24·d never reach the ring: the bins equal those of the array cut to 24·d samples |
| `RingMap.ClipFloor` | doa_ring.py:156-157 | the clip floor min + 0.7·(max − min) lies between min and max, and equals max exactly when all bins are equal |
| `RingMap.Rescale` | doa_ring.py:156-157 | the rescale has one value per bin in [0, 1]. A bin maps to 1 exactly when it is maximal. When the bins are not all equal, a bin maps to 0 exactly when it is at most the clip floor |
| `RingMap.RescaleMonotone` | doa_ring.py:156-157 | the rescale preserves the order of the bins |
| `RingMap.MapRingData` | doa_ring.py:141-157 | `map_ring_data` returns exactly 24 values, each in [0, 1]. Bin i maps to 1 exactly when its run mean is the largest. Unless all means are equal, it maps to 0 exactly when the mean is at most the clip floor. Equal means all map to 1 |
| `Render.ColourPosition` | doa_ring.py:164 | the confidence colour position is always in [160, 255]: 255 at or below confidence 20, 160 at or above 70 |
| `Render.ColourPositionMonotone` | doa_ring.py:164 | a higher confidence never gives a higher wheel position |
| `Render.ConfidenceColour` | doa_ring.py:164-165 | the data colour is a proper wheel colour, never the out-of-range black, with a zero red or green channel |
| `Render.RosePixel` | doa_ring.py:167-179 | the rose marker is the colour of wheel position 255 dimmed by 0.04 and truncated, i.e. (0, 10, 0) |
| `Render.ScaledChannelWithin` | doa_ring.py:174-176 | a channel scaled by an intensity in [0, 1] and rounded stays in [0, channel] |
| `Render.Scaled` | doa_ring.py:174-176 | each channel of a scaled colour is in [0, colour channel]; intensity 1 gives the colour itself and intensity 0 gives black |
| `Render.RingPixel` | doa_ring.py:172-186 | a ring pixel is always a proper colour. A bin of at least 0.04 always shows the scaled colour, never the marker. A zero bin shows black, or the (0, 10, 0) marker at a rose point |
| `Render.RosePointsAreCompassPoints` | doa_ring.py:178 | the rose points of the ring are exactly indices 0, 6, 12 and 18 |
| `Render.DisplayRingData` | doa_ring.py:160-186 | only ring pixels are written. A pixel shows the scaled data colour when its bin is ≥ 0.04 or it is not a rose point, and shows the rose marker exactly at rose points whose bin is below 0.04 |
| `Render.Threshold` | doa_ring.py:198-207 | the power needed to light scale pixel x lies in [5, 30]: 5 for the first pixel and 30 for the last |
| `Render.ScaleIndex` | doa_ring.py:202-205 | every scale pixel maps to a buffer index in [24, 32). The HUD index mirrors the normal one: the two sum to 24 + 31 |
| `Render.ScaleIndexBijective` | doa_ring.py:202-205 | both HUD and normal indexing are bijections from scale pixels 0..7 onto buffer indices 24..31 |
| `Render.DisplayPowerValue` | doa_ring.py:197-212 | scale pixel x is the power colour exactly when power ≥ linspace(5, 30, 8)[x] and black otherwise. Lit pixels form a prefix, the ring is untouched, power < 5 lights none and power ≥ 30 lights all |
| `Render.BlankRing` | doa_ring.py:286-289 | blanking makes ring pixels 0..23 black and leaves the scale alone |
| `Render.FadeToBlack` | doa_ring.py:113-126 | with a configured brightness (`BRIGHTNESS`, 0.1 unless set on the command line) of 0 nothing changes; otherwise the fade ends with every pixel black and the configured brightness restored |
| `Orient.HudFlip` | doa_ring.py:254-256 | the flip, as written with negative-step slices, keeps the length, and its first half is the input's first half reversed. `Orient.HudFlipHalves` states the whole result |
| `Orient.HudFlipHalves` | doa_ring.py:252-256 | the HUD flip, as written with negative-step slices, reverses each half in place for every length, 0 and 1 included |
| `Orient.HudFlipInvolution` | doa_ring.py:252-256 | the HUD flip preserves length and is an involution |
| `Orient.HalvesOfReverse` | doa_ring.py:276-280 | reversing each half of a reversed even-length array puts s[(j + n/2) mod n] at index j |
| `Orient.FlipOfReverse` | doa_ring.py:276-280 | for an even-length array, entry j of flip(reverse(s)) is s[(j + n/2) mod n] |
| `Orient.FlipOfReversalRotates` | doa_ring.py:276-280 | reversing and then flipping an even-length array is a rotation by half its length |
| `Orient.OrientBearing` | doa_ring.py:247-256 | a kerberos-sdr message has its bearing reflected to 360 − b and its samples reversed; in HUD mode each half of the samples is then reversed; the length is kept |
| `Orient.SpikeIndex` | doa_ring.py:275 | `int(heading)` indexes the 360-entry array only within [−360, 360), otherwise IndexError; the index it reaches is congruent to it mod 360 |
| `Orient.Spike` | doa_ring.py:274-275 | the heading array has 360 entries, with 0.99 at index k and zero everywhere else |
| `Orient.HeadingData` | doa_ring.py:274-280 | the drawn heading array has 360 entries. Where its spike lands is stated by `Orient.HeadingDataRotated` |
| `Orient.HeadingDataRotated` | doa_ring.py:274-280 | after reversal and flip the only non-zero entry, 0.99, sits at (k + 180) mod 360 |
| `Orient.SpikeLandsOpposite` | doa_ring.py:273-280 | the 0.99 spike lands at (int(heading) + 180) mod 360, with every other entry 0 |
| `Orient.SpeedToPower` | doa_ring.py:292 | speed maps to a power in [5, 30]: 5 at or below −1 km/h, 30 at or above 80 km/h |
| `Orient.SpeedToPowerMonotone` | doa_ring.py:292 | a higher speed never gives a lower power |
| `Listener.WithTime` | udp_listener.py:55-57 | when "time_string" is present, "time" is set to its value and no other key changes; otherwise the message is unchanged |
| `Listener.HandleUdpPacket` | udp_listener.py:43-75 | an unparseable packet invokes nothing. The generic callback, if registered, fires first on any parsed packet, even one without "type", which then stops typed dispatch. At most two calls happen, and the generic callback only at the head |
| `Listener.TypedCalls` | udp_listener.py:51-71 | the chain of type tests invokes at most one callback. That callback is registered and is never the generic one, and the message it receives keeps every key of the packet |
| `Listener.RouterFollowsTable` | udp_listener.py:51-71 | GPS reaches only the gps callback and BEARING only the bearing callback; the three summary types reach only the summary callback; each fires only if registered, telemetry gets its time copied, and an unknown type reaches none |
| `Handlers.NumField` | doa_ring.py:237-239 | reading a required message field raises KeyError when it is absent and yields its number otherwise |
| `Handlers.NumbersField` | doa_ring.py:240 | reading raw_doa raises KeyError when absent and otherwise yields its numbers, element by element |
| `Handlers.DecodeBearing` | doa_ring.py:236-248 | decoding succeeds exactly when confidence, bearing and power are numbers and raw_doa is an array of numbers (a missing confidence is the error reported first). The decoded confidence, bearing, power and samples are those fields' values, and a message counts as kerberos-sdr exactly when its source says so |
| `Handlers.HandleBearing` | doa_ring.py:236-259 | a bearing message raises, drawing nothing, when a field is missing or when it has fewer than 24 samples. Otherwise the ring shows the oriented samples at the message's confidence and the scale shows its power |
| `Handlers.DecodeGps` | doa_ring.py:265-271 | a missing speed raises KeyError. Decoding succeeds exactly when speed is a number and heading is absent, null or a number. The decoded speed is the field's value, a numeric heading is carried, and a null or absent one is None |
| `Handlers.HeadingDataBins` | doa_ring.py:274-284 | the heading array decimates to bins that are all zero except the one holding the rotated spike, which holds 0.99/15 |
| `Handlers.CompassRing` | doa_ring.py:273-284 | drawing the heading array at confidence 70 lights exactly one ring pixel, half a turn from the heading, at the full colour of wheel position 160; other pixels are rose markers at 0, 6, 12 and 18 and black elsewhere |
| `Handlers.GpsRing` | doa_ring.py:268-289 | a non-zero heading outside the indexable range raises. Any other non-zero heading draws the compass picture, and a zero or missing heading blanks the ring; the scale is untouched |
| `Handlers.HandleGps` | doa_ring.py:262-293 | a GPS message raises when speed is missing or the heading cannot be indexed. Otherwise the ring is drawn from the heading and the scale shows the speed mapped to a power |

## Left out

- LED hardware (`board`, `neopixel.NeoPixel`, `pixels.show`, the brightness attribute): foreign device calls. The buffer is a plain sequence.
- `rainbow_cycle`, `slow_test`, `startup`, `set_ring`, `set_scale`: sleep-driven effects and helpers that no handler calls. Only the end state of `fade_to_black` is modelled, not its brightness ramp over time.
- RGBW pixels: the pixel order is fixed to RGB, so `wheel` always returns a triple.
- Argument parsing and process wiring: the `--compass` choice of which callback to register, the HUD flag (passed as a parameter `hud`), and the main loop.
- `UDPListener.udp_rx_thread`, `start`, `close`: socket, timeout and threading. The JSON parser itself is also left out; the router receives its result.
- Non-object JSON documents: the router's input is either an unparseable packet or a parsed object.
- `Listener.HandleUdpPacket`: callbacks are assumed neither to modify the message nor to keep it. The code hands one mutable dict to every callback. It re-reads `packet_dict["type"]` after each callback returns, and it adds `"time"` in place (udp_listener.py:57) after the generic callback may already hold the dict. A callback that changed `"type"` could cause a further typed dispatch, beyond the bound of two calls. A callback that kept the dict would later see the added `"time"`.
- Exceptions raised inside a callback are not modelled. The router's output is the list of callbacks invoked, on the assumption that each returns normally.
- `print` calls and the exception trace logging: output only.
- `Handlers.DecodeBearing`: treats a present field of the wrong JSON kind (not a number, or not an array of numbers) as an error before drawing. Python might instead proceed (the bearing is never drawn), coerce booleans, or fail part-way through drawing.
- `Handlers.DecodeGps`: likewise treats a heading that is neither a number nor null as an error. Python's truthiness and `int()` conversion of strings and booleans are not modelled.
- `Handlers.HandleGps`: `handle_gps` reads `speed` at doa_ring.py:265 but first uses it at line 292, after the ring has been drawn and shown (lines 273-289). For a null or non-numeric speed the code changes the ring before numpy converts or rejects the value. `Handlers.DecodeGps` instead rejects such a speed as `IllTyped("speed")` before drawing, and leaves the buffer unchanged.
- `Handlers.DecodeGps` and `Handlers.DecodeBearing`: `json.loads` accepts `NaN`, `Infinity` and `-Infinity`, which `Json.Value.Num(real)` cannot hold. None of these effects is modelled:
  - An infinite heading is truthy, so `int()` raises OverflowError at line 275.
  - A NaN in `raw_doa` makes every bin NaN, so `round` raises at line 174.
  - A NaN speed lights no scale pixel.
- IEEE floating point: all arithmetic is exact. Rounding of products such as 255·0.04 or of the linspace steps may differ from the double-precision values in the last place.
- The commented-out peak-bearing marker and the unused `BEARING_COL` constant: not part of the behaviour.
