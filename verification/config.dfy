/** Fixed configuration of the display: pixel counts, colours and thresholds. */
module Config {

  /** Pixels in the main ring, numbered clockwise with pixel 0 at the top. */
  const RingPixels: nat := 24

  /** Pixels in the linear power scale, wired in after the ring. */
  const ScalePixels: nat := 8

  const TotalPixels: nat := RingPixels + ScalePixels

  /** Compass rose: relative brightness of a marker and number of markers around the ring. */
  const RoseBrightness: real := 0.04
  const RosePoints: nat := 4

  /** Confidence range and the colour-wheel positions it is mapped onto. */
  const ConfidenceMax: real := 70.0
  const ConfidenceMin: real := 20.0
  const ConfidenceMaxCol: int := 160
  const ConfidenceMinCol: int := 255

  /** Fraction of the bin range that is clipped to zero when rescaling ring data. */
  const ClipValue: real := 0.7

  /** Power scale range and colour-wheel position of a lit scale pixel. */
  const PowerMin: real := 5.0
  const PowerMax: real := 30.0
  const PowerCol: int := 1
}
