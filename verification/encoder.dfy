/** The per-wheel encoder channel: a two-state edge detector over raw ADC
    readings of an optical slice encoder, with a window tick count (reset every
    sampling window) and a cumulative tick count (reset at a full stop).
 */
module Encoder {
  import opened Params

  /** One wheel's encoder channel. `rising` means the detector waits for a
      light slice (a reading above the threshold), `falling` that it waits for
      a dark one; `window` counts ticks of the current sampling window and
      `traveled` the ticks of all closed windows since the last stop. */
  datatype Wheel = Wheel(rising: bool, falling: bool, window: nat, traveled: nat)

  /** Exactly one of the two arm flags is set. */
  predicate Armed(w: Wheel)
  {
    w.rising != w.falling
  }

  /** The channel as the controller starts: armed for a rising edge, no ticks. */
  function StartWheel(): (w: Wheel)
    ensures Armed(w) && w.rising
    ensures w.window == 0 && w.traveled == 0
  {
    Wheel(true, false, 0, 0)
  }

  /** Every tick the channel has seen since the last stop. */
  function Total(w: Wheel): nat
  {
    w.traveled + w.window
  }

  /** One sample of the edge detector. The falling-edge test runs first and
      the rising-edge test second, both strict against the threshold. */
  function Detect(w: Wheel, adc: int): (r: Wheel)
    ensures r.traveled == w.traveled
    ensures r.window == w.window || r.window == w.window + 1
    ensures Armed(w) ==> Armed(r)
    // a tick is counted exactly when the arm state flips
    ensures Armed(w) ==> (r.window == w.window + 1 <==> r.rising != w.rising)
    // a reading on the threshold is no edge and changes nothing
    ensures adc == ENCODER_VALUE_THRESHOLD ==> r == w
    // after any reading off the threshold the detector waits for the opposite level
    ensures Armed(w) && adc != ENCODER_VALUE_THRESHOLD ==> r.falling == (adc > ENCODER_VALUE_THRESHOLD)
  {
    var afterFalling :=
      if w.falling && adc < ENCODER_VALUE_THRESHOLD
      then w.(window := w.window + 1, rising := true, falling := false)
      else w;
    if afterFalling.rising && adc > ENCODER_VALUE_THRESHOLD
    then afterFalling.(window := afterFalling.window + 1, rising := false, falling := true)
    else afterFalling
  }

  /** Reference definition of what the detector tracks: the level (true for
      light, above the threshold) of the latest reading strictly off the
      threshold, or `high` when there is none. */
  function LastLevel(high: bool, adcs: seq<int>): bool
  {
    if |adcs| == 0 then high
    else if adcs[|adcs| - 1] == ENCODER_VALUE_THRESHOLD then LastLevel(high, adcs[..|adcs| - 1])
    else adcs[|adcs| - 1] > ENCODER_VALUE_THRESHOLD
  }

  /** Reference definition of the tick count: the number of readings strictly
      on the other side of the threshold from the latest strict reading
      before them (or from `high` when there is none). */
  function Crossings(high: bool, adcs: seq<int>): nat
  {
    if |adcs| == 0 then 0
    else
      var before := adcs[..|adcs| - 1];
      var x := adcs[|adcs| - 1];
      Crossings(high, before)
        + (if x != ENCODER_VALUE_THRESHOLD && (x > ENCODER_VALUE_THRESHOLD) != LastLevel(high, before) then 1 else 0)
  }

  /** The detector run over a sequence of readings, oldest first. */
  function DetectAll(w: Wheel, adcs: seq<int>): Wheel
  {
    if |adcs| == 0 then w else Detect(DetectAll(w, adcs[..|adcs| - 1]), adcs[|adcs| - 1])
  }

  /** Over any sequence of readings the detector counts exactly the level
      changes: no double count on a plateau, no tick for a reading on the
      threshold, and it ends armed against the latest strict level. */
  lemma {:induction false} DetectAllCountsCrossings(w: Wheel, adcs: seq<int>)
    requires Armed(w)
    ensures Armed(DetectAll(w, adcs))
    ensures DetectAll(w, adcs).falling == LastLevel(w.falling, adcs)
    ensures DetectAll(w, adcs).window == w.window + Crossings(w.falling, adcs)
    ensures DetectAll(w, adcs).traveled == w.traveled
  {
    if |adcs| > 0 {
      DetectAllCountsCrossings(w, adcs[..|adcs| - 1]);
    }
  }
}
