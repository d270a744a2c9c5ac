/**
  A camera session: the Y16 scale pinned at most once, the calibration burst, and
  the warmup it shares with the caller that opens the camera.
 */
module CaptureSession {
  import opened Basics
  import G = Greys

  // -------------------------------------------------------------------- Y16 samples

  function Sample(buf: seq<Byte>, i: nat): nat
    requires 2 * i + 1 < |buf|
  {
    var low: int, high: int := buf[2 * i], buf[2 * i + 1];
    low + 256 * high
  }

  /** The brightest of the first `n` samples. */
  function PeakOf(buf: seq<Byte>, n: nat): nat
    requires 2 * n <= |buf|
  {
    if n == 0 then 0
    else
      var rest := PeakOf(buf, n - 1);
      if Sample(buf, n - 1) > rest then Sample(buf, n - 1) else rest
  }

  /** `y16_peak`. */
  function Peak(buf: seq<Byte>): nat { PeakOf(buf, |buf| / 2) }

  /** Sixteen less the leading zeros. */
  function Bits(x: nat): nat { if x == 0 then 0 else 1 + Bits(x / 2) }

  /** `y16_shift_from_peak`. */
  function ShiftFromPeak(peak: nat): nat {
    if Bits(peak) > 8 then Bits(peak) - 8 else 0
  }

  function Shr(x: nat, s: nat): nat
    decreases s
  {
    if s == 0 then x else Shr(x / 2, s - 1)
  }

  predicate Fits(x: nat, s: nat) { Shr(x, s) <= 255 }

  /** `y16_to_gray`. */
  function Y16ToGray(buf: seq<Byte>, shift: nat): seq<Byte> {
    seq(|buf| / 2, i requires 0 <= i < |buf| / 2 =>
        var v := Shr(Sample(buf, i), shift); if v > 255 then 255 else v)
  }

  /** `y16_shift_from_bit_depth`. */
  function ShiftFromDepth(depth: nat): Option<nat> {
    if 8 <= depth <= 16 then Some(depth - 8) else None
  }

  // ------------------------------------------------------------------------ the camera

  datatype Got = Frame(buf: seq<Byte>) | Fault

  /** What each successive dequeue delivers. */
  type Feed = nat -> Got

  const CALIBRATION_FRAMES: nat := 8

  /** A camera: its negotiated format, the dequeues made, the pinned Y16 shift, and the effective warmup. */
  datatype Cam = Cam(y16: bool, feed: Feed, decode: seq<Byte> -> Option<seq<Byte>>,
                     taken: nat, shift: Option<nat>, warmup: nat) {
    function Burst(): nat { Max(warmup, CALIBRATION_FRAMES) }

    /** `pending_settle_frames`. */
    function Pending(): nat { if y16 && shift.None? then Burst() else 0 }
  }

  /** A freshly opened camera: a valid quirk depth pins the shift, another format needs none. */
  function Opened(y16: bool, feed: Feed, decode: seq<Byte> -> Option<seq<Byte>>, depth: Option<nat>, warmup: nat): Cam {
    var shift := if !y16 then Some(0) else if depth.Some? then ShiftFromDepth(depth.value) else None;
    Cam(y16, feed, decode, 0, shift, warmup)
  }

  /** How many dequeues it takes to get `n` frames, stopping at the first fault, and whether all came. */
  datatype Drained = Drained(calls: nat, ok: bool)

  function Drain(feed: Feed, at: nat, n: nat): Drained
    decreases n
  {
    if n == 0 then Drained(0, true)
    else
      var d := Drain(feed, at, n - 1);
      if !d.ok then d else Drained(n, feed(at + n - 1).Frame?)
  }

  function FramePeak(got: Got): nat { if got.Frame? then Peak(got.buf) else 0 }

  /** The brightest sample of `n` frames from `at` on. */
  function BurstPeak(feed: Feed, at: nat, n: nat): nat {
    if n == 0 then 0 else Max(BurstPeak(feed, at, n - 1), FramePeak(feed(at + n - 1)))
  }

  /** The frames a burst takes when the clock runs out after `cutoff` of them. */
  function BurstLength(cam: Cam, cutoff: nat): nat { Min(cam.Burst(), cutoff) }

  /** `calibrate_y16_shift` and the top-up after it. */
  function Calibrated(cam: Cam, cutoff: nat): (Cam, bool) {
    var n := BurstLength(cam, cutoff);
    var d := Drain(cam.feed, cam.taken, n);
    var after := cam.(taken := cam.taken + d.calls);
    if !d.ok || n == 0 then (after, false)
    else
      var pinned := after.(shift := Some(ShiftFromPeak(BurstPeak(cam.feed, cam.taken, n))));
      var t := Drain(cam.feed, pinned.taken, SatSub(cam.warmup, n));
      (pinned.(taken := pinned.taken + t.calls), t.ok)
  }

  function Convert(cam: Cam, got: Got): Option<seq<Byte>> {
    if got.Fault? then None
    else if !cam.y16 then cam.decode(got.buf)
    else if cam.shift.None? then None
    else Some(G.Replicated(Y16ToGray(got.buf, cam.shift.value)))
  }

  /** Settling before a frame: the calibration of an unpinned Y16 stream, nothing otherwise. */
  function Settled(cam: Cam, cutoff: nat): (Cam, bool) {
    if cam.y16 && cam.shift.None? then Calibrated(cam, cutoff) else (cam, true)
  }

  /** `capture_rgb`, up to rotation. */
  function Captured(cam: Cam, cutoff: nat): (Cam, Option<seq<Byte>>) {
    var (ready, ok) := Settled(cam, cutoff);
    if !ok then (ready, None)
    else (ready.(taken := ready.taken + 1), Convert(ready, ready.feed(ready.taken)))
  }

  class Camera {
    const y16: bool
    const feed: Feed
    const decode: seq<Byte> -> Option<seq<Byte>>
    const warmup: nat
    const burst: nat
    var taken: nat
    var shift: Option<nat>

    /** `open_resolved`, once the format is negotiated. */
    constructor (y16: bool, feed: Feed, decode: seq<Byte> -> Option<seq<Byte>>, depth: Option<nat>, warmup: nat)
      ensures burst == State().Burst()
      ensures State() == Opened(y16, feed, decode, depth, warmup)
    {
      this.y16, this.feed, this.decode := y16, feed, decode;
      this.warmup, this.burst := warmup, Max(warmup, CALIBRATION_FRAMES);
      taken := 0;
      shift := if !y16 then Some(0) else if depth.Some? then ShiftFromDepth(depth.value) else None;
    }

    function State(): Cam
      reads this
    {
      Cam(y16, feed, decode, taken, shift, warmup)
    }

    method Next() returns (got: Got)
      modifies this`taken
      ensures taken == old(taken) + 1 && got == feed(old(taken))
    {
      got := feed(taken);
      taken := taken + 1;
    }

    /** `calibrate_y16_shift`: the scale, and how many frames it came from. */
    method Calibrate(cutoff: nat) returns (r: Option<(nat, nat)>)
      requires burst == State().Burst()
      modifies this`taken
      ensures var n := BurstLength(old(State()), cutoff);
              var d := Drain(feed, old(taken), n);
              && taken == old(taken) + d.calls
              && r == if !d.ok || n == 0 then None else Some((ShiftFromPeak(BurstPeak(feed, old(taken), n)), n))
    {
      var peak, frames := 0, 0;
      while frames < burst && frames < cutoff
        invariant frames <= Min(burst, cutoff)
        invariant taken == old(taken) + frames && Drain(feed, old(taken), frames) == Drained(frames, true)
        invariant peak == BurstPeak(feed, old(taken), frames)
        decreases burst - frames
      {
        var got := Next();
        if got.Fault? {
          DrainStops(feed, old(taken), frames + 1, Min(burst, cutoff));
          return None;
        }
        peak := Max(peak, Peak(got.buf));
        frames := frames + 1;
      }
      r := if frames == 0 then None else Some((ShiftFromPeak(peak), frames));
    }

    /** The dequeues that bring a short burst up to the warmup. */
    method TopUp(n: nat) returns (ok: bool)
      modifies this`taken
      ensures var d := Drain(feed, old(taken), n); taken == old(taken) + d.calls && ok == d.ok
    {
      for i := 0 to n
        invariant taken == old(taken) + i && Drain(feed, old(taken), i) == Drained(i, true)
      {
        var got := Next();
        if got.Fault? {
          DrainStops(feed, old(taken), i + 1, n);
          return false;
        }
      }
      ok := true;
    }

    /** `capture_rgb`. */
    method CaptureRgb(cutoff: nat) returns (rgb: Option<seq<Byte>>)
      requires burst == State().Burst()
      modifies this
      ensures (State(), rgb) == Captured(old(State()), cutoff)
    {
      if y16 && shift.None? {
        var scale := Calibrate(cutoff);
        if scale.None? {
          return None;
        }
        shift := Some(scale.value.0);
        var ok := TopUp(SatSub(warmup, scale.value.1));
        if !ok {
          return None;
        }
      }
      var got := Next();
      if got.Fault? {
        return None;
      }
      if y16 {
        var gray := Y16ToGray(got.buf, shift.value);
        assert G.Replicated([]) == [];
        var out := G.AppendRow([], gray, []);
        assert [] + gray == gray;
        return Some(out);
      }
      rgb := decode(got.buf);
    }
  }

  /** A drain that has failed within its first `n` calls fails the same way with more asked of it. */
  lemma {:induction false} DrainStops(feed: Feed, at: nat, n: nat, more: nat)
    requires n <= more && !Drain(feed, at, n).ok
    ensures Drain(feed, at, more) == Drain(feed, at, n)
    decreases more
  {
    if n < more { DrainStops(feed, at, n, more - 1); }
  }

  // ----------------------------------------------------------------- opening with warmup

  datatype Purpose = Authentication | Capture
  datatype Scale = NotY16 | VerifiedY16 | UnverifiedY16

  /** `ir_texture_scale_for_format`. */
  function ScaleFor(y16: bool, depth: Option<nat>): Scale {
    if !y16 then NotY16
    else if depth.Some? && ShiftFromDepth(depth.value).Some? then VerifiedY16
    else UnverifiedY16
  }

  /** `warmup_discard_count`, then `warmup_capture_count`. */
  function Discards(purpose: Purpose, scale: Scale, cam: Cam): nat {
    if purpose == Authentication && scale == UnverifiedY16 then 0 else SatSub(cam.warmup, cam.Pending())
  }

  /** A number of captures, their results dropped; `cutoffs(i)` is where the clock stops the `i`-th. */
  function Discarded(cam: Cam, cutoffs: nat -> nat, n: nat): Cam {
    if n == 0 then cam else Captured(Discarded(cam, cutoffs, n - 1), cutoffs(n - 1)).0
  }

  /** `open_resolved_camera`. */
  method OpenForPurpose(y16: bool, feed: Feed, decode: seq<Byte> -> Option<seq<Byte>>, depth: Option<nat>, warmup: nat,
                        purpose: Purpose, cutoffs: nat -> nat) returns (camera: Camera)
    ensures fresh(camera)
    ensures var cam := Opened(y16, feed, decode, depth, warmup);
            camera.State() == Discarded(cam, cutoffs, Discards(purpose, ScaleFor(y16, depth), cam))
  {
    camera := new Camera(y16, feed, decode, depth, warmup);
    ghost var cam := camera.State();
    var captures := Discards(purpose, ScaleFor(y16, depth), camera.State());
    for i := 0 to captures
      invariant camera.burst == camera.State().Burst()
      invariant camera.State() == Discarded(cam, cutoffs, i)
    {
      var dropped := camera.CaptureRgb(cutoffs(i));
    }
  }
}
