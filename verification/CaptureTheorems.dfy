/**
  What holds over any run of captures: the Y16 scale, and the frames that settle
  before the first one kept.
 */
module CaptureTheorems {
  import opened Basics
  import opened CaptureSession
  import G = Greys

  // ----------------------------------------------------------- the least shift that fits

  lemma {:induction false} BitsGrow(x: nat, y: nat)
    requires x <= y
    ensures Bits(x) <= Bits(y)
    decreases y
  {
    if x > 0 { BitsGrow(x / 2, y / 2); }
  }

  lemma {:induction false} ShrDropsBits(x: nat, s: nat)
    ensures Bits(Shr(x, s)) == SatSub(Bits(x), s)
    decreases s
  {
    if s > 0 { ShrDropsBits(x / 2, s - 1); }
  }

  lemma EightBits(x: nat)
    ensures x <= 255 <==> Bits(x) <= 8
  {
    assert Bits(255) == 8 by {
      assert Bits(0) == 0 && Bits(1) == 1 && Bits(3) == 2 && Bits(7) == 3 && Bits(15) == 4;
      assert Bits(31) == 5 && Bits(63) == 6 && Bits(127) == 7;
    }
    assert Bits(256) == 9 by {
      assert Bits(1) == 1 && Bits(2) == 2 && Bits(4) == 3 && Bits(8) == 4 && Bits(16) == 5;
      assert Bits(32) == 6 && Bits(64) == 7 && Bits(128) == 8;
    }
    if x <= 255 { BitsGrow(x, 255); } else { BitsGrow(256, x); }
  }

  /** A sample fits in eight bits under exactly the shifts from the one its own peak implies. */
  lemma FitsFrom(x: nat, s: nat)
    ensures Fits(x, s) <==> ShiftFromPeak(x) <= s
  {
    ShrDropsBits(x, s);
    EightBits(Shr(x, s));
  }

  /** No sample of a frame clamps. */
  predicate NoneClamps(buf: seq<Byte>, s: nat) {
    forall i :: 0 <= i < |buf| / 2 ==> Fits(Sample(buf, i), s)
  }

  predicate GotFits(got: Got, s: nat) { got.Frame? ==> NoneClamps(got.buf, s) }

  lemma {:induction false} PeakFits(buf: seq<Byte>, n: nat, s: nat)
    requires 2 * n <= |buf|
    ensures ShiftFromPeak(PeakOf(buf, n)) <= s <==> forall i :: 0 <= i < n ==> Fits(Sample(buf, i), s)
    decreases n
  {
    if n == 0 {
      assert ShiftFromPeak(0) == 0;
    } else {
      PeakFits(buf, n - 1, s);
      MaxFits(PeakOf(buf, n - 1), Sample(buf, n - 1), s);
      FitsFrom(Sample(buf, n - 1), s);
    }
  }

  lemma MaxFits(a: nat, b: nat, s: nat)
    ensures ShiftFromPeak(Max(a, b)) <= s <==> ShiftFromPeak(a) <= s && ShiftFromPeak(b) <= s
  {
    if a <= b { BitsGrow(a, b); } else { BitsGrow(b, a); }
  }

  lemma {:induction false} BurstFits(feed: Feed, at: nat, n: nat, s: nat)
    ensures ShiftFromPeak(BurstPeak(feed, at, n)) <= s <==> forall k: nat :: at <= k < at + n ==> GotFits(feed(k), s)
    decreases n
  {
    if n == 0 {
      assert ShiftFromPeak(0) == 0;
    } else {
      BurstFits(feed, at, n - 1, s);
      var last := feed(at + n - 1);
      MaxFits(BurstPeak(feed, at, n - 1), FramePeak(last), s);
      if last.Frame? {
        PeakFits(last.buf, |last.buf| / 2, s);
      } else {
        assert ShiftFromPeak(0) == 0;
      }
      assert GotFits(last, s) <==> ShiftFromPeak(FramePeak(last)) <= s;
    }
  }

  // --------------------------------------------------------------------- runs of captures

  // `Discarded(cam, cutoffs, n)` is the camera after any `n` captures, kept or not.

  /** Once pinned, the shift never changes again, whatever the captures do. */
  lemma {:induction false} ShiftIsPinned(cam: Cam, cutoffs: nat -> nat, m: nat, n: nat)
    requires m <= n && Discarded(cam, cutoffs, m).shift.Some?
    ensures Discarded(cam, cutoffs, n).shift == Discarded(cam, cutoffs, m).shift
    decreases n
  {
    if m < n { ShiftIsPinned(cam, cutoffs, m, n - 1); }
  }

  /** What a capture leaves alone. */
  lemma {:induction false} RunKeeps(cam: Cam, cutoffs: nat -> nat, n: nat)
    ensures var now := Discarded(cam, cutoffs, n);
            now == cam.(taken := now.taken, shift := now.shift) && cam.taken <= now.taken
    decreases n
  {
    if n > 0 { RunKeeps(cam, cutoffs, n - 1); }
  }

  /**
    A kept capture is made of the frame dequeued last: as the decoder has it, or for Y16
    scaled by the pinned shift with each grey three times.
   */
  lemma KeptIsLastDequeued(cam: Cam, cutoff: nat)
    requires Captured(cam, cutoff).1.Some?
    ensures var (now, rgb) := Captured(cam, cutoff);
            && now.taken > cam.taken && cam.feed(now.taken - 1).Frame?
            && (var buf := cam.feed(now.taken - 1).buf;
                if cam.y16 then now.shift.Some? && rgb == Some(G.Replicated(Y16ToGray(buf, now.shift.value)))
                else rgb == cam.decode(buf))
  {
  }

  /** Every other format takes one frame a capture, and fails with the dequeue or the decoder. */
  lemma OneFrameACapture(cam: Cam, cutoff: nat)
    requires !cam.y16
    ensures var got := cam.feed(cam.taken);
            Captured(cam, cutoff) == (cam.(taken := cam.taken + 1), if got.Frame? then cam.decode(got.buf) else None)
  {
  }

  /** A bit depth no Y16 stream can have counts as none. */
  lemma ImpossibleDepthIsNone(y16: bool, feed: Feed, decode: seq<Byte> -> Option<seq<Byte>>, depth: nat, warmup: nat)
    requires depth < 8 || depth > 16
    ensures Opened(y16, feed, decode, Some(depth), warmup) == Opened(y16, feed, decode, None, warmup)
    ensures ScaleFor(y16, Some(depth)) == ScaleFor(y16, None)
  {
  }

  /** A verified depth pins its shift for the whole run, and no capture spends more than its own frame. */
  lemma {:induction false} VerifiedDepthNeverBursts(feed: Feed, decode: seq<Byte> -> Option<seq<Byte>>, depth: nat,
                                                    warmup: nat, cutoffs: nat -> nat, n: nat)
    requires 8 <= depth <= 16
    ensures var now := Discarded(Opened(true, feed, decode, Some(depth), warmup), cutoffs, n);
            now.shift == Some(depth - 8) && now.taken == n
    decreases n
  {
    if n > 0 { VerifiedDepthNeverBursts(feed, decode, depth, warmup, cutoffs, n - 1); }
  }

  /** The capture that pins a shift pins the least under which no sample of any burst frame clamps. */
  lemma CalibratedShiftIsLeast(cam: Cam, cutoff: nat, s: nat)
    requires cam.shift.None? && Captured(cam, cutoff).0.shift.Some?
    ensures var n := BurstLength(cam, cutoff);
            && n >= 1 && Drain(cam.feed, cam.taken, n).ok
            && (Captured(cam, cutoff).0.shift.value <= s <==>
                forall k: nat :: cam.taken <= k < cam.taken + n ==> GotFits(cam.feed(k), s))
  {
    BurstFits(cam.feed, cam.taken, BurstLength(cam, cutoff), s);
  }

  /** Until a shift is pinned, a Y16 stream gives no frame. */
  lemma NoFrameWithoutShift(cam: Cam, cutoff: nat)
    requires cam.y16 && Captured(cam, cutoff).1.Some?
    ensures Captured(cam, cutoff).0.shift.Some?
  {
  }

  /** A Y16 capture is grey: its luma is the frame at the pinned scale. */
  lemma Y16RoundTrip(cam: Cam, cutoff: nat)
    requires cam.y16 && Captured(cam, cutoff).1.Some?
    ensures var (after, rgb) := Captured(cam, cutoff);
            && after.shift.Some? && after.taken > 0 && cam.feed(after.taken - 1).Frame?
            && G.RgbToGray(rgb.value) == Y16ToGray(cam.feed(after.taken - 1).buf, after.shift.value)
  {
    var (after, rgb) := Captured(cam, cutoff);
    NoFrameWithoutShift(cam, cutoff);
    G.GrayOfReplicated(Y16ToGray(cam.feed(after.taken - 1).buf, after.shift.value));
  }

  // ----------------------------------------------------------------------------- warmup

  /** Frames delivered by the dequeues from `a` up to `b`. */
  function Delivered(feed: Feed, a: nat, b: nat): nat
    decreases b
  {
    if b <= a then 0 else Delivered(feed, a, b - 1) + if feed(b - 1).Frame? then 1 else 0
  }

  lemma {:induction false} DrainDelivers(feed: Feed, at: nat, n: nat)
    ensures var d := Drain(feed, at, n);
            && d.calls <= n
            && (d.ok ==> d.calls == n && Delivered(feed, at, at + d.calls) == n)
            && (!d.ok ==> d.calls >= 1 && Delivered(feed, at, at + d.calls) == d.calls - 1)
    decreases n
  {
    if n > 0 { DrainDelivers(feed, at, n - 1); }
  }

  lemma {:induction false} DeliveredJoins(feed: Feed, a: nat, b: nat, c: nat)
    requires a <= b <= c
    ensures Delivered(feed, a, b) + Delivered(feed, b, c) == Delivered(feed, a, c)
    decreases c
  {
    if b < c { DeliveredJoins(feed, a, b, c - 1); }
  }

  /** The frames that settle in one capture of an unpinned Y16 stream, before the one it returns. */
  function SettledFrames(cam: Cam, cutoff: nat): nat {
    Delivered(cam.feed, cam.taken, Settled(cam, cutoff).0.taken)
  }

  /** Where a capture that pins the scale stands once settled, or once its top-up has failed. */
  lemma PinnedTaken(cam: Cam, cutoff: nat)
    requires cam.y16 && cam.shift.None? && Settled(cam, cutoff).0.shift.Some?
    ensures var n := BurstLength(cam, cutoff);
            && Drain(cam.feed, cam.taken, n) == Drained(n, true)
            && Settled(cam, cutoff).0.taken ==
               cam.taken + n + Drain(cam.feed, cam.taken + n, SatSub(cam.warmup, n)).calls
  {
    DrainDelivers(cam.feed, cam.taken, BurstLength(cam, cutoff));
  }

  lemma BurstThenTopUp(feed: Feed, at: nat, n: nat, warmup: nat)
    requires Drain(feed, at, n).ok
    ensures var t := Drain(feed, at + n, SatSub(warmup, n));
            var got := Delivered(feed, at, at + n + t.calls);
            (t.ok <==> got >= warmup) && (t.ok ==> got == Max(n, warmup))
  {
    var t := Drain(feed, at + n, SatSub(warmup, n));
    DrainDelivers(feed, at, n);
    DrainDelivers(feed, at + n, SatSub(warmup, n));
    DeliveredJoins(feed, at, at + n, at + n + t.calls);
  }

  /** A capture that pins the scale settles the longer of burst and warmup, unless its top-up fails. */
  lemma SettlesIffToppedUp(cam: Cam, cutoff: nat)
    requires cam.y16 && cam.shift.None? && Settled(cam, cutoff).0.shift.Some?
    ensures var n := BurstLength(cam, cutoff);
            var topUp := Drain(cam.feed, cam.taken + n, SatSub(cam.warmup, n));
            && (topUp.ok <==> SettledFrames(cam, cutoff) >= cam.warmup)
            && (topUp.ok ==> SettledFrames(cam, cutoff) == Max(n, cam.warmup))
  {
    PinnedTaken(cam, cutoff);
    BurstThenTopUp(cam.feed, cam.taken, BurstLength(cam, cutoff), cam.warmup);
  }

  /** No dequeue fails and no frame fails to decode. */
  ghost predicate Reliable(cam: Cam) {
    && (forall k :: cam.feed(k).Frame?)
    && (forall buf :: cam.decode(buf).Some?)
  }

  lemma {:induction false} ReliableDrain(cam: Cam, at: nat, n: nat)
    requires Reliable(cam)
    ensures Drain(cam.feed, at, n) == Drained(n, true)
    decreases n
  {
    if n > 0 { ReliableDrain(cam, at, n - 1); }
  }

  /** A burst the clock does not cut takes eight frames, or the warmup if that is more, before the kept one. */
  lemma WholeBurst(cam: Cam, cutoff: nat)
    requires cam.y16 && cam.shift.None? && Reliable(cam) && cutoff >= Max(8, cam.warmup)
    ensures Captured(cam, cutoff).1.Some? && Captured(cam, cutoff).0.taken == cam.taken + Max(8, cam.warmup) + 1
  {
    var n := BurstLength(cam, cutoff);
    ReliableDrain(cam, cam.taken, n);
    ReliableDrain(cam, cam.taken + n, 0);
  }

  /** With a pinned shift every capture takes one frame. */
  lemma {:induction false} PinnedTakesOne(cam: Cam, cutoffs: nat -> nat, n: nat)
    requires cam.shift.Some?
    ensures Discarded(cam, cutoffs, n) == cam.(taken := cam.taken + n)
    decreases n
  {
    if n > 0 { PinnedTakesOne(cam, cutoffs, n - 1); }
  }

  /**
    The first frame kept after an open for capture: the dequeues before it are the
    warmup, or the longer of burst and warmup when a burst runs, for every cutoff.
   */
  lemma WarmupIsMet(y16: bool, feed: Feed, decode: seq<Byte> -> Option<seq<Byte>>, depth: Option<nat>, warmup: nat,
                    purpose: Purpose, cutoffs: nat -> nat, cutoff: nat)
    requires Reliable(Opened(y16, feed, decode, depth, warmup)) && cutoff > 0
    requires purpose == Capture || ScaleFor(y16, depth) != UnverifiedY16
    ensures var cam := Opened(y16, feed, decode, depth, warmup);
            var ready := Discarded(cam, cutoffs, Discards(purpose, ScaleFor(y16, depth), cam));
            var (kept, rgb) := Captured(ready, cutoff);
            && rgb.Some?
            && kept.taken - 1 == (if cam.shift.None? then Max(BurstLength(cam, cutoff), warmup) else warmup)
            && kept.taken - 1 >= warmup
  {
    var cam := Opened(y16, feed, decode, depth, warmup);
    if cam.shift.None? {
      assert Discards(purpose, ScaleFor(y16, depth), cam) == 0;
      var n := BurstLength(cam, cutoff);
      ReliableDrain(cam, 0, n);
      ReliableDrain(cam, n, SatSub(warmup, n));
    } else {
      PinnedTakesOne(cam, cutoffs, warmup);
    }
  }

  /** Every dequeue delivers a frame exactly if none faults. */
  lemma {:induction false} DeliveredAtMost(feed: Feed, a: nat, b: nat)
    requires a <= b
    ensures Delivered(feed, a, b) <= b - a
    ensures Delivered(feed, a, b) == b - a <==> forall k: nat :: a <= k < b ==> feed(k).Frame?
    decreases b
  {
    if a < b { DeliveredAtMost(feed, a, b - 1); }
  }

  /**
    For every feed, faults included: where the first capture after an open is kept, the
    frames delivered before it reach the warmup exactly if no discarded dequeue faulted,
    and always where a burst ran.
   */
  lemma WarmupMetIff(y16: bool, feed: Feed, decode: seq<Byte> -> Option<seq<Byte>>, depth: Option<nat>, warmup: nat,
                     purpose: Purpose, cutoffs: nat -> nat, cutoff: nat)
    requires purpose == Capture || ScaleFor(y16, depth) != UnverifiedY16
    requires var cam := Opened(y16, feed, decode, depth, warmup);
             Captured(Discarded(cam, cutoffs, Discards(purpose, ScaleFor(y16, depth), cam)), cutoff).1.Some?
    ensures var cam := Opened(y16, feed, decode, depth, warmup);
            var ready := Discarded(cam, cutoffs, Discards(purpose, ScaleFor(y16, depth), cam));
            var kept := Captured(ready, cutoff).0;
            && kept.taken > 0
            && (Delivered(feed, 0, kept.taken - 1) >= warmup <==>
                cam.shift.None? || forall k: nat :: k < warmup ==> feed(k).Frame?)
  {
    var cam := Opened(y16, feed, decode, depth, warmup);
    if cam.shift.None? {
      assert Discards(purpose, ScaleFor(y16, depth), cam) == 0;
      PinnedTaken(cam, cutoff);
      SettlesIffToppedUp(cam, cutoff);
    } else {
      PinnedTakesOne(cam, cutoffs, warmup);
      DeliveredAtMost(feed, 0, warmup);
    }
  }

  /** Opening for authentication dequeues nothing from an unverified Y16 stream. */
  lemma AuthenticationLeavesUnverified(feed: Feed, decode: seq<Byte> -> Option<seq<Byte>>, depth: Option<nat>,
                                       warmup: nat, cutoffs: nat -> nat)
    requires ScaleFor(true, depth) == UnverifiedY16
    ensures var cam := Opened(true, feed, decode, depth, warmup);
            var ready := Discarded(cam, cutoffs, Discards(Authentication, ScaleFor(true, depth), cam));
            ready.taken == 0 && ready.shift.None?
  {
  }

  /**
    A top-up that fails leaves the scale pinned, so the next capture skips the rest of
    the warmup: three frames asked for, one settled before the frame that is kept.
   */
  lemma FailedTopUpSkipsWarmup()
    ensures var feed: Feed := (k: nat) => if k == 1 then Fault else Frame([]);
            var cam := Opened(true, feed, (b: seq<Byte>) => None, None, 3);
            var first := Captured(cam, 1);
            var second := Captured(first.0, 1);
            && first.1.None? && second.1.Some?
            && Delivered(feed, 0, second.0.taken - 1) == 1 < cam.warmup
  {
    var feed: Feed := (k: nat) => if k == 1 then Fault else Frame([]);
    var cam := Opened(true, feed, (b: seq<Byte>) => None, None, 3);
    assert Drain(feed, 0, 1) == Drained(1, true) by { assert Drain(feed, 0, 0) == Drained(0, true); }
    assert Drain(feed, 1, 1) == Drained(1, false) by { assert Drain(feed, 1, 0) == Drained(0, true); }
    DrainStops(feed, 1, 1, 2);
    var first := Captured(cam, 1);
    assert first.0.taken == 2 && first.0.shift.Some?;
    assert Delivered(feed, 0, 0) == 0 && Delivered(feed, 0, 1) == 1 && Delivered(feed, 0, 2) == 1;
  }

  // -------------------------------------------------------------------- what samples mean

  /** Sixteen-bit samples as a Y16 buffer delivers them, low byte first. */
  function Y16Buffer(samples: seq<nat>): seq<Byte>
    requires forall i :: 0 <= i < |samples| ==> samples[i] < 65536
  {
    seq(2 * |samples|, j requires 0 <= j < 2 * |samples| =>
        if j % 2 == 0 then samples[j / 2] % 256 else samples[j / 2] / 256)
  }

  /** Converting a buffer of samples shifts each of them, and clamps it to white. */
  lemma Y16GrayOfSamples(samples: seq<nat>, shift: nat)
    requires forall i :: 0 <= i < |samples| ==> samples[i] < 65536
    ensures var gray := Y16ToGray(Y16Buffer(samples), shift);
            && |gray| == |samples|
            && forall i :: 0 <= i < |samples| ==>
                 gray[i] == if Fits(samples[i], shift) then Shr(samples[i], shift) else 255
  {
    var buf := Y16Buffer(samples);
    assert |buf| / 2 == |samples|;
    forall i | 0 <= i < |samples|
      ensures Sample(buf, i) == samples[i]
    {
      assert buf[2 * i] == samples[i] % 256 && buf[2 * i + 1] == samples[i] / 256;
    }
  }

  lemma {:induction false} ShrOrdered(x: nat, y: nat, s: nat)
    requires x <= y
    ensures Shr(x, s) <= Shr(y, s)
    decreases s
  {
    if s > 0 { ShrOrdered(x / 2, y / 2, s - 1); }
  }

  /** A brighter sample never converts to a darker value. */
  lemma Y16GrayOrdered(buf: seq<Byte>, shift: nat, i: nat, j: nat)
    requires i < |buf| / 2 && j < |buf| / 2 && Sample(buf, i) <= Sample(buf, j)
    ensures Y16ToGray(buf, shift)[i] <= Y16ToGray(buf, shift)[j]
  {
    ShrOrdered(Sample(buf, i), Sample(buf, j), shift);
  }
}
