/**
  Consequences for a session: failed priming is final, and how many frames must be
  discarded after a pause.
 */
module MplaneTheorems {
  import opened Basics
  import opened Mplane

  // ------------------------------------------------------------------- failed priming

  /** Once a stream has queued a buffer without starting, no call ever yields a frame again. */
  lemma {:induction false} PartPrimedIsStuck(s: Stream, events: seq<Event>, o: Oracle)
    requires Conserved(s) && !s.streaming && s.driver.empty != []
    ensures After(s, events) == s && NextFrame(After(s, events), o).1.None?
    decreases |events|
  {
    RestartRefused(s, o);
    if events != [] {
      PartPrimedIsStuck(s, events[..|events| - 1], o);
      match events[|events| - 1]
      case Call(p) => RestartRefused(s, p);
      case Pause(n) => OffFillsNothing(s.driver, n);
    }
  }

  /** A call in which nothing fails and one frame arrives. */
  function Smooth(): Oracle { Oracle((k: nat) => false, false, 1, true, false) }

  lemma {:induction false} FaultlessPrimes(d: Driver, n: nat, fault: nat -> bool)
    requires d.empty == [] && d.full == [] && forall k :: !fault(k)
    ensures Prime(d, n, fault).1
    decreases n
  {
    if n > 0 {
      FaultlessPrimes(d, n - 1, fault);
      PrimeFromNothing(d, n - 1, fault);
      NextIsNotQueued(Prime(d, n - 1, fault).0);
    }
  }

  lemma NextIsNotQueued(d: Driver)
    requires d.full == [] && d.empty == Range(|d.empty|)
    ensures |d.empty| !in Queued(d)
  {
    RangeHas(|d.empty|, |d.empty|);
    assert Queued(d) == d.empty + [] == d.empty;
    assert multiset(d.empty)[|d.empty|] == 0;
  }

  /** Once streaming, whatever has failed before, a call in which nothing fails yields a frame. */
  lemma StreamingRecovers(s: Stream)
    requires Conserved(s) && s.streaming && s.granted > 0
    ensures NextFrame(s, Smooth()).1.Some?
  {
    if s.pending.Some? { PendingIsNotQueued(s); }
    ReadiedConserves(s, Smooth());
    OneArrives(Readied(s, Smooth()).0);
  }

  lemma OneArrives(s: Stream)
    requires Conserved(s) && s.streaming && s.pending.None? && s.granted > 0
    ensures Dequeued(s, Smooth()).1.Some?
  {
    HeldSize(s);
    assert Fills(s.driver, 0) == s.driver;
    assert Fills(s.driver, 1) == Fill(s.driver);
    HonestIndex(s, Smooth());
  }

  /** A stream not yet started can still yield a frame exactly when it has queued nothing. */
  lemma NotStartedRecoversIff(s: Stream)
    requires Conserved(s) && !s.streaming && s.granted > 0
    ensures NextFrame(s, Smooth()).1.Some? <==> s.driver.empty == []
  {
    if s.driver.empty == [] {
      FaultlessPrimes(s.driver, s.granted, Smooth().queueFault);
      ReadiedConserves(s, Smooth());
      OneArrives(Readied(s, Smooth()).0);
    } else {
      RestartRefused(s, Smooth());
    }
  }

  // ------------------------------------------------------------- when a call yields a frame

  /** Starting succeeds exactly if nothing was queued before and no call for it fails. */
  lemma StartsIff(s: Stream, o: Oracle)
    requires Conserved(s) && !s.streaming && s.granted > 0
    ensures Readied(s, o).1 <==>
            s.driver.empty == [] && !o.onFault && forall k: nat :: k < s.granted ==> !o.queueFault(k)
  {
    if s.driver.empty == [] { PrimesIff(s.driver, s.granted, o.queueFault); } else { RestartRefused(s, o); }
  }

  lemma {:induction false} PrimesIff(d: Driver, n: nat, fault: nat -> bool)
    requires d.empty == [] && d.full == []
    ensures Prime(d, n, fault).1 <==> forall k: nat :: k < n ==> !fault(k)
    decreases n
  {
    if n > 0 {
      PrimesIff(d, n - 1, fault);
      PrimeFromNothing(d, n - 1, fault);
      if Prime(d, n - 1, fault).1 { NextIsNotQueued(Prime(d, n - 1, fault).0); }
    }
  }

  lemma {:induction false} SomeFilledIff(d: Driver, n: nat)
    requires d.on
    ensures Fills(d, n).full != [] <==> d.full != [] || (n > 0 && d.empty != [])
    decreases n
  {
    if n > 0 {
      SomeFilledIff(d, n - 1);
      LongPauseFillsAll(d, n - 1);
    }
  }

  lemma DequeuesIff(s: Stream, o: Oracle)
    requires Conserved(s) && s.streaming && s.pending.None? && s.granted > 0
    ensures Dequeued(s, o).1.Some? <==> o.ready && !o.dequeueFault && (o.arrived > 0 || s.driver.full != [])
  {
    HeldSize(s);
    SomeFilledIff(s.driver, o.arrived);
    HonestIndex(s, o);
  }

  /** Whether a call gets as far as waiting for a frame. */
  predicate Proceeds(s: Stream, o: Oracle) {
    if s.streaming then s.pending.Some? ==> !o.queueFault(0)
    else s.driver.empty == [] && !o.onFault && forall k: nat :: k < s.granted ==> !o.queueFault(k)
  }

  lemma ReadiedIff(s: Stream, o: Oracle)
    requires Conserved(s) && s.granted > 0
    ensures Readied(s, o).1 <==> Proceeds(s, o)
    ensures Readied(s, o).1 ==> var r := Readied(s, o).0; Conserved(r) && r.streaming && r.pending.None? && r.granted > 0
  {
    if !s.streaming { StartsIff(s, o); } else if s.pending.Some? { PendingIsNotQueued(s); }
    ReadiedConserves(s, o);
  }

  /**
    A call yields a frame exactly if the stream starts, or gives its last buffer back, and
    nothing on the way fails, and a buffer was filled before or is while it waits.
   */
  lemma YieldsIff(s: Stream, o: Oracle)
    requires Conserved(s) && s.granted > 0
    ensures NextFrame(s, o).1.Some? <==>
            Proceeds(s, o) && o.ready && !o.dequeueFault && (o.arrived > 0 || s.driver.full != [])
  {
    ReadiedIff(s, o);
    ReadiedStamps(s, o);
    if Readied(s, o).1 { DequeuesIff(Readied(s, o).0, o); }
  }

  // ---------------------------------------------------------------------- stale frames

  /** The first `m` filled frames are from before `t`, the others from `t` on. */
  predicate StaleFirst(full: seq<Filled>, t: nat, m: nat) {
    && m <= |full|
    && (forall i :: 0 <= i < m ==> full[i].stamp < t)
    && (forall i :: m <= i < |full| ==> full[i].stamp >= t)
  }

  lemma {:induction false} FillsKeepStale(d: Driver, n: nat, t: nat, m: nat)
    requires StaleFirst(d.full, t, m) && t <= d.clock
    ensures StaleFirst(Fills(d, n).full, t, m) && t <= Fills(d, n).clock
    ensures |Fills(d, n).full| >= |d.full| && Fills(d, n).full[..|d.full|] == d.full
    decreases n
  {
    if n > 0 { FillsKeepStale(d, n - 1, t, m); }
  }

  lemma ReadiedKeepsFull(s: Stream, o: Oracle)
    requires s.streaming
    ensures var r := Readied(s, o).0;
            r.streaming && r.driver.full == s.driver.full && r.driver.clock == s.driver.clock
  {
  }

  /** A call hands out the oldest stale frame while there is one, and a fresh frame after that. */
  lemma CallTakesStale(s: Stream, o: Oracle, t: nat, m: nat)
    requires Conserved(s) && s.streaming && StaleFirst(s.driver.full, t, m) && t <= s.driver.clock
    ensures var (after, frame) := NextFrame(s, o);
            && after.streaming && t <= after.driver.clock
            && (frame.None? ==> StaleFirst(after.driver.full, t, m))
            && (frame.Some? ==> (frame.value.stamp < t <==> m > 0))
            && (frame.Some? ==> StaleFirst(after.driver.full, t, if m > 0 then m - 1 else 0))
  {
    ReadiedKeepsFull(s, o);
    var (r, ok) := Readied(s, o);
    if ok {
      ReadiedConserves(s, o);
      FillsKeepStale(r.driver, o.arrived, t, m);
      HonestIndex(r, o);
    }
  }

  /** An honest driver never hands back a buffer the stream has not mapped. */
  lemma HonestIndex(s: Stream, o: Oracle)
    requires Conserved(s) && s.streaming && s.pending.None?
    ensures var d := Fills(s.driver, o.arrived); d.full != [] ==> d.full[0].index < s.granted
  {
    var d := Fills(s.driver, o.arrived);
    FillsConserve(s.driver, o.arrived);
    if d.full != [] {
      var i := d.full[0].index;
      assert Indices(d.full)[0] == i;
      assert i in multiset(Queued(d));
      RangeHas(s.granted, i);
    }
  }

  /** How many of a run of calls yield a frame. */
  function Yields(s: Stream, calls: seq<Oracle>): nat
    decreases |calls|
  {
    if calls == [] then 0
    else
      var front := calls[..|calls| - 1];
      Yields(s, front) + if NextFrame(Ran(s, front), calls[|calls| - 1]).1.Some? then 1 else 0
  }

  function Ran(s: Stream, calls: seq<Oracle>): Stream
    decreases |calls|
  {
    if calls == [] then s else NextFrame(Ran(s, calls[..|calls| - 1]), calls[|calls| - 1]).0
  }

  lemma {:induction false} RunTakesStale(s: Stream, calls: seq<Oracle>, t: nat, m: nat)
    requires Conserved(s) && s.streaming && StaleFirst(s.driver.full, t, m) && t <= s.driver.clock
    ensures var now := Ran(s, calls);
            && Conserved(now) && now.streaming && t <= now.driver.clock
            && StaleFirst(now.driver.full, t, if Yields(s, calls) < m then m - Yields(s, calls) else 0)
    decreases |calls|
  {
    if calls != [] {
      var front, o := calls[..|calls| - 1], calls[|calls| - 1];
      RunTakesStale(s, front, t, m);
      var k := if Yields(s, front) < m then m - Yields(s, front) else 0;
      CallTakesStale(Ran(s, front), o, t, k);
      NextFrameConserves(Ran(s, front), o);
    }
  }

  lemma {:induction false} HeldSize(s: Stream)
    requires Conserved(s) && s.streaming
    ensures |s.driver.empty| + |s.driver.full| + (if s.pending.Some? then 1 else 0) == s.granted
  {
    RangeSize(s.granted);
    assert |Held(s)| == |multiset(Range(s.granted))|;
    assert |Queued(s.driver)| == |s.driver.empty| + |s.driver.full|;
  }

  /** Every frame the driver has filled so far. */
  predicate AllBefore(full: seq<Filled>, t: nat) {
    forall i :: 0 <= i < |full| ==> full[i].stamp < t
  }

  lemma {:induction false} FillsBefore(d: Driver, n: nat)
    requires AllBefore(d.full, d.clock)
    ensures AllBefore(Fills(d, n).full, Fills(d, n).clock) && d.clock <= Fills(d, n).clock
    decreases n
  {
    if n > 0 { FillsBefore(d, n - 1); }
  }

  /** Stamps follow the clock in every session. */
  lemma {:induction false} SessionStamps(granted: nat, events: seq<Event>)
    ensures var s := After(Fresh(granted), events); AllBefore(s.driver.full, s.driver.clock)
    decreases |events|
  {
    if events != [] {
      var front := events[..|events| - 1];
      SessionStamps(granted, front);
      SessionConserves(granted, front);
      var s := After(Fresh(granted), front);
      match events[|events| - 1]
      case Pause(n) => FillsBefore(s.driver, n);
      case Call(o) => CallStamps(s, o);
    }
  }

  lemma CallStamps(s: Stream, o: Oracle)
    requires Conserved(s) && AllBefore(s.driver.full, s.driver.clock)
    ensures var after := NextFrame(s, o).0; AllBefore(after.driver.full, after.driver.clock)
  {
    var (r, ok) := Readied(s, o);
    ReadiedStamps(s, o);
    if ok { FillsBefore(r.driver, o.arrived); }
  }

  lemma ReadiedStamps(s: Stream, o: Oracle)
    requires Conserved(s)
    ensures var r := Readied(s, o).0; r.driver.full == s.driver.full && r.driver.clock == s.driver.clock
  {
    if s.streaming {
      ReadiedKeepsFull(s, o);
    } else if s.driver.empty == [] {
      PrimeFromNothing(s.driver, s.granted, o.queueFault);
    } else {
      RestartRefused(s, o);
    }
  }

  // ------------------------------------------------------------------ how many to discard

  /** The number the daemon discards on a warm camera is one less than this. */
  const MMAP_BUFFERS: nat := 4

  /** How many frames from before its end a pause can leave: one for each buffer not handed out. */
  function Behind(s: Stream): nat { if s.pending.Some? && s.granted > 0 then s.granted - 1 else s.granted }

  /** Once that many have been discarded, only frames from after the pause are left. */
  lemma FreshOnceDiscarded(s: Stream, arrived: nat, calls: seq<Oracle>, o: Oracle)
    requires Conserved(s) && s.streaming && AllBefore(s.driver.full, s.driver.clock)
    requires Yields(Paused(s, arrived), calls) >= Behind(s)
    requires NextFrame(Ran(Paused(s, arrived), calls), o).1.Some?
    ensures NextFrame(Ran(Paused(s, arrived), calls), o).1.value.stamp >= Paused(s, arrived).driver.clock
  {
    var p := Paused(s, arrived);
    PausedConserves(s, arrived);
    FillsBefore(s.driver, arrived);
    HeldSize(p);
    RunTakesStale(p, calls, p.driver.clock, |p.driver.full|);
    CallTakesStale(Ran(p, calls), o, p.driver.clock, 0);
  }

  /** A pause long enough fills every buffer the driver holds. */
  lemma {:induction false} LongPauseFillsAll(d: Driver, n: nat)
    requires d.on
    ensures Fills(d, n).on && |Fills(d, n).empty| == (if n < |d.empty| then |d.empty| - n else 0)
    ensures |Fills(d, n).full| + |Fills(d, n).empty| == |d.full| + |d.empty|
    decreases n
  {
    if n > 0 { LongPauseFillsAll(d, n - 1); }
  }

  /** After a long pause all those buffers hold such frames, and too few discards leave one next. */
  lemma StaleUntilDiscarded(s: Stream, calls: seq<Oracle>, o: Oracle)
    requires Conserved(s) && s.streaming && AllBefore(s.driver.full, s.driver.clock)
    requires Yields(Paused(s, s.granted), calls) < Behind(s)
    requires NextFrame(Ran(Paused(s, s.granted), calls), o).1.Some?
    ensures NextFrame(Ran(Paused(s, s.granted), calls), o).1.value.stamp < Paused(s, s.granted).driver.clock
  {
    var p := Paused(s, s.granted);
    PausedConserves(s, s.granted);
    FillsBefore(s.driver, s.granted);
    HeldSize(s);
    LongPauseFillsAll(s.driver, s.granted);
    var m := |p.driver.full|;
    RunTakesStale(p, calls, p.driver.clock, m);
    CallTakesStale(Ran(p, calls), o, p.driver.clock, m - Yields(p, calls));
  }

  /** After session `s`: a pause, calls that discard `k` frames, and a call that yields one from before the pause ended. */
  predicate StaleAfter(s: Stream, k: nat, arrived: nat, calls: seq<Oracle>, o: Oracle) {
    var p := Paused(s, arrived);
    var frame := NextFrame(Ran(p, calls), o).1;
    Yields(p, calls) == k && frame.Some? && frame.value.stamp < p.driver.clock
  }

  /** A streaming session with that outcome; `holding` asks that it still holds a frame when it pauses. */
  predicate StaleRun(granted: nat, k: nat, holding: bool, events: seq<Event>, arrived: nat, calls: seq<Oracle>, o: Oracle) {
    var s := After(Fresh(granted), events);
    s.streaming && (holding ==> s.pending.Some?) && StaleAfter(s, k, arrived, calls, o)
  }

  /** Discarding `k` frames after a pause is enough in every streaming session, or in
      every one that still holds the last frame, as after a call that yielded one. */
  ghost predicate DiscardSuffices(granted: nat, k: nat, holding: bool) {
    forall events, arrived, calls, o :: !StaleRun(granted, k, holding, events, arrived, calls, o)
  }

  lemma {:induction false} AfterKeepsGranted(s: Stream, events: seq<Event>)
    ensures After(s, events).granted == s.granted
    decreases |events|
  {
    if events != [] { AfterKeepsGranted(s, events[..|events| - 1]); }
  }

  lemma EnoughSuffices(granted: nat, k: nat, holding: bool, events: seq<Event>, arrived: nat, calls: seq<Oracle>, o: Oracle)
    requires granted <= k || (holding && granted == k + 1)
    ensures !StaleRun(granted, k, holding, events, arrived, calls, o)
  {
    var s := After(Fresh(granted), events);
    SessionConserves(granted, events);
    SessionStamps(granted, events);
    AfterKeepsGranted(Fresh(granted), events);
    if StaleRun(granted, k, holding, events, arrived, calls, o) {
      FreshOnceDiscarded(s, arrived, calls, o);
    }
  }

  function Repeated(o: Oracle, k: nat): seq<Oracle> {
    if k == 0 then [] else Repeated(o, k - 1) + [o]
  }

  lemma {:induction false} SmoothRun(s: Stream, k: nat)
    requires Conserved(s) && s.streaming && s.granted > 0
    ensures Yields(s, Repeated(Smooth(), k)) == k
    ensures var now := Ran(s, Repeated(Smooth(), k)); Conserved(now) && now.streaming && now.granted > 0
    decreases k
  {
    if k > 0 {
      SmoothRun(s, k - 1);
      var front := Repeated(Smooth(), k - 1);
      OneMoreCall(s, front, Smooth());
      StreamingRecovers(Ran(s, front));
      NextFrameConserves(Ran(s, front), Smooth());
      StaysStreaming(Ran(s, front), Smooth());
    }
  }

  lemma OneMoreCall(s: Stream, front: seq<Oracle>, o: Oracle)
    ensures Ran(s, front + [o]) == NextFrame(Ran(s, front), o).0
    ensures Yields(s, front + [o]) == Yields(s, front) + if NextFrame(Ran(s, front), o).1.Some? then 1 else 0
  {
    assert (front + [o])[..|front|] == front;
  }

  lemma StaysStreaming(s: Stream, o: Oracle)
    requires s.streaming
    ensures NextFrame(s, o).0.streaming && NextFrame(s, o).0.granted == s.granted
  {
  }

  /** The shortest session that ends with a frame. */
  lemma FirstFrame(granted: nat)
    requires granted > 0
    ensures var s := After(Fresh(granted), [Call(Smooth())]);
            s.streaming && s.pending.Some? && s.granted == granted
  {
    var events := [Call(Smooth())];
    assert events[..0] == [] && After(Fresh(granted), []) == Fresh(granted);
    assert Range(0) == [];
    NotStartedRecoversIff(Fresh(granted));
  }

  /** A call that times out. */
  function TimedOut(): Oracle { Oracle((k: nat) => false, false, 0, false, false) }

  /** A session whose last call timed out: it has given the frame back and holds none. */
  function Lapsed(): seq<Event> { [Call(Smooth()), Call(TimedOut())] }

  lemma LapsedHoldsNothing(granted: nat)
    requires granted > 0
    ensures var s := After(Fresh(granted), Lapsed()); s.streaming && s.pending.None? && s.granted == granted
  {
    assert Lapsed()[..1] == [Call(Smooth())];
    var s := After(Fresh(granted), [Call(Smooth())]);
    FirstFrame(granted);
    SessionConserves(granted, [Call(Smooth())]);
    PendingIsNotQueued(s);
  }

  /** The session after which too few discards show: one that lapsed, or one that did not. */
  function Session(holding: bool): seq<Event> { if holding then [Call(Smooth())] else Lapsed() }

  lemma TooFewFails(granted: nat, k: nat, holding: bool)
    requires granted > k && (holding ==> granted > k + 1)
    ensures StaleRun(granted, k, holding, Session(holding), granted, Repeated(Smooth(), k), Smooth())
  {
    var s := After(Fresh(granted), Session(holding));
    if holding { FirstFrame(granted); } else { LapsedHoldsNothing(granted); }
    SessionConserves(granted, Session(holding));
    SessionStamps(granted, Session(holding));
    PausedConserves(s, granted);
    SmoothRun(Paused(s, granted), k);
    StreamingRecovers(Ran(Paused(s, granted), Repeated(Smooth(), k)));
    StaleUntilDiscarded(s, Repeated(Smooth(), k), Smooth());
  }

  /** Discarding `k` frames after a pause is enough exactly when at most `k` buffers were
      granted, or `k + 1` where the stream still holds a frame when the pause begins. */
  lemma DiscardSufficesIff(granted: nat, k: nat, holding: bool)
    ensures DiscardSuffices(granted, k, holding) <==> granted <= if holding then k + 1 else k
  {
    if granted <= if holding then k + 1 else k {
      forall events, arrived, calls, o
        ensures !StaleRun(granted, k, holding, events, arrived, calls, o)
      {
        EnoughSuffices(granted, k, holding, events, arrived, calls, o);
      }
    } else {
      TooFewFails(granted, k, holding);
    }
  }

  /** The fixed discard of a warm camera is enough exactly while fewer buffers are granted
      than asked for; as many are enough only where the stream still holds a frame. */
  lemma FixedDiscardIff(granted: nat)
    ensures DiscardSuffices(granted, MMAP_BUFFERS - 1, false) <==> granted < 4
    ensures DiscardSuffices(granted, MMAP_BUFFERS - 1, true) <==> granted <= 4
  {
    DiscardSufficesIff(granted, MMAP_BUFFERS - 1, false);
    DiscardSufficesIff(granted, MMAP_BUFFERS - 1, true);
  }

  /** With just the buffers asked for: after a capture that timed out and a pause, the
      frame that follows the three discarded ones is from before the pause ended. */
  lemma TimedOutCaptureLeavesStale()
    ensures StaleRun(MMAP_BUFFERS, MMAP_BUFFERS - 1, false, Lapsed(), MMAP_BUFFERS,
                     Repeated(Smooth(), MMAP_BUFFERS - 1), Smooth())
  {
    TooFewFails(MMAP_BUFFERS, MMAP_BUFFERS - 1, false);
  }
}
