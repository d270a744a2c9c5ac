/**
  The multi-planar capture stream: which buffers the driver holds, which one the
  stream holds, and how many stale frames a pause leaves behind.
 */
module Mplane {
  import opened Basics

  /** A filled buffer and when it was filled. */
  datatype Filled = Filled(index: nat, stamp: nat)

  /** An honest driver: queued buffers are filled and handed back in order. */
  datatype Driver = Driver(on: bool, empty: seq<nat>, full: seq<Filled>, clock: nat)

  function Indices(full: seq<Filled>): seq<nat> {
    seq(|full|, i requires 0 <= i < |full| => full[i].index)
  }

  function Queued(d: Driver): seq<nat> { d.empty + Indices(d.full) }

  /** VIDIOC_QBUF: refuses a buffer it already holds, and may fail for its own reasons. */
  function Queue(d: Driver, index: nat, fault: bool): Option<Driver> {
    if fault || index in Queued(d) then None else Some(d.(empty := d.empty + [index]))
  }

  /** The sensor fills the oldest empty buffer. */
  function Fill(d: Driver): Driver {
    if d.on && d.empty != [] then
      Driver(true, d.empty[1..], d.full + [Filled(d.empty[0], d.clock)], d.clock + 1)
    else d
  }

  function Fills(d: Driver, n: nat): Driver {
    if n == 0 then d else Fill(Fills(d, n - 1))
  }

  /** How the environment treats one call: failing ioctls, the poll, and the frames that arrive meanwhile. */
  datatype Oracle = Oracle(queueFault: nat -> bool, onFault: bool, arrived: nat, ready: bool, dequeueFault: bool)

  datatype Stream = Stream(granted: nat, streaming: bool, pending: Option<nat>, driver: Driver)

  /** A stream as `with_buffers` leaves it. */
  function Fresh(granted: nat): Stream {
    Stream(granted, false, None, Driver(false, [], [], 0))
  }

  /** Queue buffers 0 up to `n`, stopping at the first refusal. */
  function Prime(d: Driver, n: nat, fault: nat -> bool): (Driver, bool) {
    if n == 0 then (d, true)
    else
      var (before, ok) := Prime(d, n - 1, fault);
      if !ok then (before, false)
      else match Queue(before, n - 1, fault(n - 1))
        case None => (before, false)
        case Some(after) => (after, true)
  }

  /** The first half of `next_frame`: start streaming, or give the last frame back. */
  function Readied(s: Stream, o: Oracle): (Stream, bool) {
    if !s.streaming then
      var (d, ok) := Prime(s.driver, s.granted, o.queueFault);
      if !ok || o.onFault then (s.(driver := d), false)
      else (s.(driver := d.(on := true), streaming := true), true)
    else if s.pending.Some? then
      match Queue(s.driver, s.pending.value, o.queueFault(0))
      case None => (s, false)
      case Some(d) => (s.(driver := d, pending := None), true)
    else (s, true)
  }

  /** The second half: wait, dequeue, and remember what was handed out. */
  function Dequeued(s: Stream, o: Oracle): (Stream, Option<Filled>) {
    var d := Fills(s.driver, o.arrived);
    if !o.ready || o.dequeueFault || d.full == [] then (s.(driver := d), None)
    else
      var rest := d.(full := d.full[1..]);
      if d.full[0].index >= s.granted then (s.(driver := rest), None)
      else (s.(driver := rest, pending := Some(d.full[0].index)), Some(d.full[0]))
  }

  function NextFrame(s: Stream, o: Oracle): (Stream, Option<Filled>) {
    var (readied, ok) := Readied(s, o);
    if !ok then (readied, None) else Dequeued(readied, o)
  }

  // -------------------------------------------------------------------- the code's form

  class CaptureStream {
    const granted: nat
    var streaming: bool
    var pending: Option<nat>
    /** The kernel's side. */
    var driver: Driver

    constructor (granted: nat)
      ensures State() == Fresh(granted)
    {
      this.granted, streaming, pending, driver := granted, false, None, Driver(false, [], [], 0);
    }

    function State(): Stream
      reads this
    {
      Stream(granted, streaming, pending, driver)
    }

    /** `queue`. */
    method QueueBuffer(index: nat, fault: bool) returns (ok: bool)
      modifies this`driver
      ensures ok <==> !fault && index !in Queued(old(driver))
      ensures ok ==> Queue(old(driver), index, fault) == Some(driver) && index in Queued(driver)
      ensures !ok ==> driver == old(driver)
    {
      ok := !fault && index !in Queued(driver);
      if ok {
        driver := driver.(empty := driver.empty + [index]);
        assert driver.empty[|driver.empty| - 1] == index;
      }
    }

    /** `next_frame`. */
    method Next(o: Oracle) returns (frame: Option<Filled>)
      modifies this
      ensures (State(), frame) == NextFrame(old(State()), o)
    {
      if !streaming {
        for index := 0 to granted
          invariant (driver, true) == Prime(old(driver), index, o.queueFault)
          invariant streaming == old(streaming) && pending == old(pending)
        {
          var ok := QueueBuffer(index, o.queueFault(index));
          if !ok {
            PrimeStops(old(driver), index + 1, granted, o.queueFault);
            return None;
          }
        }
        if o.onFault {
          return None;
        }
        driver := driver.(on := true);
        streaming := true;
      } else if pending.Some? {
        var ok := QueueBuffer(pending.value, o.queueFault(0));
        if !ok {
          return None;
        }
        pending := None;
      }
      ghost var readied := State();
      assert (readied, true) == Readied(old(State()), o);
      driver := Fills(driver, o.arrived);
      if !o.ready || o.dequeueFault || driver.full == [] {
        return None;
      }
      var got := driver.full[0];
      driver := driver.(full := driver.full[1..]);
      if got.index >= granted {
        return None;
      }
      pending := Some(got.index);
      frame := Some(got);
    }
  }

  lemma {:induction false} PrimeStops(d: Driver, n: nat, more: nat, fault: nat -> bool)
    requires n <= more && !Prime(d, n, fault).1
    ensures Prime(d, more, fault) == Prime(d, n, fault)
    decreases more
  {
    if n < more { PrimeStops(d, n, more - 1, fault); }
  }

  // ----------------------------------------------------------------- buffer conservation

  function Range(n: nat): seq<nat> { if n == 0 then [] else Range(n - 1) + [n - 1] }

  /** Every buffer, wherever it is. */
  function Held(s: Stream): multiset<nat> {
    multiset(Queued(s.driver)) + if s.pending.Some? then multiset{s.pending.value} else multiset{}
  }

  /**
    Streaming: each buffer is queued or is the one handed out. Not streaming: some
    first buffers are queued, none is handed out.
   */
  predicate Conserved(s: Stream) {
    if s.streaming then s.driver.on && Held(s) == multiset(Range(s.granted))
    else
      && !s.driver.on && s.pending.None? && s.driver.full == []
      && |s.driver.empty| <= s.granted && s.driver.empty == Range(|s.driver.empty|)
  }

  lemma {:induction false} RangeHas(n: nat, i: nat)
    ensures multiset(Range(n))[i] == if i < n then 1 else 0
    decreases n
  {
    if n > 0 { RangeHas(n - 1, i); }
  }

  lemma {:induction false} RangeSize(n: nat)
    ensures |Range(n)| == n
    decreases n
  {
    if n > 0 { RangeSize(n - 1); }
  }

  /** A buffer handed out is not queued: giving it back can never be refused as queued already. */
  lemma PendingIsNotQueued(s: Stream)
    requires Conserved(s) && s.streaming && s.pending.Some?
    ensures s.pending.value !in Queued(s.driver)
  {
    RangeHas(s.granted, s.pending.value);
    assert multiset(Queued(s.driver))[s.pending.value] == 0;
  }

  lemma FillConserves(d: Driver)
    ensures multiset(Queued(Fill(d))) == multiset(Queued(d))
    ensures Fill(d).on == d.on
  {
    if d.on && d.empty != [] {
      var f := Fill(d);
      assert Indices(f.full) == Indices(d.full) + [d.empty[0]];
      assert d.empty == [d.empty[0]] + d.empty[1..];
      assert multiset(d.empty) == multiset{d.empty[0]} + multiset(d.empty[1..]);
    }
  }

  lemma {:induction false} FillsConserve(d: Driver, n: nat)
    ensures multiset(Queued(Fills(d, n))) == multiset(Queued(d)) && Fills(d, n).on == d.on
    decreases n
  {
    if n > 0 {
      FillsConserve(d, n - 1);
      FillConserves(Fills(d, n - 1));
    }
  }

  /** From an idle driver, priming queues a first stretch of the buffers, and all of them if it succeeds. */
  lemma {:induction false} PrimeFromNothing(d: Driver, n: nat, fault: nat -> bool)
    requires d.empty == [] && d.full == []
    ensures var (after, ok) := Prime(d, n, fault);
            && after == d.(empty := after.empty) && |after.empty| <= n && after.empty == Range(|after.empty|)
            && (ok ==> |after.empty| == n)
    decreases n
  {
    if n > 0 {
      PrimeFromNothing(d, n - 1, fault);
      var (before, ok) := Prime(d, n - 1, fault);
      if ok {
        RangeHas(n - 1, n - 1);
        assert Indices(before.full) == [];
        assert before.empty + [] == before.empty;
        RangeSize(n);
      }
    }
  }

  /** With a first buffer queued already, priming is refused at once. */
  lemma {:induction false} PrimeRefused(d: Driver, n: nat, fault: nat -> bool)
    requires n > 0 && 0 in Queued(d)
    ensures Prime(d, n, fault) == (d, false)
    decreases n
  {
    if n > 1 { PrimeRefused(d, n - 1, fault); } else { assert Prime(d, 0, fault) == (d, true); }
  }

  lemma StartConserves(s: Stream, o: Oracle)
    requires Conserved(s) && !s.streaming && s.driver.empty == []
    ensures Conserved(Readied(s, o).0)
  {
    PrimeFromNothing(s.driver, s.granted, o.queueFault);
    var d := Prime(s.driver, s.granted, o.queueFault).0;
    assert Indices([]) == [] && d.empty + [] == d.empty;
  }

  /** A stream whose priming failed part way has its first buffer queued, and is refused for good. */
  lemma RestartRefused(s: Stream, o: Oracle)
    requires Conserved(s) && !s.streaming && s.driver.empty != []
    ensures Readied(s, o) == (s, false)
  {
    RangeHas(|s.driver.empty|, 0);
    assert multiset(s.driver.empty)[0] == 1;
    PrimeRefused(s.driver, s.granted, o.queueFault);
  }

  lemma RequeueConserves(s: Stream, o: Oracle)
    requires Conserved(s) && s.streaming && s.pending.Some?
    ensures Conserved(Readied(s, o).0)
  {
    var after := Readied(s, o).0;
    if after != s {
      assert multiset(Queued(after.driver)) == multiset(Queued(s.driver)) + multiset{s.pending.value};
    }
  }

  lemma ReadiedConserves(s: Stream, o: Oracle)
    requires Conserved(s)
    ensures Conserved(Readied(s, o).0)
    ensures Readied(s, o).1 ==> Readied(s, o).0.streaming && Readied(s, o).0.pending.None?
  {
    if s.streaming {
      if s.pending.Some? { RequeueConserves(s, o); }
    } else if s.driver.empty == [] {
      StartConserves(s, o);
    } else {
      RestartRefused(s, o);
    }
  }

  lemma DequeuedConserves(s: Stream, o: Oracle)
    requires Conserved(s) && s.streaming && s.pending.None?
    ensures Conserved(Dequeued(s, o).0)
  {
    var d := Fills(s.driver, o.arrived);
    FillsConserve(s.driver, o.arrived);
    if d.full != [] {
      var rest := d.(full := d.full[1..]);
      var i := d.full[0].index;
      assert Indices(d.full) == [i] + Indices(rest.full);
      assert multiset(Queued(d)) == multiset(Queued(rest)) + multiset{i};
      assert i in multiset(Queued(d));
      RangeHas(s.granted, i);
    }
  }

  /** Every call keeps every buffer, whatever fails. */
  lemma NextFrameConserves(s: Stream, o: Oracle)
    requires Conserved(s)
    ensures Conserved(NextFrame(s, o).0)
  {
    ReadiedConserves(s, o);
    var (readied, ok) := Readied(s, o);
    if ok { DequeuedConserves(readied, o); }
  }

  /** Frames arriving between calls. */
  function Paused(s: Stream, arrived: nat): Stream { s.(driver := Fills(s.driver, arrived)) }

  lemma PausedConserves(s: Stream, arrived: nat)
    requires Conserved(s)
    ensures Conserved(Paused(s, arrived))
  {
    if s.streaming { FillsConserve(s.driver, arrived); } else { OffFillsNothing(s.driver, arrived); }
  }

  lemma {:induction false} OffFillsNothing(d: Driver, n: nat)
    requires !d.on
    ensures Fills(d, n) == d
    decreases n
  {
    if n > 0 { OffFillsNothing(d, n - 1); }
  }

  /** One event of a session: a call, or frames arriving while nobody calls. */
  datatype Event = Call(o: Oracle) | Pause(arrived: nat)

  function After(s: Stream, events: seq<Event>): Stream
    decreases |events|
  {
    if events == [] then s
    else
      var before := After(s, events[..|events| - 1]);
      match events[|events| - 1]
      case Call(o) => NextFrame(before, o).0
      case Pause(arrived) => Paused(before, arrived)
  }

  /** Over any session, streaming or not yet: each buffer is queued or is the one handed out, once. */
  lemma {:induction false} SessionConserves(granted: nat, events: seq<Event>)
    ensures Conserved(After(Fresh(granted), events))
    decreases |events|
  {
    if events != [] {
      var front := events[..|events| - 1];
      SessionConserves(granted, front);
      match events[|events| - 1]
      case Call(o) => NextFrameConserves(After(Fresh(granted), front), o);
      case Pause(arrived) => PausedConserves(After(Fresh(granted), front), arrived);
    } else {
      assert Range(0) == [];
    }
  }
}
