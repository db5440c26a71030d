/**
 The scheduler's send loop (internal/service/schedule/sharding/sharding_scheduler.go). Iterate is one
 pass of the loop on the real ring and controller; the state machine below runs any number of table
 loops that share one ring, each adding its event and testing the threshold under separate locks.
 */
module Scheduler {
  import opened Words
  import opened Sums
  import opened BitRing
  import opened RingBuffer
  import opened Adjuster

  class NotifShardingScheduler {
    var batchSize: u64
    const batchAdjuster: Adjuster
    const errEvents: BitRing

    ghost predicate Valid()
      reads this, batchAdjuster, batchAdjuster.buffer, batchAdjuster.buffer.buffer, errEvents, errEvents.words
    {
      && batchAdjuster.Valid() && errEvents.Valid()
      && errEvents.words as object != batchAdjuster.buffer.buffer as object
    }

    constructor (batchSize: u64, batchAdjuster: Adjuster, errEvents: BitRing)
      requires batchAdjuster.Valid() && errEvents.Valid()
      requires errEvents.words as object != batchAdjuster.buffer.buffer as object
      ensures Valid() && this.batchSize == batchSize
      ensures this.batchAdjuster == batchAdjuster && this.errEvents == errEvents
    {
      this.batchSize, this.batchAdjuster, this.errEvents := batchSize, batchAdjuster, errEvents;
    }

    /** One pass, given whether the batch failed, its response time and the clock readings of the
        controller. True stands for ErrEventThresholdExceeded, on which the controller is not asked. */
    method Iterate(sendFailed: bool, respTime: i64, check: int, stamp: int) returns (exceeded: bool)
      requires Valid()
      modifies this, batchAdjuster, batchAdjuster.buffer, batchAdjuster.buffer.buffer, errEvents, errEvents.words
      ensures Valid()
      ensures errEvents.history == old(errEvents.history) + [sendFailed]
      ensures exceeded == Triggering(errEvents.history, errEvents.windowSize, errEvents.consecutiveThreshold,
                                     errEvents.eventRateThreshold)
      ensures exceeded ==> batchSize == old(batchSize) && batchAdjuster.State() == old(batchAdjuster.State())
                           && batchAdjuster.buffer.samples == old(batchAdjuster.buffer.samples)
      ensures !exceeded ==>
                && batchAdjuster.buffer.samples == old(batchAdjuster.buffer.samples) + [respTime]
                && batchAdjuster.State() == Decide(batchAdjuster.Config(), old(batchAdjuster.State()),
                                                   batchAdjuster.buffer.samples, Response(respTime, check, stamp))
                && batchSize == batchAdjuster.currSize
    {
      hide Triggering, Decide, Holds;
      errEvents.Add(sendFailed);
      exceeded := errEvents.ThresholdTriggering();
      if exceeded {
        return;
      }
      var newBatchSize := batchAdjuster.Adjust(respTime, check, stamp);
      batchSize := newBatchSize;
    }
  }

  // ---------------------------------------------------------------- many loops, one ring

  datatype Ring = Ring(size: nat, consecutive: nat, rate: real)

  /** Between its send and its test a loop has Added; iterations are those of the call in progress
      since every send began to fail. */
  datatype Phase = Sending | Added | Returned

  datatype Loop = Loop(phase: Phase, iterations: nat)

  datatype World = World(history: seq<bool>, loops: seq<Loop>)

  /** Again: the table job calls loop once more after it returned. */
  datatype Event = SendFailed(l: nat) | Test(l: nat) | Again(l: nat)

  predicate Enabled(w: World, e: Event) {
    && e.l < |w.loops|
    && (e.SendFailed? ==> w.loops[e.l].phase == Sending)
    && (e.Test? ==> w.loops[e.l].phase == Added)
    && (e.Again? ==> w.loops[e.l].phase == Returned)
  }

  ghost function Step(ring: Ring, w: World, e: Event): World
    requires Enabled(w, e)
  {
    var loop := w.loops[e.l];
    match e
    case SendFailed(l) => World(w.history + [true], w.loops[l := Loop(Added, loop.iterations + 1)])
    case Test(l) =>
      var over := Triggering(w.history, ring.size, ring.consecutive, ring.rate);
      w.(loops := w.loops[l := loop.(phase := if over then Returned else Sending)])
    case Again(l) => w.(loops := w.loops[l := Loop(Sending, 0)])
  }

  ghost predicate Reaches(ring: Ring, w: World, events: seq<Event>, r: World)
    decreases |events|
  {
    if events == [] then r == w
    else Enabled(w, events[0]) && Reaches(ring, Step(ring, w, events[0]), events[1..], r)
  }

  /** The moment from which every send fails: any history, any phases, nothing counted yet. */
  ghost predicate Fresh(w: World) {
    forall l | 0 <= l < |w.loops| :: w.loops[l].iterations == 0
  }

  /** The unbroken tail of errors is at least as long as any loop's own count, and a loop about to
      send again has not yet used its allowance. */
  ghost predicate Bounded(ring: Ring, w: World) {
    forall l | 0 <= l < |w.loops| ::
      && LastAll(w.history, w.loops[l].iterations)
      && w.loops[l].iterations <= ring.consecutive
      && (w.loops[l].phase == Sending ==> w.loops[l].iterations < ring.consecutive)
  }

  lemma LongTailTriggers(ring: Ring, history: seq<bool>)
    requires 0 < ring.consecutive <= ring.size && LastAll(history, ring.consecutive)
    ensures Triggering(history, ring.size, ring.consecutive, ring.rate)
  {
  }

  lemma LastAllPush(history: seq<bool>, n: nat)
    requires LastAll(history, n)
    ensures LastAll(history + [true], n) && LastAll(history + [true], n + 1)
  {
  }

  lemma BoundedStep(ring: Ring, w: World, e: Event)
    requires 0 < ring.consecutive <= ring.size && Enabled(w, e) && Bounded(ring, w)
    ensures Bounded(ring, Step(ring, w, e))
  {
    hide LastAll, Triggering;
    match e {
      case SendFailed(l) =>
        forall m | 0 <= m < |w.loops|
          ensures LastAll(w.history + [true], w.loops[m].iterations)
          ensures LastAll(w.history + [true], w.loops[m].iterations + 1)
        {
          LastAllPush(w.history, w.loops[m].iterations);
        }
      case Test(l) =>
        if w.loops[l].iterations == ring.consecutive {
          LongTailTriggers(ring, w.history);
        }
      case Again(l) =>
        NoTail(w.history);
    }
  }

  lemma NoTail(history: seq<bool>)
    ensures LastAll(history, 0)
  {
  }

  lemma {:induction false} BoundedRun(ring: Ring, w: World, events: seq<Event>, r: World)
    requires 0 < ring.consecutive <= ring.size && Bounded(ring, w) && Reaches(ring, w, events, r)
    ensures Bounded(ring, r)
    decreases |events|
  {
    hide Bounded, Step, Enabled;
    if events != [] {
      BoundedStep(ring, w, events[0]);
      BoundedRun(ring, Step(ring, w, events[0]), events[1..], r);
    }
  }

  /** Once every send fails, no call of loop makes more than consecutiveThreshold further iterations,
      for any earlier history and however the calls sharing the ring interleave and begin again; one
      that has made them returns at its next test. */
  lemma EveryLoopReturns(ring: Ring, w: World, events: seq<Event>, r: World, l: nat)
    requires 0 < ring.consecutive <= ring.size && Fresh(w) && Reaches(ring, w, events, r) && l < |r.loops|
    ensures r.loops[l].iterations <= ring.consecutive
    ensures r.loops[l].phase == Sending ==> r.loops[l].iterations < ring.consecutive
    ensures r.loops[l].iterations == ring.consecutive && r.loops[l].phase == Added ==>
              Step(ring, r, Test(l)).loops[l].phase == Returned
  {
    BoundedRun(ring, w, events, r);
    if r.loops[l].iterations == ring.consecutive {
      LongTailTriggers(ring, r.history);
    }
  }

  /** No smaller bound holds: with a rate threshold of 1, or more, a call begun anew makes all of its
      consecutiveThreshold iterations. */
  lemma BoundIsTight(ring: Ring) returns (w: World, events: seq<Event>, r: World)
    requires 0 < ring.consecutive <= ring.size && 1.0 <= ring.rate
    ensures Fresh(w) && w.loops == [Loop(Returned, 0)] && Reaches(ring, w, [Again(0)] + events, r)
    ensures r.loops == [Loop(Added, ring.consecutive)]
  {
    w := World([], [Loop(Returned, 0)]);
    var begun := Step(ring, w, Again(0));
    events, r := Failing(ring, begun, 0);
    Then(ring, w, Again(0), events, r);
  }

  lemma Then(ring: Ring, w: World, e: Event, rest: seq<Event>, r: World)
    requires Enabled(w, e) && Reaches(ring, Step(ring, w, e), rest, r)
    ensures Reaches(ring, w, [e] + rest, r)
  {
    assert ([e] + rest)[1..] == rest;
  }

  lemma ShortTail(ring: Ring, history: seq<bool>)
    requires 0 < ring.consecutive && 1.0 <= ring.rate && |history| < ring.consecutive
    ensures !Triggering(history, ring.size, ring.consecutive, ring.rate)
  {
    FullRateNeedsTail(history, ring.size, ring.consecutive, ring.rate);
  }

  /** i failures in a row, of consecutiveThreshold. */
  lemma {:induction false} Failing(ring: Ring, w: World, i: nat) returns (events: seq<Event>, r: World)
    requires 0 < ring.consecutive <= ring.size && 1.0 <= ring.rate && i < ring.consecutive
    requires |w.history| == i && w.loops == [Loop(Sending, i)]
    ensures Reaches(ring, w, events, r) && r.loops == [Loop(Added, ring.consecutive)]
    decreases ring.consecutive - i
  {
    hide Triggering;
    var sent := Step(ring, w, SendFailed(0));
    if i + 1 == ring.consecutive {
      r := sent;
      Then(ring, w, SendFailed(0), [], r);
      events := [SendFailed(0)] + [];
    } else {
      ShortTail(ring, sent.history);
      var tested := Step(ring, sent, Test(0));
      events, r := Failing(ring, tested, i + 1);
      Then(ring, sent, Test(0), events, r);
      events := [Test(0)] + events;
      Then(ring, w, SendFailed(0), events, r);
      events := [SendFailed(0)] + events;
    }
  }

  lemma LongTailStays(ring: Ring, w: World, e: Event)
    requires Enabled(w, e) && LastAll(w.history, ring.consecutive)
    ensures LastAll(Step(ring, w, e).history, ring.consecutive)
  {
    hide Triggering;
    LastAllPush(w.history, ring.consecutive);
  }

  /** When consecutiveThreshold sends have failed in a row and every further one does, each test ends
      its call: a call that begins then makes a single iteration. */
  lemma {:induction false} LaterCallsAreSingle(ring: Ring, w: World, events: seq<Event>, r: World, l: nat)
    requires 0 < ring.consecutive <= ring.size && LastAll(w.history, ring.consecutive)
    requires Reaches(ring, w, events, r) && Enabled(r, Test(l))
    ensures Step(ring, r, Test(l)).loops[l].phase == Returned
    decreases |events|
  {
    hide LastAll, Triggering;
    if events == [] {
      LongTailTriggers(ring, w.history);
    } else {
      LongTailStays(ring, w, events[0]);
      LaterCallsAreSingle(ring, Step(ring, w, events[0]), events[1..], r, l);
    }
  }

  // ---------------------------------------------------------------- all calls return

  /** Events a loop may still take part in. */
  function Left(ring: Ring, loop: Loop): int {
    match loop.phase
    case Returned => 0
    case Added => 2 * (ring.consecutive - loop.iterations) + 1
    case Sending => 2 * (ring.consecutive - loop.iterations)
  }

  function Lefts(ring: Ring, loops: seq<Loop>): (r: seq<int>) {
    seq(|loops|, i requires 0 <= i < |loops| => Left(ring, loops[i]))
  }

  lemma StepCosts(ring: Ring, w: World, e: Event)
    requires 0 < ring.consecutive <= ring.size && Enabled(w, e) && !e.Again? && Bounded(ring, w)
    ensures Sum(Lefts(ring, Step(ring, w, e).loops)) <= Sum(Lefts(ring, w.loops)) - 1
  {
    var r := Step(ring, w, e);
    BoundedStep(ring, w, e);
    hide LastAll, Triggering, Sum;
    SumUpdate(Lefts(ring, w.loops), e.l, Left(ring, r.loops[e.l]));
    assert Lefts(ring, r.loops) == Lefts(ring, w.loops)[e.l := Left(ring, r.loops[e.l])];
  }

  lemma LeftsNonNegative(ring: Ring, w: World)
    requires Bounded(ring, w)
    ensures 0 <= Sum(Lefts(ring, w.loops))
  {
    SumNonNegative(Lefts(ring, w.loops));
  }

  lemma {:induction false} RunCosts(ring: Ring, w: World, events: seq<Event>, r: World)
    requires 0 < ring.consecutive <= ring.size && Bounded(ring, w) && Reaches(ring, w, events, r)
    requires forall e | e in events :: !e.Again?
    ensures |events| <= Sum(Lefts(ring, w.loops))
    decreases |events|
  {
    hide Bounded, Step, Enabled, Sum, Lefts;
    LeftsNonNegative(ring, w);
    if events != [] {
      StepCosts(ring, w, events[0]);
      BoundedStep(ring, w, events[0]);
      RunCosts(ring, Step(ring, w, events[0]), events[1..], r);
    }
  }

  lemma FreshCosts(ring: Ring, w: World)
    requires 0 < ring.consecutive && Fresh(w)
    ensures Bounded(ring, w)
    ensures Sum(Lefts(ring, w.loops)) <= |w.loops| * (2 * ring.consecutive + 1)
  {
    SumBetween(Lefts(ring, w.loops), 0, 2 * ring.consecutive + 1);
  }

  /** n loop calls in progress, all of whose sends fail, have all returned within
      n * (2 * consecutiveThreshold + 1) sends and tests, calls begun again afterwards left aside. */
  lemma RunsAreShort(ring: Ring, w: World, events: seq<Event>, r: World)
    requires 0 < ring.consecutive <= ring.size && Fresh(w) && Reaches(ring, w, events, r)
    requires forall e | e in events :: !e.Again?
    ensures |events| <= |w.loops| * (2 * ring.consecutive + 1)
  {
    hide *;
    FreshCosts(ring, w);
    RunCosts(ring, w, events, r);
  }
}
