/**
 The batch-size controller of internal/pkg/batch/slidewindow/slide_window_adjuster.go: a faster
 response than the window's average raises the batch size by a step, a slower one lowers it, within
 bounds and no more often than an interval. Sizes are uint64 and wrap; clock readings are integers.
 */
module Adjuster {
  import opened Words
  import opened Sums
  import opened Windows
  import opened RingBuffer

  datatype Setting = Setting(minSize: u64, maxSize: u64, adjustStep: u64, minAdjustInterval: int, window: nat)

  datatype Control = Control(currSize: u64, lastAdjustTime: Option<int>)

  function Min(a: int, b: int): int {
    if a < b then a else b
  }

  function Max(a: int, b: int): int {
    if a < b then b else a
  }

  function Raise(s: Setting, curr: u64): u64 {
    if curr < s.maxSize then Min(Wrap64(curr + s.adjustStep), s.maxSize) else curr
  }

  function Lower(s: Setting, curr: u64): u64 {
    if s.minSize < curr then Max(Wrap64(curr - s.adjustStep), s.minSize) else curr
  }

  /** One measured response: `check` is the clock when the interval is tested, `stamp` when the
      adjustment is recorded. */
  datatype Response = Response(time: i64, check: int, stamp: int)

  predicate Due(s: Setting, c: Control, samples: seq<i64>, r: Response) {
    && s.window <= |samples|
    && (c.lastAdjustTime.None? || s.minAdjustInterval <= r.check - c.lastAdjustTime.value)
  }

  /** The controller's answer once the response is in the window. */
  function Decide(s: Setting, c: Control, samples: seq<i64>, r: Response): Control {
    var avg := Average(samples, s.window);
    if !Due(s, c, samples, r) then c
    else if r.time < avg && c.currSize < s.maxSize then Control(Raise(s, c.currSize), Some(r.stamp))
    else if avg < r.time && s.minSize < c.currSize then Control(Lower(s, c.currSize), Some(r.stamp))
    else c
  }

  class Adjuster {
    var currSize: u64
    const minSize: u64
    const maxSize: u64
    const adjustStep: u64
    const minAdjustInterval: int
    var lastAdjustTime: Option<int>
    const buffer: TimeDurationRingBuffer

    ghost predicate Valid()
      reads this, buffer, buffer.buffer
    {
      buffer.Valid()
    }

    ghost function Config(): Setting {
      Setting(minSize, maxSize, adjustStep, minAdjustInterval, buffer.size)
    }

    ghost function State(): Control
      reads this
    {
      Control(currSize, lastAdjustTime)
    }

    constructor (buffer: TimeDurationRingBuffer, initSize: u64, minSize: u64, maxSize: u64, adjustStep: u64,
                 minAdjustInterval: int)
      requires buffer.Valid()
      ensures Valid() && this.buffer == buffer
      ensures Config() == Setting(minSize, maxSize, adjustStep, minAdjustInterval, buffer.size)
      ensures State() == Control(Min(Max(initSize, minSize), maxSize), None)
    {
      var size := initSize;
      if size < minSize {
        size := minSize;
      }
      if size > maxSize {
        size := maxSize;
      }
      this.currSize, this.lastAdjustTime := size, None;
      this.minSize, this.maxSize, this.adjustStep := minSize, maxSize, adjustStep;
      this.minAdjustInterval, this.buffer := minAdjustInterval, buffer;
    }

    method Adjust(respTime: i64, check: int, stamp: int) returns (size: u64)
      requires Valid()
      modifies this, buffer, buffer.buffer
      ensures Valid() && buffer.samples == old(buffer.samples) + [respTime]
      ensures State() == Decide(Config(), old(State()), buffer.samples, Response(respTime, check, stamp))
      ensures size == currSize
    {
      hide Average, Wrap64, Stores, Slot, Sum, Signed64;
      buffer.Add(respTime);
      WindowLength(buffer.samples, buffer.size);
      hide Window;
      var count := buffer.Count();
      if count < buffer.size {
        return currSize;
      }
      if lastAdjustTime.Some? && check - lastAdjustTime.value < minAdjustInterval {
        return currSize;
      }
      var avg := buffer.Avg();
      if respTime < avg {
        if currSize < maxSize {
          currSize := Min(Wrap64(currSize + adjustStep), maxSize);
          lastAdjustTime := Some(stamp);
        }
        return currSize;
      }
      if respTime > avg {
        if currSize > minSize {
          currSize := Max(Wrap64(currSize - adjustStep), minSize);
          lastAdjustTime := Some(stamp);
        }
      }
      return currSize;
    }
  }

  lemma WindowLength(samples: seq<i64>, size: nat)
    ensures |Window(samples, size)| == Min(|samples|, size)
  {
  }

  // ---------------------------------------------------------------- bounds

  predicate InBounds(s: Setting, curr: u64) {
    s.minSize <= curr <= s.maxSize
  }

  /** No adjustment leaves the bounds from any size within them. */
  ghost predicate KeepsBounds(s: Setting) {
    forall curr: u64 | InBounds(s, curr) :: InBounds(s, Raise(s, curr)) && InBounds(s, Lower(s, curr))
  }

  /** What a caller can check about a configuration. */
  predicate StepFits(s: Setting) {
    || s.minSize == s.maxSize
    || (&& (s.adjustStep <= s.minSize + 1 || s.maxSize == TWO_64 - 1)
        && (s.maxSize - 1 + s.adjustStep < TWO_64 || s.minSize == 0))
  }

  /** Exactly when the controller keeps its bounds: the step neither underflows from just above the
      minimum nor overflows from just below the maximum, apart from wraps that cannot escape. */
  lemma KeepsBoundsIff(s: Setting)
    requires s.minSize <= s.maxSize
    ensures KeepsBounds(s) <==> StepFits(s)
  {
    if s.minSize < s.maxSize {
      if s.minSize + 1 < s.adjustStep && s.maxSize != TWO_64 - 1 {
        LowerEscapes(s);
      }
      if TWO_64 <= s.maxSize - 1 + s.adjustStep && s.minSize != 0 {
        RaiseEscapes(s);
      }
    }
  }

  lemma LowerEscapes(s: Setting)
    requires s.minSize < s.maxSize < TWO_64 - 1 && s.minSize + 1 < s.adjustStep
    ensures !KeepsBounds(s)
  {
    var curr: u64 := Min(s.maxSize, s.adjustStep - 1);
    assert Wrap64(curr - s.adjustStep) == curr - s.adjustStep + TWO_64;
    assert InBounds(s, curr) && !InBounds(s, Lower(s, curr));
  }

  lemma RaiseEscapes(s: Setting)
    requires 0 < s.minSize < s.maxSize && TWO_64 <= s.maxSize - 1 + s.adjustStep
    ensures !KeepsBounds(s)
  {
    var curr: u64 := Max(s.minSize, TWO_64 - s.adjustStep);
    assert Wrap64(curr + s.adjustStep) == curr + s.adjustStep - TWO_64;
    assert InBounds(s, curr) && !InBounds(s, Raise(s, curr));
  }

  /** Where the step never wraps, a batch grows exactly on a response faster than the window's average
      and shrinks exactly on a slower one, each time the interval allows and there is room. */
  lemma MovesAgainstDelay(s: Setting, c: Control, samples: seq<i64>, r: Response)
    requires Plain(s) && InBounds(s, c.currSize) && 0 < s.adjustStep
    ensures var d := Decide(s, c, samples, r);
            var due := s.window <= |samples|
                       && (c.lastAdjustTime.None? || c.lastAdjustTime.value + s.minAdjustInterval <= r.check);
            && (c.currSize < d.currSize <==>
                due && r.time < Average(samples, s.window) && c.currSize < s.maxSize)
            && (d.currSize < c.currSize <==>
                due && Average(samples, s.window) < r.time && s.minSize < c.currSize)
            && d.currSize in {c.currSize, c.currSize + s.adjustStep, c.currSize - s.adjustStep, s.minSize, s.maxSize}
            && -(s.adjustStep as int) <= d.currSize - c.currSize <= s.adjustStep
            && (d.currSize != c.currSize ==> d.lastAdjustTime == Some(r.stamp))
            && (d.lastAdjustTime != c.lastAdjustTime ==> d.lastAdjustTime == Some(r.stamp) && d.currSize != c.currSize)
  {
    hide Average;
    StepIsExact(s, c.currSize);
  }

  lemma StepIsExact(s: Setting, curr: u64)
    requires Plain(s) && InBounds(s, curr)
    ensures Raise(s, curr) == Min(curr + s.adjustStep, s.maxSize)
    ensures s.minSize < curr ==> Lower(s, curr) == Max(curr - s.adjustStep, s.minSize)
  {
  }

  // ---------------------------------------------------------------- runs

  datatype Run = Run(control: Control, samples: seq<i64>)

  function Respond(s: Setting, run: Run, r: Response): Run {
    var samples := run.samples + [r.time];
    Run(Decide(s, run.control, samples, r), samples)
  }

  function After(s: Setting, start: Run, rs: seq<Response>): Run {
    if rs == [] then start
    else Respond(s, After(s, start, rs[..|rs| - 1]), rs[|rs| - 1])
  }

  /** The batch size stays within its bounds in every run of a configuration that fits. */
  lemma {:induction false} AlwaysInBounds(s: Setting, start: Run, rs: seq<Response>)
    requires s.minSize <= s.maxSize && StepFits(s) && InBounds(s, start.control.currSize)
    ensures InBounds(s, After(s, start, rs).control.currSize)
  {
    if rs != [] {
      AlwaysInBounds(s, start, rs[..|rs| - 1]);
      KeepsBoundsIff(s);
    }
  }

  /** Nothing is adjusted before the window has filled. */
  lemma {:induction false} NoEarlyAdjustment(s: Setting, start: Run, rs: seq<Response>)
    requires |start.samples| + |rs| < s.window
    ensures After(s, start, rs).control == start.control
    ensures |After(s, start, rs).samples| == |start.samples| + |rs|
  {
    if rs != [] {
      NoEarlyAdjustment(s, start, rs[..|rs| - 1]);
    }
  }

  // ---------------------------------------------------------------- and whenever it does not fit

  /** A controller just built at that size. */
  function Built(curr: u64): Run {
    Run(Control(curr, None), [])
  }

  /** A window's worth of responses, the last of which decides. */
  function Responses(first: i64, n: nat, last: i64): seq<Response> {
    seq(n, i => Response(if i == 0 then first else 0, 0, 0)) + [Response(last, 0, 0)]
  }

  /** The samples a run has collected. */
  lemma {:induction false} SamplesOf(s: Setting, start: Run, rs: seq<Response>)
    ensures |After(s, start, rs).samples| == |start.samples| + |rs|
    ensures forall i | 0 <= i < |rs| :: After(s, start, rs).samples[|start.samples| + i] == rs[i].time
  {
    if rs != [] {
      SamplesOf(s, start, rs[..|rs| - 1]);
    }
  }

  lemma WindowAverage(samples: seq<i64>, first: i64, last: i64)
    requires 2 <= |samples| && samples[0] == first && samples[|samples| - 1] == last
    requires forall i | 0 < i < |samples| - 1 :: samples[i] == 0
    requires 0 <= first + last < TWO_63
    ensures Average(samples, |samples|) == (first + last) / |samples|
  {
    var n := |samples|;
    var rest := samples[1..];
    assert rest == rest[..n - 2] + [last];
    AllZero(rest[..n - 2]);
    SumPush(rest[..n - 2], last);
    assert Window(samples, n) == samples;
  }

  lemma ResponsesAre(first: i64, n: nat, last: i64, rs: seq<Response>)
    requires 0 < n && rs == Responses(first, n, last)
    ensures |rs| == n + 1 && rs[0].time == first && rs[n].time == last
    ensures forall i | 0 < i < n :: rs[i].time == 0
  {
  }

  lemma ResponsesAverage(s: Setting, curr: u64, first: i64, last: i64, rs: seq<Response>)
    requires 2 <= s.window < TWO_63 && 0 <= first + last < TWO_63 && rs == Responses(first, s.window - 1, last)
    ensures |After(s, Built(curr), rs).samples| == |rs| == s.window && rs[|rs| - 1].time == last
    ensures Average(After(s, Built(curr), rs).samples, s.window) == (first + last) / s.window
  {
    hide After, Average, Responses;
    ResponsesAre(first, s.window - 1, last, rs);
    SamplesOf(s, Built(curr), rs);
    var samples := After(s, Built(curr), rs).samples;
    forall i | 0 <= i < |rs|
      ensures samples[i] == rs[i].time
    {
      assert samples[|Built(curr).samples| + i] == rs[i].time;
    }
    WindowAverage(samples, first, last);
  }

  lemma AfterLast(s: Setting, start: Run, rs: seq<Response>)
    requires rs != []
    ensures var before := After(s, start, rs[..|rs| - 1]);
            After(s, start, rs) == Respond(s, before, rs[|rs| - 1])
  {
    hide Respond;
  }

  /** From any built size, what the response that fills the window decides. */
  lemma FirstDecision(s: Setting, curr: u64, first: i64, last: i64)
    requires 2 <= s.window < TWO_63 && 0 <= first + last < TWO_63
    ensures var avg := (first + last) / s.window;
            After(s, Built(curr), Responses(first, s.window - 1, last)).control.currSize ==
            if last < avg then Raise(s, curr) else if avg < last then Lower(s, curr) else curr
  {
    hide After, Average, Responses, Raise, Lower;
    var rs := Responses(first, s.window - 1, last);
    ResponsesAverage(s, curr, first, last, rs);
    var n := |rs| - 1;
    AfterLast(s, Built(curr), rs);
    NoEarlyAdjustment(s, Built(curr), rs[..n]);
    RaiseAtMost(s, curr);
  }

  /** At a bound there is nothing to raise or to lower. */
  lemma RaiseAtMost(s: Setting, curr: u64)
    ensures s.maxSize <= curr ==> Raise(s, curr) == curr
    ensures curr <= s.minSize ==> Lower(s, curr) == curr
  {
  }

  /** No run of a controller built within its bounds leaves them. */
  ghost predicate StaysInBounds(s: Setting) {
    forall curr: u64, rs: seq<Response> | InBounds(s, curr) ::
      InBounds(s, After(s, Built(curr), rs).control.currSize)
  }

  /** Exactly when every run stays within the bounds, for a window of at least two responses. */
  lemma StaysInBoundsIff(s: Setting)
    requires s.minSize <= s.maxSize && 2 <= s.window < TWO_63
    ensures StaysInBounds(s) <==> StepFits(s)
  {
    hide After, Raise, Lower, StepFits;
    if StepFits(s) {
      forall curr: u64, rs: seq<Response> | InBounds(s, curr)
        ensures InBounds(s, After(s, Built(curr), rs).control.currSize)
      {
        AlwaysInBounds(s, Built(curr), rs);
      }
    } else {
      KeepsBoundsIff(s);
      var curr: u64 :| InBounds(s, curr) && !(InBounds(s, Raise(s, curr)) && InBounds(s, Lower(s, curr)));
      if !InBounds(s, Raise(s, curr)) {
        SlowThenFast(s, curr);
        assert !InBounds(s, After(s, Built(curr), Responses(s.window, s.window - 1, 0)).control.currSize);
      } else {
        FastThenSlow(s, curr);
        assert !InBounds(s, After(s, Built(curr), Responses(0, s.window - 1, 1)).control.currSize);
      }
    }
  }

  lemma SlowThenFast(s: Setting, curr: u64)
    requires 2 <= s.window < TWO_63
    ensures After(s, Built(curr), Responses(s.window, s.window - 1, 0)).control.currSize == Raise(s, curr)
  {
    hide After, Raise, Lower;
    FirstDecision(s, curr, s.window, 0);
  }

  lemma FastThenSlow(s: Setting, curr: u64)
    requires 2 <= s.window < TWO_63
    ensures After(s, Built(curr), Responses(0, s.window - 1, 1)).control.currSize == Lower(s, curr)
  {
    hide After, Raise, Lower;
    FirstDecision(s, curr, 0, 1);
  }

  /** A window of one response never adjusts: the response is its own average. */
  lemma {:induction false} WindowOfOneIsStill(s: Setting, start: Run, rs: seq<Response>)
    requires s.window == 1
    ensures After(s, start, rs).control == start.control
  {
    if rs != [] {
      var k := |rs| - 1;
      WindowOfOneIsStill(s, start, rs[..k]);
      OwnAverage(After(s, start, rs[..k]).samples, rs[k].time);
      hide Average;
    }
  }

  lemma OwnAverage(samples: seq<i64>, time: i64)
    ensures Average(samples + [time], 1) == time
  {
    assert Window(samples + [time], 1) == [time];
    assert Sum([time]) == time;
  }

  // ---------------------------------------------------------------- drift

  /** Clock readings never go back, and all lie between two moments. */
  ghost predicate Timed(rs: seq<Response>, from: int, to: int) {
    && from <= to
    && (forall i | 0 <= i < |rs| :: from <= rs[i].check <= rs[i].stamp <= to)
    && (forall i, j | 0 <= i < j < |rs| :: rs[i].stamp <= rs[j].check)
  }

  /** The step never wraps: the configuration a caller would expect. */
  predicate Plain(s: Setting) {
    s.minSize <= s.maxSize && s.adjustStep <= s.minSize + 1 && s.maxSize - 1 + s.adjustStep < TWO_64
  }

  /** n adjustments, each at most a step, the last at least n - 1 intervals after `from`. */
  ghost predicate Drifted(s: Setting, start: Control, now: Control, from: int, to: int, n: nat) {
    && InBounds(s, now.currSize)
    && -(Times(n, s.adjustStep)) <= now.currSize - start.currSize <= Times(n, s.adjustStep)
    && (if n == 0 then now == start
        else now.lastAdjustTime.Some? && from + Times(n - 1, s.minAdjustInterval) <= now.lastAdjustTime.value <= to)
  }

  lemma DriftStep(s: Setting, start: Control, c: Control, samples: seq<i64>, r: Response, from: int, to: int, n: nat)
    requires Plain(s) && 0 < s.minAdjustInterval && Drifted(s, start, c, from, to, n)
    requires from <= to <= r.check <= r.stamp
    ensures var d := Decide(s, c, samples, r);
            Drifted(s, start, d, from, r.stamp, if d == c then n else n + 1)
            || Drifted(s, start, d, from, r.stamp, n)
  {
    TimesNext(n, s.adjustStep);
    if 0 < n {
      TimesNext(n - 1, s.minAdjustInterval);
    }
    PlainMove(s, c, samples, r);
    hide Average, Times, Plain, Decide;
  }

  /** One decision: nothing, or at most a step when an adjustment is due. */
  lemma PlainMove(s: Setting, c: Control, samples: seq<i64>, r: Response)
    requires Plain(s) && InBounds(s, c.currSize)
    ensures var d := Decide(s, c, samples, r);
            d == c || (&& Due(s, c, samples, r) && d.lastAdjustTime == Some(r.stamp) && InBounds(s, d.currSize)
                       && 0 - s.adjustStep <= d.currSize - c.currSize <= s.adjustStep)
  {
    hide Average, Due;
  }

  lemma TimesNext(n: nat, x: int)
    ensures Times(n + 1, x) == Times(n, x) + x && Times(0, x) == 0
  {
  }

  lemma {:induction false} DriftRun(s: Setting, start: Run, rs: seq<Response>, from: int, to: int) returns (n: nat)
    requires Plain(s) && 0 < s.minAdjustInterval && InBounds(s, start.control.currSize)
    requires Timed(rs, from, to)
    ensures Drifted(s, start.control, After(s, start, rs).control, from, to, n)
  {
    if rs == [] {
      n := 0;
    } else {
      var k := |rs| - 1;
      var r := rs[k];
      TimedFront(rs, from, to);
      hide Timed, Decide, Plain, InBounds;
      n := DriftRun(s, start, rs[..k], from, r.check);
      var before := After(s, start, rs[..k]);
      DriftStep(s, start.control, before.control, before.samples + [r.time], r, from, r.check, n);
      var after := After(s, start, rs).control;
      hide After, Drifted;
      if !Drifted(s, start.control, after, from, r.stamp, n) {
        n := n + 1;
      }
      DriftedLater(s, start.control, after, from, r.stamp, to, n);
    }
  }

  lemma TimedFront(rs: seq<Response>, from: int, to: int)
    requires Timed(rs, from, to) && rs != []
    ensures var k := |rs| - 1;
            Timed(rs[..k], from, rs[k].check) && from <= rs[k].check <= rs[k].stamp <= to
  {
  }

  lemma DriftedLater(s: Setting, start: Control, now: Control, from: int, to: int, later: int, n: nat)
    requires Drifted(s, start, now, from, to, n) && to <= later
    ensures Drifted(s, start, now, from, later, n)
  {
  }

  /** Over a period T the batch size moves by at most adjustStep * (1 + T / minAdjustInterval). */
  lemma DriftBound(s: Setting, start: Run, rs: seq<Response>, from: int, to: int)
    requires Plain(s) && 0 < s.minAdjustInterval && InBounds(s, start.control.currSize)
    requires Timed(rs, from, to)
    ensures var moved := After(s, start, rs).control.currSize - start.control.currSize;
            var most := s.adjustStep * (1 + (to - from) / s.minAdjustInterval);
            -most <= moved <= most
  {
    var n := DriftRun(s, start, rs, from, to);
    hide After, Decide;
    TimesProduct(n, s.adjustStep);
    var q := (to - from) / s.minAdjustInterval;
    if 0 < n {
      TimesProduct(n - 1, s.minAdjustInterval);
      assert s.minAdjustInterval * (n - 1) == (n - 1) * s.minAdjustInterval;
      QuotientBound(n - 1, to - from, s.minAdjustInterval);
    } else {
      QuotientBound(0, to - from, s.minAdjustInterval);
    }
    MulMonotone(s.adjustStep, n, 1 + q);
    assert n * s.adjustStep == s.adjustStep * n;
  }
}
