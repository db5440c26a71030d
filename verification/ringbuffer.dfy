/**
 The duration window of internal/pkg/ringbuffer/ringbuffer.go: a fixed ring of int64 samples and a
 running sum that is adjusted by wrapping additions and subtractions.
 */
module RingBuffer {
  import opened Words
  import opened Sums
  import opened Windows

  /** Integer division of the source: towards zero, here by a positive divisor. */
  function TruncatedQuotient(a: int, b: nat): int
    requires 0 < b
  {
    if a < 0 then -(-a / b) else a / b
  }

  /** What Avg answers for the samples since the last reset. */
  function Average(samples: seq<i64>, size: nat): int {
    var window := Window(samples, size);
    if window == [] then 0 else TruncatedQuotient(Signed64(Sum(window)), |window|)
  }

  lemma {:induction false} SumBetween(s: seq<int>, lo: int, hi: int)
    requires forall i | 0 <= i < |s| :: lo <= s[i] <= hi
    ensures |s| * lo <= Sum(s) <= |s| * hi
  {
    if s != [] {
      SumBetween(s[1..], lo, hi);
      assert |s| * lo == |s[1..]| * lo + lo && |s| * hi == |s[1..]| * hi + hi;
    }
  }

  /** The average times the number of samples is the sum, short of less than that number and never past
      it: the quotient is taken towards zero. */
  lemma AverageIsQuotient(samples: seq<i64>, size: nat)
    requires 0 < size && samples != []
    ensures var n := if |samples| < size then |samples| else size;
            var total, avg := Sum(samples[|samples| - n..]), Average(samples, size);
            -TWO_63 <= total < TWO_63 ==>
              if 0 <= total then avg * n <= total < avg * n + n else avg * n - n < total <= avg * n
  {
    var n, total := |Window(samples, size)|, Sum(Window(samples, size));
    assert 0 < n && Window(samples, size) == samples[|samples| - n..];
    hide Sum, Window;
    TruncatedParts(total, n);
    if -TWO_63 <= total < TWO_63 {
      SignedFits(total);
    }
  }

  lemma SignedFits(x: int)
    requires -TWO_63 <= x < TWO_63
    ensures Signed64(x) == x
  {
  }

  lemma TruncatedParts(total: int, n: nat)
    requires 0 < n
    ensures var avg := TruncatedQuotient(total, n);
            if 0 <= total then avg * n <= total < avg * n + n else avg * n - n < total <= avg * n
  {
    var a := if total < 0 then -total else total;
    assert a == n * (a / n) + a % n;
    assert (a / n) * n == n * (a / n) && -(a / n) * n == -((a / n) * n);
  }

  /** For non-negative samples whose sum fits, the average lies among the samples. */
  lemma AverageBetween(samples: seq<i64>, size: nat, lo: nat, hi: int)
    requires 0 < size && samples != []
    requires var window := Window(samples, size);
             Sum(window) < TWO_63 && forall i | 0 <= i < |window| :: lo <= window[i] <= hi
    ensures lo <= Average(samples, size) <= hi
  {
    var window := Window(samples, size);
    var n, total := |window|, Sum(window);
    hide Sum;
    SumBetween(window, lo, hi);
    QuotientBetween(total, n, lo, hi);
  }

  lemma QuotientBetween(total: int, n: nat, lo: nat, hi: int)
    requires 0 < n && n * lo <= total <= n * hi
    ensures 0 <= total && lo <= total / n <= hi
  {
    MulMonotone(n, 0, lo);
    QuotientBound(lo, total, n);
    assert total == n * (total / n) + total % n;
    assert n * (hi + 1) == n * hi + n;
    CancelFactor(n, total / n, hi);
  }

  /** The recent samples sit in the ring, each at its slot. */
  ghost predicate Stores(buffer: seq<i64>, size: nat, samples: seq<i64>) {
    && 0 < size == |buffer|
    && forall k | 0 <= k < |samples| && |samples| - size <= k :: buffer[Slot(k, size)] == samples[k]
  }

  lemma StoresAdd(buffer: seq<i64>, size: nat, samples: seq<i64>, d: i64)
    requires Stores(buffer, size, samples)
    ensures Stores(buffer[Slot(|samples|, size) := d], size, samples + [d])
  {
    forall k | 0 <= k < |samples| && |samples| + 1 - size <= k
      ensures Slot(k, size) != Slot(|samples|, size)
    {
      SlotsDiffer(k, |samples|, size);
    }
  }

  /** One more sample: the oldest leaves a full window. */
  lemma WindowSum(samples: seq<i64>, size: nat, d: i64)
    requires 0 < size
    ensures Sum(Window(samples + [d], size)) ==
            Sum(Window(samples, size)) - (if size <= |samples| then samples[|samples| - size] else 0) + d
  {
    var w := Window(samples, size);
    if |samples| < size {
      SumPush(samples, d);
    } else {
      assert Window(samples + [d], size) == w[1..] + [d];
      SumPush(w[1..], d);
    }
  }

  lemma SignedStep(a: int, out: int, d: int)
    ensures Signed64(Signed64(Signed64(a) - out) + d) == Signed64(a - out + d)
  {
  }

  class TimeDurationRingBuffer {
    const buffer: array<i64>
    const size: nat
    var count: nat
    var writePos: nat
    var sum: i64

    /** The samples added since the last reset. */
    ghost var samples: seq<i64>

    ghost predicate Valid()
      reads this, buffer
    {
      && Stores(buffer[..], size, samples)
      && count == |Window(samples, size)|
      && writePos == Slot(|samples|, size)
      && sum == Signed64(Sum(Window(samples, size)))
    }

    constructor (size: nat)
      requires 0 < size
      ensures Valid() && samples == [] && this.size == size && fresh(buffer)
    {
      this.buffer := new i64[size](_ => 0);
      this.size := size;
      this.count, this.writePos, this.sum, this.samples := 0, 0, 0, [];
    }

    method Add(d: i64)
      requires Valid()
      modifies this, buffer
      ensures Valid() && samples == old(samples) + [d]
    {
      hide Stores, Slot, Sum, Signed64;
      ghost var total := Sum(Window(samples, size));
      StoresAdd(buffer[..], size, samples, d);
      StoresOldest(buffer[..], size, samples);
      WindowSum(samples, size, d);
      SlotNext(|samples|, size);
      SignedStep(total, if size <= |samples| then samples[|samples| - size] else 0, d);
      SignedKept(sum);
      if count == size {
        sum := Signed64(sum - buffer[writePos]);
      } else {
        count := count + 1;
      }
      buffer[writePos] := d;
      sum := Signed64(sum + d);
      writePos := (writePos + 1) % size;
      samples := samples + [d];
    }

    method Avg() returns (avg: int)
      requires Valid()
      ensures avg == Average(samples, size) && (samples == [] ==> avg == 0)
    {
      if count == 0 {
        return 0;
      }
      return TruncatedQuotient(sum, count);
    }

    method Reset()
      requires Valid()
      modifies this, buffer
      ensures Valid() && samples == []
    {
      for i := 0 to size
        invariant size == buffer.Length
      {
        buffer[i] := 0;
      }
      sum, count, writePos := 0, 0, 0;
      samples := [];
    }

    method Count() returns (n: nat)
      requires Valid()
      ensures n == |Window(samples, size)|
    {
      n := count;
    }
  }

  lemma StoresOldest(buffer: seq<i64>, size: nat, samples: seq<i64>)
    requires Stores(buffer, size, samples)
    ensures 0 < size == |buffer|
    ensures size <= |samples| ==> buffer[Slot(|samples|, size)] == samples[|samples| - size]
  {
    OldestSlot(|samples|, size);
  }

  lemma SignedKept(x: i64)
    ensures Signed64(x) == x
  {
  }

  /** However many earlier sums overflowed, the ring's sum is exact whenever the window's own sum fits,
      and then alone. */
  lemma SumExactWhenFits(rb: TimeDurationRingBuffer)
    requires rb.Valid()
    ensures rb.sum == Sum(Window(rb.samples, rb.size)) <==> -TWO_63 <= Sum(Window(rb.samples, rb.size)) < TWO_63
  {
    hide Window, Sum, Stores;
    FitsIff(Sum(Window(rb.samples, rb.size)));
  }

  lemma FitsIff(x: int)
    ensures Signed64(x) == x <==> -TWO_63 <= x < TWO_63
  {
  }

  /** NewTimeDurationRingBuffer refuses a size that is not positive. */
  method NewTimeDurationRingBuffer(size: int) returns (rb: TimeDurationRingBuffer?)
    ensures rb == null <==> size <= 0
    ensures rb != null ==> fresh(rb) && fresh(rb.buffer) && rb.Valid() && rb.samples == [] && rb.size == size
  {
    if size <= 0 {
      return null;
    }
    rb := new TimeDurationRingBuffer(size);
  }
}
