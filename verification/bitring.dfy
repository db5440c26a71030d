/**
 The error window of internal/pkg/bitring/bitring.go: the last windowSize events packed into 64-bit
 words, with a running count. The object is proved to be the sequence of those events: its history
 is a ghost field, and every operation is stated on it.
 */
module BitRing {
  import opened Words
  import opened Bits
  import opened Windows

  function Count(events: seq<bool>): nat {
    if events == [] then 0 else Count(events[..|events| - 1]) + (if events[|events| - 1] then 1 else 0)
  }

  /** The last n events exist and are all true. */
  ghost predicate LastAll(history: seq<bool>, n: nat) {
    n <= |history| && forall i | |history| - n <= i < |history| :: history[i]
  }

  /** What ThresholdTriggering answers: a long enough unbroken tail of events, or too high a share of
      events in the window. Rates are exact here. */
  ghost predicate Triggering(history: seq<bool>, size: nat, consecutive: nat, rate: real) {
    var window := Window(history, size);
    && window != []
    && (LastAll(history, consecutive) || Count(window) as real / |window| as real > rate)
  }

  // ---------------------------------------------------------------- counting a sliding window

  lemma CountPush(events: seq<bool>, e: bool)
    ensures Count(events + [e]) == Count(events) + (if e then 1 else 0)
  {
    assert (events + [e])[..|events|] == events;
  }

  lemma {:induction false} CountShift(events: seq<bool>)
    requires events != []
    ensures Count(events) == (if events[0] then 1 else 0) + Count(events[1..])
  {
    var n := |events| - 1;
    if n != 0 {
      CountShift(events[..n]);
      assert events[..n][1..] == events[1..][..n - 1];
    }
  }

  lemma {:induction false} CountBounds(events: seq<bool>)
    ensures Count(events) <= |events|
    ensures (forall i | 0 <= i < |events| :: events[i]) ==> Count(events) == |events|
  {
    if events != [] {
      CountBounds(events[..|events| - 1]);
    }
  }

  /** One more event: the oldest leaves a full window. */
  lemma WindowCount(history: seq<bool>, size: nat, e: bool)
    requires 0 < size
    ensures Count(Window(history + [e], size)) ==
            Count(Window(history, size))
            - (if size <= |history| && history[|history| - size] then 1 else 0)
            + (if e then 1 else 0)
  {
    var w := Window(history, size);
    if |history| < size {
      CountPush(history, e);
    } else {
      CountShift(w);
      assert w[0] == history[|history| - size];
      assert Window(history + [e], size) == w[1..] + [e];
      CountPush(w[1..], e);
    }
  }

  /** A rate threshold of 1 or more never fires by itself. */
  lemma FullRateNeedsTail(history: seq<bool>, size: nat, consecutive: nat, rate: real)
    requires 1.0 <= rate
    ensures Triggering(history, size, consecutive, rate) <==>
            Window(history, size) != [] && LastAll(history, consecutive)
  {
    var w := Window(history, size);
    CountBounds(w);
    if w != [] {
      assert Count(w) as real / |w| as real <= 1.0 by {
        ShareAtMostOne(Count(w) as real, |w| as real);
      }
    }
  }

  lemma CountIsSize(events: seq<bool>)
    ensures Count(events) == |set i: nat | i < |events| && events[i]|
  {
    CountFirst(events, |events|);
    assert events[..|events|] == events;
    assert (set i: nat | i < |events| && events[i]) == TrueBelow(events, |events|);
  }

  ghost function TrueBelow(events: seq<bool>, n: nat): set<nat>
    requires n <= |events|
  {
    set i: nat | i < n && events[i]
  }

  lemma {:induction false} CountFirst(events: seq<bool>, n: nat)
    requires n <= |events|
    ensures Count(events[..n]) == |TrueBelow(events, n)|
  {
    if n == 0 {
      assert TrueBelow(events, n) == {};
    } else {
      CountFirst(events, n - 1);
      assert events[..n][..n - 1] == events[..n - 1];
      assert TrueBelow(events, n) == TrueBelow(events, n - 1) + (if events[n - 1] then {n - 1} else {});
    }
  }

  /** For a rate of p/q, in whole numbers: with any event at all, the ring triggers exactly when the last
      consecutiveThreshold events are all errors, or more than p in q of the last windowSize are. */
  lemma TriggersIff(history: seq<bool>, size: nat, consecutive: nat, p: int, q: nat)
    requires 0 < size && 0 < q
    ensures var n := if |history| < size then |history| else size;
            var window := history[|history| - n..];
            Triggering(history, size, consecutive, p as real / q as real) <==>
            && history != []
            && (|| (consecutive <= |history| && forall i | |history| - consecutive <= i < |history| :: history[i])
                || p * n < q * |set i: nat | i < n && window[i]|)
  {
    var window := Window(history, size);
    CountIsSize(window);
    if history != [] {
      CompareShares(Count(window), |window|, p, q);
    }
  }

  lemma CompareShares(a: nat, b: nat, p: int, q: nat)
    requires 0 < b && 0 < q
    ensures a as real / b as real > p as real / q as real <==> p * b < q * a
  {
    var x, y, s, t := a as real, b as real, p as real, q as real;
    CrossMultiply(x, y, s, t);
    assert (p * b) as real == s * y && (q * a) as real == t * x;
  }

  lemma CrossMultiply(x: real, y: real, s: real, t: real)
    requires 0.0 < y && 0.0 < t
    ensures x / y > s / t <==> s * y < t * x
  {
    var u, v := x / y, s / t;
    assert x == u * y && s == v * t;
    assert s * y == (t * y) * v && t * x == (t * y) * u;
    RealOrder(t * y, v, u);
  }

  lemma RealOrder(d: real, v: real, u: real)
    requires 0.0 < d
    ensures d * v < d * u <==> v < u
  {
  }

  lemma ShareAtMostOne(a: real, b: real)
    requires 0.0 < b && a <= b
    ensures a / b <= 1.0
  {
  }

  // ---------------------------------------------------------------- the packed words

  ghost predicate Cell(words: seq<u64>, i: nat)
    requires i / 64 < |words|
  {
    Bit(words[i / 64], i % 64)
  }

  lemma WordIndex(i: nat)
    ensures Shr(i, 6) == i / 64 && And(i, Mask(6)) == i % 64
  {
    ShrQuotient(i, 6);
    AndMask(i, 6);
    assert Pow2(6) == 64;
  }

  lemma Pow2Of64()
    ensures Pow2(64) == TWO_64
  {
    Pow2OfWord(64);
  }

  lemma Pow2OfNibble(n: nat)
    requires n == 4
    ensures Pow2(n) == 0x10
  {
    assert Pow2(n - 3) == 2 && Pow2(n - 2) == 4;
  }

  lemma Pow2OfWord(n: nat)
    requires n == 64
    ensures Pow2(n) == TWO_64
  {
    hide Pow2;
    Pow2OfNibble(4);
    Pow2Sum(4, 4);
    Pow2Sum(8, 8);
    Pow2Sum(16, 16);
    Pow2Sum(32, n - 32);
  }

  /** 1 << offset fits a word. */
  lemma OneFits(offset: nat)
    requires offset < 64
    ensures Shl(1, offset) < TWO_64
  {
    ShlProduct(1, offset);
    Pow2Monotone(offset, 64);
    Pow2Of64();
  }

  function SetWord(word: u64, offset: nat, val: bool): (r: u64)
    requires offset < 64
  {
    OneFits(offset);
    Pow2Of64();
    if val then
      OrBelow(word, Shl(1, offset), 64);
      Or(word, Shl(1, offset))
    else
      AndNotBelow(word, Shl(1, offset));
      AndNot(word, Shl(1, offset))
  }

  lemma SetWordBit(word: u64, offset: nat, val: bool, k: nat)
    requires offset < 64
    ensures Bit(SetWord(word, offset, val), k) == if k == offset then val else Bit(word, k)
  {
    OneBit(offset, k);
    OrBit(word, Shl(1, offset), k);
    AndNotBit(word, Shl(1, offset), k);
  }

  lemma SetCell(words: seq<u64>, i: nat, val: bool, j: nat)
    requires i / 64 < |words| && j / 64 < |words|
    ensures Cell(words[i / 64 := SetWord(words[i / 64], i % 64, val)], j) == if j == i then val else Cell(words, j)
  {
    SetWordBit(words[i / 64], i % 64, val, j % 64);
  }

  // ---------------------------------------------------------------- the ring

  /** Event number k of the history sits at position k modulo the window size, while it is recent. */
  ghost predicate Decodes(words: seq<u64>, size: nat, history: seq<bool>) {
    && 0 < size <= |words| * 64
    && forall k | 0 <= k < |history| && |history| - size <= k ::
         Slot(k, size) / 64 < |words| && Cell(words, Slot(k, size)) == history[k]
  }

  lemma DecodesAdd(words: seq<u64>, size: nat, history: seq<bool>, e: bool)
    requires Decodes(words, size, history)
    ensures Slot(|history|, size) / 64 < |words|
    ensures var i := Slot(|history|, size);
            Decodes(words[i / 64 := SetWord(words[i / 64], i % 64, e)], size, history + [e])
  {
    hide SetWord;
    var i := Slot(|history|, size);
    var r := words[i / 64 := SetWord(words[i / 64], i % 64, e)];
    var h := history + [e];
    forall k | 0 <= k < |h| && |h| - size <= k
      ensures Slot(k, size) / 64 < |r| && Cell(r, Slot(k, size)) == h[k]
    {
      SetCell(words, i, e, Slot(k, size));
      if k < |history| {
        SlotsDiffer(k, |history|, size);
      }
    }
  }

  /** The fields of a ring whose history is this. */
  ghost predicate Holds(words: seq<u64>, size: nat, history: seq<bool>, writePos: nat, isFull: bool, eventCount: int) {
    && Decodes(words, size, history)
    && writePos == Slot(|history|, size)
    && isFull == (size <= |history|)
    && (!isFull ==> writePos == |history|)
    && eventCount == Count(Window(history, size))
  }

  /** The bit written i events ago. */
  lemma RecentBit(words: seq<u64>, size: nat, history: seq<bool>, i: nat)
    requires Decodes(words, size, history) && 0 < i <= |history| && i <= size
    ensures 0 <= Slot(|history|, size) - i + size
    ensures ((Slot(|history|, size) - i + size) % size) / 64 < |words|
    ensures Cell(words, (Slot(|history|, size) - i + size) % size) == history[|history| - i]
  {
    SlotBack(|history|, i, size);
  }

  /** What Add must do to the fields. */
  lemma AddEffect(words: seq<u64>, size: nat, history: seq<bool>, e: bool)
    requires Decodes(words, size, history)
    ensures var i, n := Slot(|history|, size), |history|;
            && i / 64 < |words|
            && var words' := words[i / 64 := SetWord(words[i / 64], i % 64, e)];
               var gone := size <= n && Cell(words, i);
               var count := Count(Window(history, size)) - (if gone then 1 else 0) + (if e then 1 else 0);
               var next := if i + 1 >= size then 0 else i + 1;
               Holds(words', size, history + [e], next, size <= n || i + 1 >= size, count)
  {
    hide SetWord, Cell, Count, Window;
    var n := |history|;
    DecodesAdd(words, size, history, e);
    WindowCount(history, size, e);
    SlotNext(n, size);
    OldestSlot(n, size);
    EarlySlot(n, size);
    EarlySlot(n + 1, size);
    if size <= n {
      assert Cell(words, Slot(n - size, size)) == history[n - size];
    }
  }

  class BitRing {
    const words: array<u64>
    const windowSize: nat
    var writePos: nat
    var isFull: bool
    var eventCount: int
    const consecutiveThreshold: nat
    const eventRateThreshold: real

    ghost var history: seq<bool>

    ghost predicate Valid()
      reads this, words
    {
      && 0 < consecutiveThreshold <= windowSize
      && Holds(words[..], windowSize, history, writePos, isFull, eventCount)
    }

    /** Out-of-range settings fall back to 128, 3, the window size and 1. */
    constructor (windowSize: int, consecutiveThreshold: int, eventRateThreshold: real)
      ensures Valid() && history == [] && fresh(words)
      ensures this.windowSize == if windowSize <= 0 then 128 else windowSize
      ensures this.consecutiveThreshold ==
              var c := if consecutiveThreshold <= 0 then 3 else consecutiveThreshold;
              if this.windowSize < c then this.windowSize else c
      ensures this.eventRateThreshold == if eventRateThreshold > 1.0 then 1.0 else eventRateThreshold
    {
      var size := if windowSize <= 0 then 128 else windowSize;
      var consecutive := if consecutiveThreshold <= 0 then 3 else consecutiveThreshold;
      if consecutive > size {
        consecutive := size;
      }
      this.words := new u64[(size + 63) / 64](_ => 0);
      this.windowSize, this.consecutiveThreshold := size, consecutive;
      this.eventRateThreshold := if eventRateThreshold > 1.0 then 1.0 else eventRateThreshold;
      this.writePos, this.isFull, this.eventCount, this.history := 0, false, 0, [];
    }

    method BitAt(index: nat) returns (set_: bool)
      requires index / 64 < words.Length
      ensures set_ == Cell(words[..], index)
    {
      WordIndex(index);
      var pos, offset := Shr(index, 6), And(index, Mask(6));
      BitByShift(words[pos], offset);
      set_ := And(Shr(words[pos], offset), 1) == 1;
    }

    method SetBit(index: nat, val: bool)
      requires index / 64 < words.Length
      modifies words
      ensures words[..] == old(words[..])[index / 64 := SetWord(old(words[index / 64]), index % 64, val)]
    {
      WordIndex(index);
      var pos, offset := Shr(index, 6), And(index, Mask(6));
      OneFits(offset);
      Pow2Of64();
      if val {
        OrBelow(words[pos], Shl(1, offset), 64);
        words[pos] := Or(words[pos], Shl(1, offset));
        return;
      }
      AndNotBelow(words[pos], Shl(1, offset));
      words[pos] := AndNot(words[pos], Shl(1, offset));
    }

    method Add(eventHappened: bool)
      requires Valid()
      modifies this, words
      ensures Valid() && history == old(history) + [eventHappened]
    {
      hide Decodes, SetWord, Cell, Slot, Count, Window;
      AddEffect(words[..], windowSize, history, eventHappened);
      var oldBit := BitAt(writePos);
      if isFull && oldBit {
        eventCount := eventCount - 1;
      }
      SetBit(writePos, eventHappened);
      if eventHappened {
        eventCount := eventCount + 1;
      }
      writePos := writePos + 1;
      if writePos >= windowSize {
        writePos := 0;
        isFull := true;
      }
      history := history + [eventHappened];
    }

    function CurrWindowSize(): nat
      reads this
    {
      if isFull then windowSize else writePos
    }

    method ThresholdTriggering() returns (triggered: bool)
      requires Valid()
      ensures triggered == Triggering(history, windowSize, consecutiveThreshold, eventRateThreshold)
    {
      var currSize := CurrWindowSize();
      assert currSize == |Window(history, windowSize)|;
      if currSize == 0 {
        return false;
      }
      if currSize >= consecutiveThreshold {
        var all := true;
        var i := 1;
        while i <= consecutiveThreshold
          invariant 1 <= i <= consecutiveThreshold + 1
          invariant LastAll(history, i - 1)
        {
          hide *;
          RecentBit(words[..], windowSize, history, i);
          LastAllStep(history, i);
          var pos := (writePos - i + windowSize) % windowSize;
          var hit := BitAt(pos);
          if !hit {
            all := false;
            break;
          }
          i := i + 1;
        }
        if all {
          return true;
        }
      }
      return eventCount as real / currSize as real > eventRateThreshold;
    }
  }

  lemma LastAllStep(history: seq<bool>, i: nat)
    requires 0 < i <= |history|
    ensures LastAll(history, i) <==> LastAll(history, i - 1) && history[|history| - i]
  {
  }
}
