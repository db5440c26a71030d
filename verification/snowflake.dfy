/**
 Snowflake ids (internal/pkg/snowflake/id_generator.go): 41 bits of milliseconds since 2025-01-01,
 10 bits of the hash of the business key, 12 bits of a counter, packed into a uint64.
 The hash (xxhash of HashKey) is a parameter: any 64-bit value.
 */
module Snowflake {
  import opened Words
  import opened Bits
  import opened Decimals

  const TIMESTAMP_BITS: nat := 41
  const HASH_BITS: nat := 10
  const SEQUENCE_BITS: nat := 12
  const HASH_SHIFT: nat := 12
  const TIMESTAMP_SHIFT: nat := 22

  const EPOCH_MILLIS: u64 := 1_735_689_600_000
  const NANOS_PER_MILLI: nat := 1_000_000

  function HashKey(bizId: nat, bizKey: string): string {
    Numeral(bizId) + ":" + bizKey
  }

  /** What is hashed reads the number, ":" and the key. */
  lemma HashKeyParts(bizId: nat, bizKey: string)
    ensures var s, end := HashKey(bizId, bizKey), |HashKey(bizId, bizKey)| - |bizKey| - 1;
            0 < end && Value(s[..end]) == bizId && s[end..] == ":" + bizKey
  {
    Parts("", bizId, ":" + bizKey);
    var s, end := HashKey(bizId, bizKey), |HashKey(bizId, bizKey)| - |bizKey| - 1;
    assert s == "" + Numeral(bizId) + (":" + bizKey) && s[0..end] == s[..end];
  }

  /** Different notifications hash different strings. */
  lemma HashKeyInjective(bizId: nat, bizKey: string, bizId': nat, bizKey': string)
    requires HashKey(bizId, bizKey) == HashKey(bizId', bizKey')
    ensures bizId == bizId' && bizKey == bizKey'
  {
    NumeralThen(bizId, bizKey, bizId', bizKey');
  }

  /** time.Now().UnixMilli() - epochMillis, as a uint64. */
  function Timestamp(millis: int): u64 {
    Wrap64(millis - EPOCH_MILLIS)
  }

  function Pack(timestamp: u64, hash: u64, count: u64): nat {
    var time := Wrap64(Shl(And(timestamp, Mask(TIMESTAMP_BITS)), TIMESTAMP_SHIFT));
    var bits := Wrap64(Shl(And(hash, Mask(HASH_BITS)), HASH_SHIFT));
    Or(Or(time, bits), And(count, Mask(SEQUENCE_BITS)))
  }

  function TimestampField(id: nat): nat {
    And(Shr(id, TIMESTAMP_SHIFT), Mask(TIMESTAMP_BITS))
  }

  function ExtractHash(id: nat): nat {
    And(Shr(id, HASH_SHIFT), Mask(HASH_BITS))
  }

  function ExtractSequence(id: nat): nat {
    And(id, Mask(SEQUENCE_BITS))
  }

  /** Nanoseconds since 1970, computed in uint64 and cast to int64. */
  function ExtractTimestamp(id: nat): i64 {
    Signed64(Wrap64(TimestampField(id) + EPOCH_MILLIS) * NANOS_PER_MILLI)
  }

  // ---------------------------------------------------------------- one id

  lemma Powers()
    ensures Pow2(TIMESTAMP_BITS) == 0x200_0000_0000
    ensures Pow2(TIMESTAMP_SHIFT) == 0x40_0000
    ensures Pow2(HASH_SHIFT) == Pow2(SEQUENCE_BITS) == 0x1000
    ensures Pow2(HASH_BITS) == 0x400
  {
    assert Pow2(5) == 0x20 && Pow2(9) == 0x200;
    Pow2Sum(5, 5);
    Pow2Sum(10, 2);
    Pow2Sum(10, 12);
    Pow2Sum(10, 9);
    Pow2Sum(22, 19);
  }

  /** The packing is positional: no field spills into another, and the sign bit stays clear. */
  lemma PackFields(timestamp: u64, hash: u64, count: u64)
    ensures Pack(timestamp, hash, count) ==
            timestamp % 0x200_0000_0000 * 0x40_0000 + hash % 0x400 * 0x1000 + count % 0x1000
    ensures Pack(timestamp, hash, count) < 0x8000_0000_0000_0000
  {
    Powers();
    hide Pow2, And, Or, Shl, Shr, Mask;
    AndMask(timestamp, TIMESTAMP_BITS);
    AndMask(hash, HASH_BITS);
    AndMask(count, SEQUENCE_BITS);
    var t, h, q := timestamp % 0x200_0000_0000, hash % 0x400, count % 0x1000;
    ShlProduct(t, TIMESTAMP_SHIFT);
    ShlProduct(h, HASH_SHIFT);
    OrDisjoint(t, h * 0x1000, TIMESTAMP_SHIFT);
    assert t * 0x40_0000 + h * 0x1000 == (t * 0x400 + h) * 0x1000;
    ShlProduct(t * 0x400 + h, HASH_SHIFT);
    OrDisjoint(t * 0x400 + h, q, SEQUENCE_BITS);
  }

  /** The extractors invert the packing. */
  lemma ExtractPacked(timestamp: u64, hash: u64, count: u64)
    ensures TimestampField(Pack(timestamp, hash, count)) == timestamp % 0x200_0000_0000
    ensures ExtractHash(Pack(timestamp, hash, count)) == hash % 0x400
    ensures ExtractSequence(Pack(timestamp, hash, count)) == count % 0x1000
  {
    hide Pow2, And, Or, Shl, Shr, Mask, Pack;
    PackFields(timestamp, hash, count);
    Powers();
    var id := Pack(timestamp, hash, count);
    var t, h, q := timestamp % 0x200_0000_0000, hash % 0x400, count % 0x1000;
    DivideUnique(id, 0x40_0000, t, h * 0x1000 + q);
    DivideUnique(id, 0x1000, t * 0x400 + h, q);
    DivideUnique(t * 0x400 + h, 0x400, t, h);
    ShrQuotient(id, TIMESTAMP_SHIFT);
    ShrQuotient(id, HASH_SHIFT);
    AndMask(Shr(id, TIMESTAMP_SHIFT), TIMESTAMP_BITS);
    AndMask(Shr(id, HASH_SHIFT), HASH_BITS);
    AndMask(id, SEQUENCE_BITS);
  }

  /** The 69 years the timestamp field can tell apart. */
  predicate InEra(millis: int) {
    EPOCH_MILLIS <= millis < EPOCH_MILLIS + 0x200_0000_0000
  }

  lemma EraFits(millis: int)
    requires InEra(millis)
    ensures Timestamp(millis) % 0x200_0000_0000 == millis - EPOCH_MILLIS
    ensures Signed64(Wrap64(millis) * NANOS_PER_MILLI) == millis * NANOS_PER_MILLI
  {
  }

  /** Within that era ExtractTimestamp gives back the very millisecond, in nanoseconds. */
  lemma ExtractTimestampExact(millis: int, hash: u64, count: u64)
    requires InEra(millis)
    ensures ExtractTimestamp(Pack(Timestamp(millis), hash, count)) == millis * NANOS_PER_MILLI
  {
    EraFits(millis);
    ExtractPacked(Timestamp(millis), hash, count);
    hide Pack, TimestampField, Timestamp, Wrap64, Signed64;
  }

  /** The whole id within the era: milliseconds since 2025-01-01T00:00Z, hash and counter, in positions
      2^22, 2^12 and 1. */
  lemma IdLayout(millis: int, hash: u64, count: u64)
    requires 1_735_689_600_000 <= millis < 1_735_689_600_000 + 0x200_0000_0000
    ensures Pack(Timestamp(millis), hash, count) ==
            (millis - 1_735_689_600_000) * 0x40_0000 + hash % 0x400 * 0x1000 + count % 0x1000
  {
    EraFits(millis);
    PackFields(Timestamp(millis), hash, count);
    hide Pack, Timestamp;
  }

  /** A later millisecond gives a greater id, whatever the hashes and counters. */
  lemma LaterIsGreater(millis: int, hash: u64, count: u64, millis': int, hash': u64, count': u64)
    requires InEra(millis) && InEra(millis') && millis < millis'
    ensures Pack(Timestamp(millis), hash, count) < Pack(Timestamp(millis'), hash', count')
  {
    PackFields(Timestamp(millis), hash, count);
    PackFields(Timestamp(millis'), hash', count');
    hide Pack;
  }

  // ---------------------------------------------------------------- runs of one generator

  class Generator {
    var sequence: u64

    constructor ()
      ensures sequence == 0
    {
      sequence := 0;
    }

    method NextId(millis: int, hash: u64) returns (id: nat)
      modifies this
      ensures id == Pack(Timestamp(millis), hash, old(sequence))
      ensures sequence == Wrap64(old(sequence) + 1)
    {
      var count := sequence;
      sequence := Wrap64(sequence + 1);
      id := Pack(Timestamp(millis), hash, count);
    }
  }

  /** One call of NextId: the clock reading it got and the hash of its key. */
  datatype Call = Call(millis: int, hash: u64)

  /** The id of the k-th call after the counter stood at `first`: the counter wraps at 2^64. */
  function IdOf(first: u64, calls: seq<Call>, k: nat): nat
    requires k < |calls|
  {
    Pack(Timestamp(calls[k].millis), calls[k].hash, Wrap64(first + k))
  }

  /** Exactly when two calls of one generator return the same id. */
  lemma SameIdIff(first: u64, calls: seq<Call>, i: nat, j: nat)
    requires i < |calls| && j < |calls|
    ensures IdOf(first, calls, i) == IdOf(first, calls, j) <==>
            && (calls[i].millis - calls[j].millis) % 0x200_0000_0000 == 0
            && calls[i].hash % 0x400 == calls[j].hash % 0x400
            && (i - j) % 0x1000 == 0
  {
    hide Pack;
    PackFields(Timestamp(calls[i].millis), calls[i].hash, Wrap64(first + i));
    PackFields(Timestamp(calls[j].millis), calls[j].hash, Wrap64(first + j));
    SameRemainder(calls[i].millis - EPOCH_MILLIS, calls[j].millis - EPOCH_MILLIS);
    SameCounter(first + i, first + j);
    hide *;
    SameFields(Timestamp(calls[i].millis) % 0x200_0000_0000, calls[i].hash % 0x400, Wrap64(first + i) % 0x1000,
               Timestamp(calls[j].millis) % 0x200_0000_0000, calls[j].hash % 0x400, Wrap64(first + j) % 0x1000);
  }

  lemma SameFields(t: nat, h: nat, q: nat, t': nat, h': nat, q': nat)
    requires h < 0x400 && q < 0x1000 && h' < 0x400 && q' < 0x1000
    ensures t * 0x40_0000 + h * 0x1000 + q == t' * 0x40_0000 + h' * 0x1000 + q' <==>
            t == t' && h == h' && q == q'
  {
  }

  lemma SameRemainder(a: int, b: int)
    ensures Wrap64(a) % 0x200_0000_0000 == Wrap64(b) % 0x200_0000_0000 <==> (a - b) % 0x200_0000_0000 == 0
  {
    ModMod(a, 0x80_0000, 0x200_0000_0000);
    ModMod(b, 0x80_0000, 0x200_0000_0000);
    SameMod(a, b, 0x200_0000_0000);
  }

  lemma SameCounter(a: int, b: int)
    ensures Wrap64(a) % 0x1000 == Wrap64(b) % 0x1000 <==> (a - b) % 0x1000 == 0
  {
    ModMod(a, 0x10_0000_0000_0000, 0x1000);
    ModMod(b, 0x10_0000_0000_0000, 0x1000);
    SameMod(a, b, 0x1000);
  }

  /** Readings within the era, and no two equal ones 4096 or more counter steps apart. */
  ghost predicate Close(calls: seq<Call>) {
    && (forall k | 0 <= k < |calls| :: InEra(calls[k].millis))
    && (forall i, j | 0 <= i < j < |calls| && calls[i].millis == calls[j].millis :: j - i < 0x1000)
  }

  /** Ids of one generator are then pairwise distinct, wherever its counter started and in whatever
      order the readings come. */
  lemma CloseIdsDistinct(first: u64, calls: seq<Call>, i: nat, j: nat)
    requires Close(calls) && i < j < |calls|
    ensures IdOf(first, calls, i) != IdOf(first, calls, j)
  {
    SameIdIff(first, calls, i, j);
    hide IdOf;
    if IdOf(first, calls, i) == IdOf(first, calls, j) {
      NearMultiple(calls[j].millis - calls[i].millis);
      FarCounters(j - i);
    }
  }

  /** Callers one after another: a clock that never goes back within the era, and at most 4096 calls in
      one millisecond. */
  ghost predicate Orderly(calls: seq<Call>) {
    && (forall k | 0 <= k < |calls| :: InEra(calls[k].millis))
    && (forall i, j | 0 <= i <= j < |calls| :: calls[i].millis <= calls[j].millis)
    && (forall i, j | 0 <= i < |calls| && j == i + 0x1000 && j < |calls| :: calls[i].millis < calls[j].millis)
  }

  lemma OrderlyIsClose(calls: seq<Call>)
    requires Orderly(calls)
    ensures Close(calls)
  {
    forall i, j | 0 <= i < j < |calls| && calls[i].millis == calls[j].millis
      ensures j - i < 0x1000
    {
      if 0x1000 <= j - i {
        ManyCallsTakeTime(calls, i, j);
      }
    }
  }

  /** Ids of one generator are pairwise distinct for serial callers. */
  lemma IdsDistinct(first: u64, calls: seq<Call>, i: nat, j: nat)
    requires Orderly(calls) && i < j < |calls|
    ensures IdOf(first, calls, i) != IdOf(first, calls, j)
  {
    hide IdOf;
    OrderlyIsClose(calls);
    CloseIdsDistinct(first, calls, i, j);
  }

  lemma ManyCallsTakeTime(calls: seq<Call>, i: nat, j: nat)
    requires Orderly(calls) && i + 0x1000 <= j < |calls|
    ensures calls[i].millis < calls[j].millis
  {
    assert calls[i].millis < calls[i + 0x1000].millis;
  }

  lemma NearMultiple(d: int)
    requires -0x200_0000_0000 < d < 0x200_0000_0000 && -d % 0x200_0000_0000 == 0
    ensures d == 0
  {
  }

  lemma FarCounters(d: int)
    requires 0 < d && -d % 0x1000 == 0
    ensures 0x1000 <= d
  {
  }
}
