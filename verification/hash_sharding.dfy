/**
 Database and table sharding by hash (internal/pkg/sharding/hash_sharding.go), and the lock key the
 loop job derives from a destination.
 */
module HashSharding {
  import opened Words
  import opened Sums
  import opened Bits
  import opened Decimals
  import opened Snowflake

  datatype Dst = Dst(dbSuffix: nat, tableSuffix: nat, db: string, table: string)

  datatype HashStrategy = HashStrategy(dbPrefix: string, tablePrefix: string, dbSharding: nat, tableSharding: nat) {
    /** Neither count may be zero: the source divides by both. */
    predicate Valid() {
      0 < dbSharding && 0 < tableSharding
    }

    function At(i: nat, j: nat): Dst {
      Dst(i, j, dbPrefix + "_" + Numeral(i), tablePrefix + "_" + Numeral(j))
    }

    function Route(hash: nat): Dst
      requires Valid()
    {
      At(hash % dbSharding, hash / dbSharding % tableSharding)
    }

    /** The destination of a business key, given its hash. */
    function Shard(hash: u64): Dst
      requires Valid()
    {
      Route(hash)
    }

    function ShardWithId(id: nat): Dst
      requires Valid()
    {
      Route(ExtractHash(id))
    }

    /** The first j tables of database i. */
    function Tables(i: nat, j: nat): seq<Dst> {
      if j == 0 then [] else Tables(i, j - 1) + [At(i, j - 1)]
    }

    /** All tables of the first i databases. */
    function Listing(i: nat): seq<Dst> {
      if i == 0 then [] else Listing(i - 1) + Tables(i - 1, tableSharding)
    }

    method BroadCast() returns (res: seq<Dst>)
      ensures res == Listing(dbSharding)
    {
      res := [];
      for i := 0 to dbSharding
        invariant res == Listing(i)
      {
        for j := 0 to tableSharding
          invariant res == Listing(i) + Tables(i, j)
        {
          res := res + [At(i, j)];
        }
      }
    }
  }

  // ---------------------------------------------------------------- one route from the id alone

  /** The two suffixes are the remainder modulo the number of tables, written in mixed radix. */
  lemma RouteByRemainder(h: nat, d: nat, t: nat)
    requires 0 < d && 0 < t
    ensures 0 < d * t
    ensures h % (d * t) == h / d % t * d + h % d
  {
    var q, r := h / d, h % d;
    var q', r' := q / t, q % t;
    assert h == d * q + r && q == t * q' + r';
    ComposeRemainders(d, t, q', r', r);
    DivideUnique(h, d * t, q', r' * d + r);
  }

  lemma ComposeRemainders(d: nat, t: nat, q: int, r': nat, r: nat)
    requires r < d && r' < t
    ensures r' * d + r < d * t
    ensures d * (t * q + r') + r == (d * t) * q + (r' * d + r)
  {
    MulMonotone(d, r' + 1, t);
    assert d * (r' + 1) == d * r' + d && d * r' == r' * d;
    Distribute(d, t * q, r');
    assert d * (t * q) == (d * t) * q;
  }

  lemma MixedRadixUnique(a: nat, b: nat, a': nat, b': nat, d: nat)
    requires b < d && b' < d && a * d + b == a' * d + b'
    ensures a == a' && b == b'
  {
    assert a * d == d * a && a' * d == d * a';
    DivideUnique(a * d + b, d, a, b);
    DivideUnique(a' * d + b', d, a', b');
  }

  /** Two hashes have one destination exactly when they agree modulo the number of tables. */
  lemma SameRouteIff(s: HashStrategy, h: nat, h': nat)
    requires s.Valid()
    ensures 0 < s.dbSharding * s.tableSharding
    ensures s.Route(h) == s.Route(h') <==>
            h % (s.dbSharding * s.tableSharding) == h' % (s.dbSharding * s.tableSharding)
  {
    var d, t := s.dbSharding, s.tableSharding;
    RouteByRemainder(h, d, t);
    RouteByRemainder(h', d, t);
    if h % (d * t) == h' % (d * t) {
      MixedRadixUnique(h / d % t, h % d, h' / d % t, h' % d, d);
    }
  }

  /** A name made of a prefix, "_" and a number. */
  ghost predicate Named(name: string, prefix: string, n: nat) {
    |prefix| + 1 < |name| && name[..|prefix|] == prefix && name[|prefix|] == '_' && Value(name[|prefix| + 1..]) == n
  }

  lemma SuffixNames(prefix: string, n: nat)
    ensures Named(prefix + "_" + Numeral(n), prefix, n)
  {
    Parts(prefix + "_", n, "");
    var name := prefix + "_" + Numeral(n);
    assert name == prefix + "_" + Numeral(n) + "" && name[|prefix| + 1..|name|] == name[|prefix| + 1..];
    assert name[..|prefix|] == name[..|prefix| + 1][..|prefix|] == prefix;
  }

  /** The numbers in a destination are the remainder of the hash modulo the number of tables, the
      database running fastest, and they are what its two names end in. */
  ghost predicate RoutedTo(s: HashStrategy, hash: nat, dst: Dst) {
    && dst.dbSuffix < s.dbSharding && dst.tableSuffix < s.tableSharding
    && 0 < s.dbSharding * s.tableSharding
    && hash % (s.dbSharding * s.tableSharding) == dst.tableSuffix * s.dbSharding + dst.dbSuffix
    && Named(dst.db, s.dbPrefix, dst.dbSuffix) && Named(dst.table, s.tablePrefix, dst.tableSuffix)
  }

  /** Where a key and an id are sent; of an id only the ten bits above the counter count. */
  lemma RoutesTo(s: HashStrategy, hash: u64, id: nat)
    requires s.Valid()
    ensures RoutedTo(s, hash, s.Shard(hash))
    ensures RoutedTo(s, id / 0x1000 % 0x400, s.ShardWithId(id))
  {
    HashBits(id);
    RouteNumbers(s, hash);
    RouteNumbers(s, id / 0x1000 % 0x400);
    hide RoutedTo, HashStrategy.Route, ExtractHash;
  }

  lemma HashBits(id: nat)
    ensures ExtractHash(id) == id / 0x1000 % 0x400
  {
    Powers();
    hide Pow2;
    ShrQuotient(id, HASH_SHIFT);
    AndMask(Shr(id, HASH_SHIFT), HASH_BITS);
  }

  lemma RouteNumbers(s: HashStrategy, h: nat)
    requires s.Valid()
    ensures RoutedTo(s, h, s.Route(h))
  {
    hide Named, Numeral;
    RouteByRemainder(h, s.dbSharding, s.tableSharding);
    SuffixNames(s.dbPrefix, s.Route(h).dbSuffix);
    SuffixNames(s.tablePrefix, s.Route(h).tableSuffix);
  }

  ghost predicate IdRoutesLikeKey(s: HashStrategy)
    requires s.Valid()
  {
    forall timestamp: u64, hash: u64, count: u64 ::
      s.ShardWithId(Pack(timestamp, hash, count)) == s.Shard(hash)
  }

  lemma IdRouteIff(s: HashStrategy, timestamp: u64, hash: u64, count: u64)
    requires s.Valid()
    ensures 0 < s.dbSharding * s.tableSharding
    ensures s.ShardWithId(Pack(timestamp, hash, count)) == s.Shard(hash) <==>
            hash % 0x400 % (s.dbSharding * s.tableSharding) == hash % (s.dbSharding * s.tableSharding)
  {
    hide Pack, ExtractHash, HashStrategy.Route;
    ExtractPacked(timestamp, hash, count);
    SameRouteIff(s, ExtractHash(Pack(timestamp, hash, count)), hash);
  }

  lemma DividesKeepsRemainder(h: nat, m: nat, n: nat)
    requires 0 < n && 0 < m && m % n == 0
    ensures h % m % n == h % n
  {
    var k := m / n;
    assert m == n * k && n * k == k * n;
    if k <= 0 {
      MulMonotone(n, k, 0);
    }
    ModMod(h, k, n);
  }

  /** Exactly when a row can be found from its id: when the number of tables divides the 1024 hash
      values an id can carry. */
  lemma IdRoutesLikeKeyIff(s: HashStrategy)
    requires s.Valid()
    ensures IdRoutesLikeKey(s) <==> CountDivides(s)
  {
    hide Pack, HashStrategy.Route, HashStrategy.Shard, HashStrategy.ShardWithId;
    IdRouteIff(s, 0, 0x400, 0);
    var n := s.dbSharding * s.tableSharding;
    if 0x400 % n == 0 {
      forall timestamp: u64, hash: u64, count: u64
        ensures s.ShardWithId(Pack(timestamp, hash, count)) == s.Shard(hash)
      {
        IdRouteIff(s, timestamp, hash, count);
        DividesKeepsRemainder(hash, 0x400, n);
      }
    } else {
      DivideUnique(0, n, 0, 0);
      assert s.ShardWithId(Pack(0, 0x400, 0)) != s.Shard(0x400);
    }
  }

  lemma PositiveProduct(d: nat, t: nat)
    requires 0 < d && 0 < t
    ensures 0 < d * t
  {
  }

  /** What a deployment can check before it starts. */
  predicate CountDivides(s: HashStrategy)
    requires s.Valid()
  {
    PositiveProduct(s.dbSharding, s.tableSharding);
    0x400 % (s.dbSharding * s.tableSharding) == 0
  }

  /** The configured two databases of four tables meet the condition. */
  lemma ConfiguredCounts(s: HashStrategy)
    requires s.dbSharding == 2 && s.tableSharding == 4
    ensures CountDivides(s) && IdRoutesLikeKey(s)
  {
    IdRoutesLikeKeyIff(s);
  }

  // ---------------------------------------------------------------- broadcasting

  /** base:db:table, the key the loop job locks. */
  function DlockKey(base: string, dst: Dst): string {
    base + ":" + dst.db + ":" + dst.table
  }

  lemma {:induction false} TablesAt(s: HashStrategy, i: nat, j: nat)
    ensures |s.Tables(i, j)| == j
    ensures forall b | 0 <= b < j :: s.Tables(i, j)[b] == s.At(i, b)
  {
    if j != 0 {
      TablesAt(s, i, j - 1);
    }
  }

  lemma {:induction false} ListingLength(s: HashStrategy, i: nat)
    ensures |s.Listing(i)| == i * s.tableSharding
  {
    if i != 0 {
      ListingLength(s, i - 1);
      TablesAt(s, i - 1, s.tableSharding);
      assert i * s.tableSharding == (i - 1) * s.tableSharding + s.tableSharding;
    }
  }

  lemma ListingNext(s: HashStrategy, n: nat, j: nat)
    requires j < s.tableSharding
    ensures |s.Listing(n)| == n * s.tableSharding && |s.Listing(n + 1)| == (n + 1) * s.tableSharding
    ensures 0 <= n * s.tableSharding && n * s.tableSharding + j < (n + 1) * s.tableSharding
    ensures s.Listing(n + 1)[n * s.tableSharding + j] == s.At(n, j)
    ensures s.Listing(n) == s.Listing(n + 1)[..n * s.tableSharding]
  {
    TablesAt(s, n, s.tableSharding);
    ListingLength(s, n);
    ListingLength(s, n + 1);
    assert (n + 1) * s.tableSharding == n * s.tableSharding + s.tableSharding;
  }

  lemma {:induction false} ListingAt(s: HashStrategy, n: nat, i: nat, j: nat)
    requires i < n && j < s.tableSharding
    ensures 0 <= i * s.tableSharding + j < |s.Listing(n)|
    ensures s.Listing(n)[i * s.tableSharding + j] == s.At(i, j)
  {
    hide *;
    ListingNext(s, n - 1, j);
    if i < n - 1 {
      ListingAt(s, n - 1, i, j);
    }
  }

  lemma BroadcastEntry(s: HashStrategy, res: seq<Dst>, k: nat)
    requires s.Valid() && res == s.Listing(s.dbSharding) && k < |res|
    ensures k / s.tableSharding < s.dbSharding && res[k] == s.At(k / s.tableSharding, k % s.tableSharding)
  {
    hide HashStrategy.Listing;
    var t, q := s.tableSharding, k / s.tableSharding;
    ListingLength(s, s.dbSharding);
    assert k == t * q + k % t;
    assert t * q == q * t && t * s.dbSharding == s.dbSharding * t;
    if s.dbSharding <= q {
      MulMonotone(t, s.dbSharding, q);
    }
    ListingAt(s, s.dbSharding, q, k % t);
  }

  lemma EntryIndex(s: HashStrategy, res: seq<Dst>, m: nat, i: nat, j: nat)
    requires s.Valid() && res == s.Listing(s.dbSharding) && m < |res| && res[m] == s.At(i, j)
    ensures m == i * s.tableSharding + j
  {
    hide HashStrategy.Listing;
    BroadcastEntry(s, res, m);
    MixedIndex(m, s.tableSharding, i, j);
  }

  lemma MixedIndex(m: nat, t: nat, i: nat, j: nat)
    requires 0 < t && m / t == i && m % t == j
    ensures m == i * t + j
  {
    assert m == t * (m / t) + m % t;
    assert t * i == i * t;
  }

  /** The list goes through the databases, and through the tables of each: entry i * t + j is table j of
      database i, by number and by name. */
  lemma BroadcastOrder(s: HashStrategy, res: seq<Dst>, i: nat, j: nat)
    requires s.Valid() && res == s.Listing(s.dbSharding) && i < s.dbSharding && j < s.tableSharding
    ensures |res| == s.dbSharding * s.tableSharding
    ensures 0 <= i * s.tableSharding + j < |res|
    ensures var dst := res[i * s.tableSharding + j];
            && dst.dbSuffix == i && dst.tableSuffix == j
            && Named(dst.db, s.dbPrefix, i) && Named(dst.table, s.tablePrefix, j)
  {
    hide HashStrategy.Listing, Named, Numeral;
    ListingAt(s, s.dbSharding, i, j);
    ListingLength(s, s.dbSharding);
    SuffixNames(s.dbPrefix, i);
    SuffixNames(s.tablePrefix, j);
  }

  /** A lock key reads base, database and table, with ":" between them. */
  lemma LockKeyParts(base: string, dst: Dst)
    ensures var key, m := DlockKey(base, dst), |base| + 1 + |dst.db|;
            && |key| == m + 1 + |dst.table| && key[..|base|] == base && key[|base|] == ':'
            && key[|base| + 1..m] == dst.db && key[m] == ':' && key[m + 1..] == dst.table
  {
  }

  /** Every destination Shard can return is listed, and listed once. */
  lemma BroadcastCovers(s: HashStrategy, res: seq<Dst>, hash: u64) returns (k: nat)
    requires s.Valid() && res == s.Listing(s.dbSharding)
    ensures k < |res| && res[k] == s.Shard(hash)
    ensures forall m | 0 <= m < |res| && res[m] == s.Shard(hash) :: m == k
  {
    hide HashStrategy.Listing, HashStrategy.At;
    var i, j := hash % s.dbSharding, hash / s.dbSharding % s.tableSharding;
    ListingAt(s, s.dbSharding, i, j);
    k := i * s.tableSharding + j;
    forall m | 0 <= m < |res| && res[m] == s.Shard(hash)
      ensures m == k
    {
      EntryIndex(s, res, m, i, j);
    }
  }

  /** Different places of the broadcast list have different lock keys, whatever the prefixes. */
  lemma LockKeysDistinct(s: HashStrategy, base: string, res: seq<Dst>, k: nat, m: nat)
    requires s.Valid() && res == s.Listing(s.dbSharding) && k < |res| && m < |res|
    requires DlockKey(base, res[k]) == DlockKey(base, res[m])
    ensures k == m
  {
    hide HashStrategy.Listing, DlockKey;
    var t := s.tableSharding;
    BroadcastEntry(s, res, k);
    BroadcastEntry(s, res, m);
    LockKeyInjective(s, base, k / t, k % t, m / t, m % t);
    EntryIndex(s, res, k, k / t, k % t);
    EntryIndex(s, res, m, k / t, k % t);
  }

  lemma LockKeyInjective(s: HashStrategy, base: string, i: nat, j: nat, i': nat, j': nat)
    requires DlockKey(base, s.At(i, j)) == DlockKey(base, s.At(i', j'))
    ensures i == i' && j == j'
  {
    var head := base + ":" + (s.dbPrefix + "_");
    var tail := s.tablePrefix + "_";
    var x, y := Numeral(i) + ":" + (tail + Numeral(j)), Numeral(i') + ":" + (tail + Numeral(j'));
    hide Numeral;
    assert DlockKey(base, s.At(i, j)) == head + x;
    assert DlockKey(base, s.At(i', j')) == head + y;
    SamePrefix(head, x, y);
    NumeralThen(i, tail + Numeral(j), i', tail + Numeral(j'));
    PrefixThenNumeral(tail, j, j');
  }
}
