/**
 The quota ledger: the redis counters of internal/repository/cache/redis (three Lua scripts and one
 DECRBY) and their use by internal/repository/notification.go. A raw counter may be driven below
 zero by rejected requests; what it is worth to a caller is Avail, and the scripts are proved to
 treat that as an ideal, never negative counter. Each script is one atomic step, as in redis.
 */
module Quota {
  import opened Words
  import opened Decimals

  /** A missing key reads as 0. */
  function Raw(store: map<string, int>, key: string): int {
    if key in store then store[key] else 0
  }

  function Avail(store: map<string, int>, key: string): nat {
    if Raw(store, key) < 0 then 0 else Raw(store, key)
  }

  // ---------------------------------------------------------------- the scripts

  function Refund(raw: int, quota: int): int {
    if raw < 0 then quota else raw + quota
  }

  function RefundAll(store: map<string, int>, keys: seq<string>, args: seq<int>): map<string, int>
    requires |keys| == |args|
  {
    if keys == [] then store
    else
      var n := |keys| - 1;
      var r := RefundAll(store, keys[..n], args[..n]);
      r[keys[n] := Refund(Raw(r, keys[n]), args[n])]
  }

  function DecrAll(store: map<string, int>, keys: seq<string>, args: seq<int>): map<string, int>
    requires |keys| == |args|
  {
    if keys == [] then store
    else
      var n := |keys| - 1;
      var r := DecrAll(store, keys[..n], args[..n]);
      r[keys[n] := Raw(r, keys[n]) - args[n]]
  }

  /** Every counter passes its own check. */
  predicate Covered(store: map<string, int>, keys: seq<string>, args: seq<int>)
    requires |keys| == |args|
  {
    forall i | 0 <= i < |keys| :: args[i] <= Raw(store, keys[i])
  }

  /** i is the first entry whose counter does not. */
  predicate FirstShort(store: map<string, int>, keys: seq<string>, args: seq<int>, i: nat)
    requires |keys| == |args|
  {
    i < |keys| && Raw(store, keys[i]) < args[i] && Covered(store, keys[..i], args[..i])
  }

  class Redis {
    var store: map<string, int>

    constructor ()
      ensures store == map[]
    {
      store := map[];
    }

    method DecrBy(key: string, amount: int) returns (res: int)
      modifies this
      ensures store == old(store)[key := Raw(old(store), key) - amount]
      ensures res == Raw(old(store), key) - amount
    {
      res := Raw(store, key) - amount;
      store := store[key := res];
    }

    method QuotaIncr(key: string, quota: int)
      modifies this
      ensures store == RefundAll(old(store), [key], [quota])
    {
      RefundOne(store, key, quota);
      var current := Raw(store, key);
      if current < 0 {
        store := store[key := quota];
      } else if current > 0 {
        store := store[key := current + quota];
      } else {
        store := store[key := quota];
      }
    }

    method QuotaBatchIncr(keys: seq<string>, args: seq<int>)
      requires |keys| == |args|
      modifies this
      ensures store == RefundAll(old(store), keys, args)
    {
      var i := 0;
      while i < |keys|
        invariant 0 <= i <= |keys|
        invariant store == RefundAll(old(store), keys[..i], args[..i])
      {
        var current := Raw(store, keys[i]);
        if current < 0 {
          store := store[keys[i] := args[i]];
        } else {
          store := store[keys[i] := current + args[i]];
        }
        RefundNext(old(store), keys, args, i);
        i := i + 1;
      }
      assert keys[..i] == keys && args[..i] == args;
    }

    method QuotaBatchDecr(keys: seq<string>, args: seq<int>) returns (res: string)
      requires |keys| == |args|
      modifies this
      ensures Covered(old(store), keys, args) ==> res == "" && store == DecrAll(old(store), keys, args)
      ensures !Covered(old(store), keys, args) ==>
                && store == old(store)
                && exists i: nat :: FirstShort(store, keys, args, i) && res == keys[i]
    {
      var i := 0;
      while i < |keys|
        invariant 0 <= i <= |keys|
        invariant store == old(store) && Covered(store, keys[..i], args[..i])
      {
        if Raw(store, keys[i]) < args[i] {
          assert FirstShort(store, keys, args, i);
          return keys[i];
        }
        assert keys[..i + 1] == keys[..i] + [keys[i]];
        i := i + 1;
      }
      assert keys[..i] == keys && args[..i] == args;
      i := 0;
      while i < |keys|
        invariant 0 <= i <= |keys|
        invariant store == DecrAll(old(store), keys[..i], args[..i])
      {
        store := store[keys[i] := Raw(store, keys[i]) - args[i]];
        DecrNext(old(store), keys, args, i);
        i := i + 1;
      }
      assert keys[..i] == keys && args[..i] == args;
      res := "";
    }
  }

  lemma RefundOne(store: map<string, int>, key: string, quota: int)
    ensures RefundAll(store, [key], [quota]) == store[key := Refund(Raw(store, key), quota)]
  {
    assert [key][..0] == [] && [quota][..0] == [];
  }

  lemma RefundNext(store: map<string, int>, keys: seq<string>, args: seq<int>, i: nat)
    requires |keys| == |args| && i < |keys|
    ensures var r := RefundAll(store, keys[..i], args[..i]);
            RefundAll(store, keys[..i + 1], args[..i + 1]) == r[keys[i] := Refund(Raw(r, keys[i]), args[i])]
  {
    assert keys[..i + 1][..i] == keys[..i] && args[..i + 1][..i] == args[..i];
  }

  lemma DecrNext(store: map<string, int>, keys: seq<string>, args: seq<int>, i: nat)
    requires |keys| == |args| && i < |keys|
    ensures var r := DecrAll(store, keys[..i], args[..i]);
            DecrAll(store, keys[..i + 1], args[..i + 1]) == r[keys[i] := Raw(r, keys[i]) - args[i]]
  {
    assert keys[..i + 1][..i] == keys[..i] && args[..i + 1][..i] == args[..i];
  }

  // ---------------------------------------------------------------- the ideal counter

  /** What a request asks for, per key. */
  function Demand(keys: seq<string>, args: seq<int>): multiset<string>
    requires |keys| == |args|
  {
    if keys == [] then multiset{}
    else
      var n := |keys| - 1;
      var d := Demand(keys[..n], args[..n]);
      if args[n] < 0 then d else d[keys[n] := d[keys[n]] + args[n]]
  }

  ghost predicate Affords(store: map<string, int>, d: multiset<string>) {
    forall k: string :: d[k] <= Avail(store, k)
  }

  ghost predicate Taken(store: map<string, int>, d: multiset<string>, r: map<string, int>) {
    forall k: string :: Avail(r, k) == Avail(store, k) - d[k]
  }

  ghost predicate Given(store: map<string, int>, d: multiset<string>, r: map<string, int>) {
    forall k: string :: Avail(r, k) == Avail(store, k) + d[k]
  }

  predicate NonNegative(args: seq<int>) {
    forall i | 0 <= i < |args| :: 0 <= args[i]
  }

  predicate Positive(args: seq<int>) {
    forall i | 0 <= i < |args| :: 0 < args[i]
  }

  predicate Distinct(keys: seq<string>) {
    forall i, j | 0 <= i < j < |keys| :: keys[i] != keys[j]
  }

  /** Refunds always add exactly what they say, whatever the raw counters had drifted to and even
      when a key is named twice. */
  lemma {:induction false} RefundGives(store: map<string, int>, keys: seq<string>, args: seq<int>)
    requires |keys| == |args| && NonNegative(args)
    ensures Given(store, Demand(keys, args), RefundAll(store, keys, args))
  {
    if keys != [] {
      var n := |keys| - 1;
      RefundGives(store, keys[..n], args[..n]);
    }
  }

  lemma {:induction false} DecrAllRaw(store: map<string, int>, keys: seq<string>, args: seq<int>, key: string)
    requires |keys| == |args| && NonNegative(args)
    ensures Raw(DecrAll(store, keys, args), key) == Raw(store, key) - Demand(keys, args)[key]
  {
    if keys != [] {
      var n := |keys| - 1;
      DecrAllRaw(store, keys[..n], args[..n], key);
    }
  }

  /** From counters not below zero a refund adds to the raw counters themselves. */
  lemma {:induction false} RefundAllRaw(store: map<string, int>, keys: seq<string>, args: seq<int>, key: string)
    requires |keys| == |args| && NonNegative(args)
    requires forall i | 0 <= i < |keys| :: 0 <= Raw(store, keys[i])
    ensures Raw(RefundAll(store, keys, args), key) == Raw(store, key) + Demand(keys, args)[key]
  {
    if keys != [] {
      var n := |keys| - 1;
      RefundAllRaw(store, keys[..n], args[..n], key);
      RefundAllRaw(store, keys[..n], args[..n], keys[n]);
    }
  }

  lemma {:induction false} DemandOfEntry(keys: seq<string>, args: seq<int>, i: nat)
    requires |keys| == |args| && NonNegative(args) && i < |keys|
    ensures args[i] <= Demand(keys, args)[keys[i]]
    ensures Distinct(keys) ==> Demand(keys, args)[keys[i]] == args[i]
  {
    var n := |keys| - 1;
    if i < n {
      DemandOfEntry(keys[..n], args[..n], i);
    } else {
      DemandOfAbsent(keys[..n], args[..n], keys[n]);
    }
  }

  lemma {:induction false} DemandOfAbsent(keys: seq<string>, args: seq<int>, key: string)
    requires |keys| == |args|
    ensures key !in keys ==> Demand(keys, args)[key] == 0
  {
    if keys != [] {
      var n := |keys| - 1;
      DemandOfAbsent(keys[..n], args[..n], key);
    }
  }

  lemma {:induction false} DemandOfPair(keys: seq<string>, args: seq<int>, i: nat, j: nat)
    requires |keys| == |args| && NonNegative(args) && i < j < |keys| && keys[i] == keys[j]
    ensures args[i] + args[j] <= Demand(keys, args)[keys[i]]
  {
    var n := |keys| - 1;
    if j < n {
      DemandOfPair(keys[..n], args[..n], i, j);
    } else {
      DemandOfEntry(keys[..n], args[..n], i);
    }
  }

  /** The batch script does what an ideal counter would: all of it when everything is affordable,
      nothing otherwise. */
  ghost predicate BatchIsExact(store: map<string, int>, keys: seq<string>, args: seq<int>)
    requires |keys| == |args|
  {
    var d := Demand(keys, args);
    && (Covered(store, keys, args) <==> Affords(store, d))
    && (Covered(store, keys, args) ==> Taken(store, d, DecrAll(store, keys, args)))
  }

  lemma DistinctIsExact(store: map<string, int>, keys: seq<string>, args: seq<int>)
    requires |keys| == |args| && Positive(args) && Distinct(keys)
    ensures BatchIsExact(store, keys, args)
  {
    hide Demand, DecrAll;
    var d := Demand(keys, args);
    forall k: string
      ensures k in keys || d[k] == 0
      ensures Raw(DecrAll(store, keys, args), k) == Raw(store, k) - d[k]
    {
      DemandOfAbsent(keys, args, k);
      DecrAllRaw(store, keys, args, k);
    }
    forall i | 0 <= i < |keys|
      ensures d[keys[i]] == args[i]
    {
      DemandOfEntry(keys, args, i);
    }
    if !Covered(store, keys, args) {
      var i :| 0 <= i < |keys| && Raw(store, keys[i]) < args[i];
      assert Avail(store, keys[i]) < d[keys[i]];
    }
  }

  /** A key named twice can be oversold: one unit short of the demand passes both checks. */
  lemma RepeatedKeyOversells(keys: seq<string>, args: seq<int>, i: nat, j: nat) returns (store: map<string, int>)
    requires |keys| == |args| && Positive(args) && i < j < |keys| && keys[i] == keys[j]
    ensures Covered(store, keys, args) && !Affords(store, Demand(keys, args))
  {
    var d := Demand(keys, args);
    store := map k: string | k in keys :: d[k] as int - (if k == keys[i] then 1 else 0);
    DemandOfPair(keys, args, i, j);
    forall m | 0 <= m < |keys|
      ensures args[m] <= Raw(store, keys[m])
    {
      DemandOfEntry(keys, args, m);
      if keys[m] == keys[i] && m != i {
        DemandOfPair(keys, args, if m < i then m else i, if m < i then i else m);
      }
    }
    assert Avail(store, keys[i]) == d[keys[i]] - 1;
  }

  /** For positive amounts, the batch script is an exact all-or-nothing take on every store exactly
      when no key is named twice. */
  lemma BatchExactIffDistinct(keys: seq<string>, args: seq<int>)
    requires |keys| == |args| && Positive(args)
    ensures (forall store :: BatchIsExact(store, keys, args)) <==> Distinct(keys)
  {
    if Distinct(keys) {
      forall store
        ensures BatchIsExact(store, keys, args)
      {
        DistinctIsExact(store, keys, args);
      }
    } else {
      var i, j :| 0 <= i < j < |keys| && keys[i] == keys[j];
      var store := RepeatedKeyOversells(keys, args, i, j);
      assert !BatchIsExact(store, keys, args);
    }
  }

  /** The single decrement does what an ideal counter would. A rejected request leaves the raw
      counter lowered. */
  ghost predicate DecrIsExact(store: map<string, int>, key: string, amount: int) {
    var r := store[key := Raw(store, key) - amount];
    && (0 <= Raw(r, key) <==> amount <= Avail(store, key))
    && Avail(r, key) == Avail(store, key) - (if 0 <= Raw(r, key) then amount else 0)
  }

  /** ... for every store exactly when the amount is 1, the value the repository uses: a rejected
      request for more would swallow what was left, and for less would be refused on a drifted
      counter. */
  lemma DecrExactIffUnit(key: string, amount: int)
    ensures (forall store :: DecrIsExact(store, key, amount)) <==> amount == 1
  {
    if amount == 1 {
      assert forall store :: DecrIsExact(store, key, amount);
    } else {
      var raw := if 1 < amount then 1 else amount - 1;
      assert !DecrIsExact(map[key := raw], key, amount);
    }
  }

  // ---------------------------------------------------------------- the cache

  /** Who a notification is charged to. */
  datatype Owner = Owner(bizId: u64, channel: string)

  datatype QuotaParam = QuotaParam(owner: Owner, quota: i32)

  datatype Outcome = Done | Insufficient(key: string)

  function RedisKey(o: Owner): string {
    "quota:" + (Numeral(o.bizId) + ":" + o.channel)
  }

  /** The owner is recovered from the key. */
  /** The key of an owner reads "quota:", its number, ":" and its channel. */
  lemma RedisKeyParts(o: Owner)
    ensures var key, end := RedisKey(o), |RedisKey(o)| - |o.channel| - 1;
            && 6 < end && key[..6] == "quota:" && Value(key[6..end]) == o.bizId && key[end..] == ":" + o.channel
  {
    Parts("quota:", o.bizId, ":" + o.channel);
    assert RedisKey(o) == "quota:" + Numeral(o.bizId) + (":" + o.channel);
  }

  lemma RedisKeyInjective(a: Owner, b: Owner)
    requires RedisKey(a) == RedisKey(b)
    ensures a == b
  {
    SamePrefix("quota:", Numeral(a.bizId) + ":" + a.channel, Numeral(b.bizId) + ":" + b.channel);
    NumeralThen(a.bizId, a.channel, b.bizId, b.channel);
  }

  function KeysOf(ps: seq<QuotaParam>): (r: seq<string>) {
    seq(|ps|, i requires 0 <= i < |ps| => RedisKey(ps[i].owner))
  }

  function ArgsOf(ps: seq<QuotaParam>): (r: seq<int>) {
    seq(|ps|, i requires 0 <= i < |ps| => ps[i].quota)
  }

  class QuotaRedisCache {
    const client: Redis

    constructor (client: Redis)
      ensures this.client == client
    {
      this.client := client;
    }

    method RedisKeysAndArgs(params: seq<QuotaParam>) returns (keys: seq<string>, args: seq<int>)
      ensures keys == KeysOf(params) && args == ArgsOf(params)
    {
      keys, args := [], [];
      for i := 0 to |params|
        invariant |keys| == |args| == i
        invariant forall j | 0 <= j < i :: keys[j] == RedisKey(params[j].owner) && args[j] == params[j].quota
      {
        keys := keys + [RedisKey(params[i].owner)];
        args := args + [params[i].quota];
      }
    }

    method Incr(param: QuotaParam)
      modifies client
      ensures client.store == RefundAll(old(client.store), KeysOf([param]), ArgsOf([param]))
    {
      assert KeysOf([param]) == [RedisKey(param.owner)] && ArgsOf([param]) == [param.quota];
      client.QuotaIncr(RedisKey(param.owner), param.quota);
    }

    method BatchIncr(params: seq<QuotaParam>)
      modifies client
      ensures client.store == RefundAll(old(client.store), KeysOf(params), ArgsOf(params))
    {
      if |params| == 0 {
        return;
      }
      var keys, args := RedisKeysAndArgs(params);
      client.QuotaBatchIncr(keys, args);
    }

    method Decr(param: QuotaParam) returns (outcome: Outcome)
      modifies client
      ensures var key := RedisKey(param.owner);
              && client.store == old(client.store)[key := Raw(old(client.store), key) - param.quota]
              && outcome == if 0 <= Raw(client.store, key) then Done else Insufficient(key)
    {
      var res := client.DecrBy(RedisKey(param.owner), param.quota);
      if res < 0 {
        return Insufficient(RedisKey(param.owner));
      }
      return Done;
    }

    method BatchDecr(params: seq<QuotaParam>) returns (outcome: Outcome)
      modifies client
      ensures outcome.Done? <==> Covered(old(client.store), KeysOf(params), ArgsOf(params))
      ensures outcome.Done? ==> client.store == DecrAll(old(client.store), KeysOf(params), ArgsOf(params))
      ensures outcome.Insufficient? ==>
                && client.store == old(client.store)
                && exists i: nat :: FirstShort(client.store, KeysOf(params), ArgsOf(params), i)
                                    && outcome.key == KeysOf(params)[i]
    {
      if |params| == 0 {
        return Done;
      }
      var keys, args := RedisKeysAndArgs(params);
      var resMsg := client.QuotaBatchDecr(keys, args);
      if resMsg == "" {
        return Done;
      }
      return Insufficient(resMsg);
    }
  }

  // ---------------------------------------------------------------- counting a batch

  /** One parameter per owner named, carrying how many notifications it has, as an int32. */
  ghost predicate Tallies(ps: seq<QuotaParam>, ns: seq<Owner>) {
    && (forall i, j | 0 <= i < j < |ps| :: ps[i].owner != ps[j].owner)
    && (forall i | 0 <= i < |ps| :: ps[i].owner in ns && ps[i].quota == Signed32(multiset(ns)[ps[i].owner]))
    && (forall n | n in ns :: exists i :: 0 <= i < |ps| && ps[i].owner == n)
  }

  function MapKey(o: Owner): string {
    Numeral(o.bizId) + ":" + o.channel
  }

  lemma MapKeyInjective(a: Owner, b: Owner)
    requires MapKey(a) == MapKey(b)
    ensures a == b
  {
    NumeralThen(a.bizId, a.channel, b.bizId, b.channel);
  }

  ghost predicate Entry(k: string, p: QuotaParam, ns: seq<Owner>) {
    k == MapKey(p.owner) && p.owner in ns && p.quota == Signed32(multiset(ns)[p.owner])
  }

  /** The map built so far holds every owner met, under its own key, with its count. */
  ghost predicate Counted(m: map<string, QuotaParam>, ns: seq<Owner>) {
    && (forall k | k in m :: Entry(k, m[k], ns))
    && (forall n | n in ns :: MapKey(n) in m)
  }

  /** The notification's parameter, found or fresh, with one unit more. */
  function Charged(m: map<string, QuotaParam>, n: Owner): QuotaParam {
    var param := if MapKey(n) in m then m[MapKey(n)] else QuotaParam(n, 0);
    QuotaParam(param.owner, Signed32(param.quota + 1))
  }

  lemma EntryKept(k: string, p: QuotaParam, ns: seq<Owner>, n: Owner)
    requires Entry(k, p, ns) && k != MapKey(n)
    ensures Entry(k, p, ns + [n])
  {
    hide Signed32, MapKey;
    assert multiset(ns + [n]) == multiset(ns) + multiset{n};
  }

  lemma EntryCharged(m: map<string, QuotaParam>, ns: seq<Owner>, n: Owner)
    requires Counted(m, ns)
    ensures Entry(MapKey(n), Charged(m, n), ns + [n])
  {
    hide Signed32, MapKey;
    assert multiset(ns + [n]) == multiset(ns) + multiset{n};
    Signed32Next(multiset(ns)[n]);
    if MapKey(n) in m {
      MapKeyInjective(m[MapKey(n)].owner, n);
    } else {
      assert multiset(ns)[n] == 0;
      assert Signed32(0) == 0 by { ZeroFits(); }
    }
  }

  lemma ZeroFits()
    ensures Signed32(0) == 0
  {
  }

  lemma CountedNext(m: map<string, QuotaParam>, ns: seq<Owner>, n: Owner)
    requires Counted(m, ns)
    ensures Counted(m[MapKey(n) := Charged(m, n)], ns + [n])
  {
    hide Entry, MapKey, Charged;
    EntryCharged(m, ns, n);
    forall k | k in m && k != MapKey(n)
      ensures Entry(k, m[k], ns + [n])
    {
      EntryKept(k, m[k], ns, n);
    }
  }

  lemma MultisetSize(ns: seq<Owner>, n: Owner)
    ensures multiset(ns)[n] <= |ns|
  {
    assert |multiset(ns)| == |ns|;
    assert multiset(ns)[n] <= |multiset(ns)|;
  }

  method BuildQuotaParams(ns: seq<Owner>) returns (ps: seq<QuotaParam>)
    ensures Tallies(ps, ns)
  {
    var m: map<string, QuotaParam> := map[];
    for i := 0 to |ns|
      invariant Counted(m, ns[..i])
    {
      hide *;
      CountedNext(m, ns[..i], ns[i]);
      assert ns[..i + 1] == ns[..i] + [ns[i]];
      m := m[MapKey(ns[i]) := Charged(m, ns[i])];
    }
    assert ns[..|ns|] == ns;
    ps := Vals(m, ns);
  }

  /** ps lists the values of all keys but those still to come, each once. */
  ghost predicate Listed(m: map<string, QuotaParam>, keys: set<string>, ps: seq<QuotaParam>) {
    && keys <= m.Keys
    && (forall i | 0 <= i < |ps| :: MapKey(ps[i].owner) in m.Keys - keys && ps[i] == m[MapKey(ps[i].owner)])
    && (forall i, j | 0 <= i < j < |ps| :: ps[i].owner != ps[j].owner)
    && (forall k | k in m.Keys - keys :: m[k] in ps)
  }

  lemma ListedNext(m: map<string, QuotaParam>, keys: set<string>, ps: seq<QuotaParam>, k: string)
    requires Listed(m, keys, ps) && k in keys && k == MapKey(m[k].owner)
    ensures Listed(m, keys - {k}, ps + [m[k]])
  {
    hide MapKey;
  }

  lemma ListedAll(m: map<string, QuotaParam>, ps: seq<QuotaParam>, ns: seq<Owner>)
    requires Listed(m, {}, ps) && Counted(m, ns)
    ensures Tallies(ps, ns)
  {
    hide MapKey, Signed32;
    forall n | n in ns
      ensures exists i :: 0 <= i < |ps| && ps[i].owner == n
    {
      var p := m[MapKey(n)];
      MapKeyInjective(p.owner, n);
      assert p in ps;
    }
  }

  lemma EntryAt(m: map<string, QuotaParam>, ns: seq<Owner>, k: string)
    requires Counted(m, ns) && k in m
    ensures k == MapKey(m[k].owner)
  {
  }

  /** The values of the map, in whatever order it is walked. */
  method Vals(m: map<string, QuotaParam>, ghost ns: seq<Owner>) returns (ps: seq<QuotaParam>)
    requires Counted(m, ns)
    ensures Tallies(ps, ns)
  {
    hide Counted, Tallies;
    ps := [];
    var keys := m.Keys;
    while keys != {}
      invariant keys <= m.Keys && Listed(m, keys, ps)
      decreases keys
    {
      hide *;
      var k :| k in keys;
      EntryAt(m, ns, k);
      ListedNext(m, keys, ps, k);
      ps := ps + [m[k]];
      keys := keys - {k};
    }
    ListedAll(m, ps, ns);
  }

  function Units(ns: seq<Owner>): (r: seq<string>) {
    seq(|ns|, i requires 0 <= i < |ns| => RedisKey(ns[i]))
  }

  lemma {:induction false} UnitsCount(ns: seq<Owner>, o: Owner)
    ensures multiset(Units(ns))[RedisKey(o)] == multiset(ns)[o]
  {
    if ns != [] {
      var n := |ns| - 1;
      UnitsCount(ns[..n], o);
      assert ns == ns[..n] + [ns[n]];
      assert Units(ns) == Units(ns[..n]) + [RedisKey(ns[n])];
      if RedisKey(ns[n]) == RedisKey(o) {
        RedisKeyInjective(ns[n], o);
      }
    }
  }

  /** What the two batch scripts are given: distinct keys, positive amounts, and together exactly one
      unit for each notification of the batch. */
  ghost predicate Charges(keys: seq<string>, args: seq<int>, units: seq<string>) {
    && |keys| == |args| && Distinct(keys) && Positive(args)
    && Demand(keys, args) == multiset(units)
  }

  /** What is taken and then refunded leaves the raw counters as they were. */
  lemma TakenAndBackRaw(store: map<string, int>, keys: seq<string>, args: seq<int>, units: seq<string>, key: string)
    requires Charges(keys, args, units) && Covered(store, keys, args)
    ensures Raw(DecrAll(store, keys, args), key) == Raw(store, key) - multiset(units)[key]
    ensures Raw(RefundAll(DecrAll(store, keys, args), keys, args), key) == Raw(store, key)
  {
    hide Demand, DecrAll, RefundAll;
    var held := DecrAll(store, keys, args);
    DecrAllRaw(store, keys, args, key);
    forall i | 0 <= i < |keys|
      ensures 0 <= Raw(held, keys[i])
    {
      DecrAllRaw(store, keys, args, keys[i]);
      DemandOfEntry(keys, args, i);
    }
    RefundAllRaw(held, keys, args, key);
  }

  lemma TalliesCharge(ps: seq<QuotaParam>, ns: seq<Owner>)
    requires Tallies(ps, ns) && |ns| < TWO_31
    ensures Charges(KeysOf(ps), ArgsOf(ps), Units(ns))
  {
    var keys, args, units := KeysOf(ps), ArgsOf(ps), Units(ns);
    hide Demand, RedisKey;
    assert Distinct(keys) by {
      forall i, j | 0 <= i < j < |keys|
        ensures keys[i] != keys[j]
      {
        if keys[i] == keys[j] {
          RedisKeyInjective(ps[i].owner, ps[j].owner);
        }
      }
    }
    forall i | 0 <= i < |ps|
      ensures ps[i].quota == multiset(ns)[ps[i].owner] > 0
    {
      MultisetSize(ns, ps[i].owner);
    }
    forall k: string
      ensures Demand(keys, args)[k] == multiset(units)[k]
    {
      TallyAt(ps, ns, k);
    }
  }

  lemma UnitsNamed(ps: seq<QuotaParam>, ns: seq<Owner>, k: string)
    requires Tallies(ps, ns) && k in Units(ns)
    ensures k in KeysOf(ps)
  {
    hide RedisKey;
    var j :| 0 <= j < |ns| && RedisKey(ns[j]) == k;
    assert ns[j] in ns;
    var i :| 0 <= i < |ps| && ps[i].owner == ns[j];
    assert KeysOf(ps)[i] == k;
  }

  lemma TallyAt(ps: seq<QuotaParam>, ns: seq<Owner>, k: string)
    requires Tallies(ps, ns) && Distinct(KeysOf(ps))
    requires forall i | 0 <= i < |ps| :: ps[i].quota == multiset(ns)[ps[i].owner] > 0
    ensures Demand(KeysOf(ps), ArgsOf(ps))[k] == multiset(Units(ns))[k]
  {
    hide Demand, RedisKey;
    var keys, args := KeysOf(ps), ArgsOf(ps);
    if k in keys {
      var i :| 0 <= i < |keys| && keys[i] == k;
      DemandOfEntry(keys, args, i);
      UnitsCount(ns, ps[i].owner);
    } else {
      DemandOfAbsent(keys, args, k);
      if k in Units(ns) {
        UnitsNamed(ps, ns, k);
      }
    }
  }

  // ---------------------------------------------------------------- a charge and its refund

  lemma UnitCharge(o: Owner)
    ensures Charges(KeysOf([QuotaParam(o, 1)]), ArgsOf([QuotaParam(o, 1)]), [RedisKey(o)])
    ensures multiset([RedisKey(o)]) == multiset{RedisKey(o)}
  {
    var keys, args := KeysOf([QuotaParam(o, 1)]), ArgsOf([QuotaParam(o, 1)]);
    assert keys[..0] == [] && args[..0] == [];
    assert keys[0] == RedisKey(o) && args[0] == 1;
    assert Demand(keys, args) == multiset{RedisKey(o)};
  }

  lemma ChargeRefunds(store: map<string, int>, keys: seq<string>, args: seq<int>, units: seq<string>)
    requires Charges(keys, args, units)
    ensures Given(store, multiset(units), RefundAll(store, keys, args))
  {
    RefundGives(store, keys, args);
  }

  lemma ChargeTakes(store: map<string, int>, keys: seq<string>, args: seq<int>, units: seq<string>)
    requires Charges(keys, args, units)
    ensures Covered(store, keys, args) <==> Affords(store, multiset(units))
    ensures Covered(store, keys, args) ==> Taken(store, multiset(units), DecrAll(store, keys, args))
  {
    DistinctIsExact(store, keys, args);
  }

  lemma UnitTakes(store: map<string, int>, key: string)
    ensures var r := store[key := Raw(store, key) - 1];
            && (0 <= Raw(r, key) <==> Affords(store, multiset{key}))
            && Taken(store, if 0 <= Raw(r, key) then multiset{key} else multiset{}, r)
  {
  }

  lemma TakenBack(before: map<string, int>, d: multiset<string>, held: map<string, int>, after: map<string, int>)
    requires Taken(before, d, held) && Given(held, d, after)
    ensures Taken(before, multiset{}, after)
  {
    forall k: string
      ensures Avail(after, k) == Avail(before, k)
    {
      assert Avail(after, k) == Avail(held, k) + d[k];
    }
  }

  lemma TakenNone(store: map<string, int>)
    ensures Taken(store, multiset{}, store)
  {
  }
}
