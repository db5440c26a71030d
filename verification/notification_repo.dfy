/**
 The notification repository (internal/repository/notification.go): each create first takes its quota,
 then asks the sharded store, and gives the quota back when the store reports an error. The contracts
 tie the units used to the rows kept. Calls are made one at a time here. QuotaProtocol interleaves them, and
 the counters a call leaves here are those of its run there when nobody interrupts it (SoloCreate,
 SoloBatch, SoloMark).
 */
module NotificationRepo {
  import opened Words
  import opened Quota
  import opened ShardedStore
  import opened NotificationDao
  import Protocol = QuotaProtocol

  function OwnerOf(n: Notification): Owner {
    Owner(n.bizId, n.content.channel)
  }

  function OwnersOf(ns: seq<Notification>): (r: seq<Owner>) {
    seq(|ns|, i requires 0 <= i < |ns| => OwnerOf(ns[i]))
  }

  /** The key a notification is charged to. */
  function ChargeKey(n: Notification): string {
    RedisKey(OwnerOf(n))
  }

  /** The keys of those of the first n notifications whose rows were kept. */
  function KeptUnits(ns: seq<Notification>, kept: set<nat>, n: nat): seq<string>
    requires n <= |ns|
  {
    if n == 0 then []
    else KeptUnits(ns, kept, n - 1) + (if n - 1 in kept then [ChargeKey(ns[n - 1])] else [])
  }

  ghost predicate AllKept(ns: seq<Notification>, kept: set<nat>) {
    forall i | 0 <= i < |ns| :: i in kept
  }

  /** Notifications are charged to one counter exactly when business and channel are the same. */
  lemma ChargeKeyIff(n: Notification, m: Notification)
    ensures ChargeKey(n) == ChargeKey(m) <==> n.bizId == m.bizId && n.content.channel == m.content.channel
  {
    hide RedisKey;
    if ChargeKey(n) == ChargeKey(m) {
      RedisKeyInjective(OwnerOf(n), OwnerOf(m));
    }
  }

  /** The notifications of the batch whose business and channel that counter is for. */
  ghost function Naming(ns: seq<Notification>, key: string): set<nat> {
    set i: nat | i < |ns| && key == RedisKey(Owner(ns[i].bizId, ns[i].content.channel))
  }

  lemma NamingNext(ns: seq<Notification>, n: nat, key: string)
    requires n < |ns|
    ensures n !in Naming(ns[..n], key) && Naming(ns[..0], key) == {}
    ensures Naming(ns[..n + 1], key) == Naming(ns[..n], key) + (if key == ChargeKey(ns[n]) then {n} else {})
  {
    hide RedisKey;
    assert forall i: nat | i < n :: ns[..n + 1][i] == ns[..n][i];
  }

  lemma {:induction false} UnitsNamed(ns: seq<Notification>, n: nat, key: string)
    requires n <= |ns|
    ensures multiset(Units(OwnersOf(ns[..n])))[key] == |Naming(ns[..n], key)|
  {
    hide *;
    if n == 0 {
      UnitsNone(ns, key);
    } else {
      UnitsNamed(ns, n - 1, key);
      UnitsNext(ns, n - 1);
      NamingNext(ns, n - 1, key);
      assert multiset(Units(OwnersOf(ns[..n - 1])) + [ChargeKey(ns[n - 1])])
          == multiset(Units(OwnersOf(ns[..n - 1]))) + multiset{ChargeKey(ns[n - 1])};
    }
  }

  lemma UnitsNone(ns: seq<Notification>, key: string)
    ensures Units(OwnersOf(ns[..0])) == [] && Naming(ns[..0], key) == {}
  {
  }

  /** What a batch does to every raw counter. */
  lemma BatchRaw(store: map<string, int>, keys: seq<string>, args: seq<int>, ns: seq<Notification>, stored: bool,
                 key: string)
    requires Charges(keys, args, Units(OwnersOf(ns)))
    ensures Raw(Protocol.AfterBatch(store, keys, args, stored), key)
         == Raw(store, key) - (if Covered(store, keys, args) && stored then |Naming(ns, key)| else 0)
  {
    assert ns[..|ns|] == ns;
    UnitsNamed(ns, |ns|, key);
    assert |keys| == |args|;
    hide Charges, Covered, Units, OwnersOf, Naming, Raw, RefundAll, DecrAll;
    if Covered(store, keys, args) {
      TakenAndBackRaw(store, keys, args, Units(OwnersOf(ns)), key);
    }
  }

  lemma BatchRawAll(store: map<string, int>, ps: seq<QuotaParam>, ns: seq<Notification>, stored: bool)
    requires Charges(KeysOf(ps), ArgsOf(ps), Units(OwnersOf(ns)))
    ensures forall key: string ::
              Raw(Protocol.AfterBatch(store, KeysOf(ps), ArgsOf(ps), stored), key) == Raw(store, key)
              - (if Covered(store, KeysOf(ps), ArgsOf(ps)) && stored then |Naming(ns, key)| else 0)
  {
    hide Charges, Units, OwnersOf, Naming, Raw, Protocol.AfterBatch;
    forall key: string
      ensures Raw(Protocol.AfterBatch(store, KeysOf(ps), ArgsOf(ps), stored), key) == Raw(store, key)
              - (if Covered(store, KeysOf(ps), ArgsOf(ps)) && stored then |Naming(ns, key)| else 0)
    {
      BatchRaw(store, KeysOf(ps), ArgsOf(ps), ns, stored, key);
    }
  }

  /** What a create does to every raw counter. */
  lemma CreateRaw(store: map<string, int>, key: string, refused: bool, stored: bool)
    requires (refused <==> !Affords(store, multiset{key})) && !(refused && stored)
    ensures forall other: string ::
              Raw(Protocol.AfterCreate(store, key, stored), other) == Raw(store, other)
              - (if other == key && (refused || stored) then 1 else 0)
  {
    UnitTakes(store, key);
    RefundOne(store[key := Raw(store, key) - 1], key, 1);
  }

  lemma CreateLeaves(store: map<string, int>, key: string)
    ensures var lowered := store[key := Raw(store, key) - 1];
            && Protocol.AfterCreate(store, key, true) == lowered
            && Protocol.AfterCreate(store, key, false) ==
               (if 0 <= Raw(lowered, key) then RefundAll(lowered, [key], [1]) else lowered)
  {
  }

  lemma StampedIds(n: Notification, now: i64)
    ensures forall id: nat :: Stamped(n, id, now).id == id
  {
  }

  lemma KeyOf(n: Notification)
    ensures ChargeKey(n) == RedisKey(OwnerOf(n)) == RedisKey(Owner(n.bizId, n.content.channel))
  {
  }

  lemma RefundRaw(store: map<string, int>, key: string)
    ensures forall other: string ::
              Raw(RefundAll(store, [key], [1]), other) ==
              if other != key then Raw(store, other) else if Raw(store, key) < 0 then 1 else Raw(store, key) + 1
  {
    RefundOne(store, key, 1);
  }

  lemma EmptyRaw(ns: seq<Notification>)
    requires ns == []
    ensures forall key: string :: Naming(ns, key) == {}
  {
  }

  lemma UnitsNext(ns: seq<Notification>, n: nat)
    requires n < |ns|
    ensures Units(OwnersOf(ns[..n + 1])) == Units(OwnersOf(ns[..n])) + [ChargeKey(ns[n])]
    ensures |Units(OwnersOf(ns[..n]))| == n && Units(OwnersOf(ns[..0])) == []
  {
  }

  /** left is what was kept of units, in order. */
  ghost predicate Among(left: seq<string>, units: seq<string>, all: bool) {
    && multiset(left) <= multiset(units) && |left| <= |units|
    && (if all then left == units else |left| < |units|)
  }

  lemma AmongNext(left: seq<string>, units: seq<string>, all: bool, key: string, kept: bool)
    requires Among(left, units, all)
    ensures Among(left + (if kept then [key] else []), units + [key], all && kept)
  {
    assert multiset(units + [key]) == multiset(units) + multiset{key};
    if kept {
      assert multiset(left + [key]) == multiset(left) + multiset{key};
    } else {
      assert left + [] == left;
    }
  }

  ghost predicate FirstKept(kept: set<nat>, n: nat) {
    forall i | 0 <= i < n :: i in kept
  }

  lemma FirstKeptNext(kept: set<nat>, n: nat)
    ensures FirstKept(kept, n + 1) <==> FirstKept(kept, n) && n in kept
    ensures FirstKept(kept, 0)
  {
  }

  lemma KeptUnitsNext(ns: seq<Notification>, kept: set<nat>, n: nat)
    requires n < |ns|
    ensures KeptUnits(ns, kept, n + 1) == KeptUnits(ns, kept, n) + (if n in kept then [ChargeKey(ns[n])] else [])
    ensures KeptUnits(ns, kept, 0) == []
  {
    hide ChargeKey;
  }

  lemma {:induction false} KeptAmongFirst(ns: seq<Notification>, kept: set<nat>, n: nat)
    requires n <= |ns|
    ensures Among(KeptUnits(ns, kept, n), Units(OwnersOf(ns[..n])), FirstKept(kept, n))
  {
    hide *;
    if n == 0 {
      NothingCharged(ns, kept);
    } else {
      KeptAmongFirst(ns, kept, n - 1);
      UnitsNext(ns, n - 1);
      KeptUnitsNext(ns, kept, n - 1);
      FirstKeptNext(kept, n - 1);
      AmongNext(KeptUnits(ns, kept, n - 1), Units(OwnersOf(ns[..n - 1])), FirstKept(kept, n - 1),
                ChargeKey(ns[n - 1]), n - 1 in kept);
    }
  }

  lemma NothingCharged(ns: seq<Notification>, kept: set<nat>)
    ensures Among(KeptUnits(ns, kept, 0), Units(OwnersOf(ns[..0])), FirstKept(kept, 0))
  {
    assert Units(OwnersOf(ns[..0])) == [];
  }

  /** The rows a batch leaves behind are all of it, or strictly fewer than were charged. */
  lemma KeptAmongCharged(ns: seq<Notification>, kept: set<nat>)
    ensures AllKept(ns, kept) ==> KeptUnits(ns, kept, |ns|) == Units(OwnersOf(ns))
    ensures !AllKept(ns, kept) ==> multiset(KeptUnits(ns, kept, |ns|)) < multiset(Units(OwnersOf(ns)))
  {
    KeptAmongFirst(ns, kept, |ns|);
    OwnersSize(ns);
    assert ns[..|ns|] == ns;
    hide KeptUnits, Units, OwnersOf, RedisKey;
    var left, units := KeptUnits(ns, kept, |ns|), Units(OwnersOf(ns));
    if !AllKept(ns, kept) {
      assert |multiset(left)| == |left| && |multiset(units)| == |units|;
      assert multiset(left) != multiset(units);
    }
  }

  datatype Created = Stored(row: Notification) | Refused | Failed(error: DaoError)

  class DefaultNotifRepo {
    const notifDAO: NotifShardingDAO
    const quotaCache: QuotaRedisCache

    constructor (notifDAO: NotifShardingDAO, quotaCache: QuotaRedisCache)
      ensures this.notifDAO == notifDAO && this.quotaCache == quotaCache
    {
      this.notifDAO, this.quotaCache := notifDAO, quotaCache;
    }

    /** A unit is used exactly when the row is stored. */
    method Create(n: Notification, needCallback: bool, millis: int, now: i64) returns (r: Created)
      requires notifDAO.Valid()
      modifies quotaCache.client, notifDAO, notifDAO.idGenerator
      ensures notifDAO.Valid()
      ensures r.Refused? <==> !Affords(old(quotaCache.client.store), multiset{ChargeKey(n)})
      ensures r.Stored? ==>
                && r.row == Stamped(n, r.row.id, now) && r.row.id !in old(notifDAO.flat)
                && notifDAO.flat == Apply(old(notifDAO.flat), Insert(r.row))
                && Taken(old(quotaCache.client.store), multiset{ChargeKey(n)}, quotaCache.client.store)
      ensures !r.Stored? ==>
                && notifDAO.flat == old(notifDAO.flat) && notifDAO.callbacks == old(notifDAO.callbacks)
                && Taken(old(quotaCache.client.store), multiset{}, quotaCache.client.store)
      ensures quotaCache.client.store == Protocol.AfterCreate(old(quotaCache.client.store), ChargeKey(n), r.Stored?)
      ensures forall key: string ::
                Raw(quotaCache.client.store, key) == Raw(old(quotaCache.client.store), key)
                - (if key == RedisKey(Owner(n.bizId, n.content.channel)) && !r.Failed? then 1 else 0)
    {
      hide *;
      KeyOf(n);
      StampedIds(n, now);
      ghost var before := quotaCache.client.store;
      ghost var key := ChargeKey(n);
      UnitTakes(before, key);
      UnitParam(OwnerOf(n));
      var outcome := quotaCache.Decr(QuotaParam(OwnerOf(n), 1));
      ghost var held := quotaCache.client.store;
      if outcome.Insufficient? {
        CreateRaw(before, key, true, false);
        CreateLeaves(before, key);
        return Refused;
      }
      var entity := notifDAO.Create(n, needCallback, millis, now);
      if entity.Err? {
        quotaCache.Incr(QuotaParam(OwnerOf(n), 1));
        UnitCharge(OwnerOf(n));
        ChargeRefunds(held, KeysOf([QuotaParam(OwnerOf(n), 1)]), ArgsOf([QuotaParam(OwnerOf(n), 1)]), [key]);
        TakenBack(before, multiset{key}, held, quotaCache.client.store);
        CreateRaw(before, key, false, false);
        CreateLeaves(before, key);
        return Failed(entity.error);
      }
      CreateRaw(before, key, false, true);
      CreateLeaves(before, key);
      return Stored(entity.value);
    }

    /** The units of a batch are used exactly when all of its rows are kept. A failed insert gives all
        of them back, whatever rows the other databases kept, and is only logged: the error says no more
        than that the quota was too small. Counts are int32, so the quota claims are for batches below
        2^31. */
    method BatchCreate(ns: seq<Notification>, needCallback: bool, now: i64, clock: u64 -> int, attempts: nat)
        returns (created: seq<Notification>, err: bool, ghost b: Batch, ghost rows: seq<Notification>,
                 ghost charged: seq<QuotaParam>)
      requires notifDAO.Valid()
      modifies quotaCache.client, notifDAO, notifDAO.idGenerator
      ensures notifDAO.Valid()
      ensures |ns| < TWO_31 ==> (err <==> !Affords(old(quotaCache.client.store), multiset(Units(OwnersOf(ns)))))
      ensures b.flat == old(notifDAO.flat) && b.cbs == old(notifDAO.callbacks)
      ensures |rows| == |ns| && Added(b, rows, notifDAO.flat, notifDAO.callbacks)
      ensures !err ==> forall i | 0 <= i < |ns| :: rows[i] == Stamped(ns[i], rows[i].id, now)
      ensures err ==> b.kept == {} && created == []
      ensures !err ==> created == if Unloaded(notifDAO.cfg, old(notifDAO.dbs), ns) then [] else rows
      ensures |ns| < TWO_31 ==>
                Taken(old(quotaCache.client.store),
                      if AllKept(ns, b.kept) then multiset(KeptUnits(ns, b.kept, |ns|)) else multiset{},
                      quotaCache.client.store)
      ensures !AllKept(ns, b.kept) ==> multiset(KeptUnits(ns, b.kept, |ns|)) < multiset(Units(OwnersOf(ns)))
      ensures |ns| < TWO_31 ==> Charges(KeysOf(charged), ArgsOf(charged), Units(OwnersOf(ns)))
      ensures quotaCache.client.store ==
              Protocol.AfterBatch(old(quotaCache.client.store), KeysOf(charged), ArgsOf(charged), AllKept(ns, b.kept))
      ensures |ns| < TWO_31 ==>
                forall key: string ::
                  Raw(quotaCache.client.store, key) == Raw(old(quotaCache.client.store), key)
                  - (if !err && AllKept(ns, b.kept) then |Naming(ns, key)| else 0)
    {
      hide *;
      var before := quotaCache.client.store;
      b, rows := Batch(notifDAO.flat, notifDAO.callbacks, {}, needCallback, now), ns;
      NothingAdded(b, rows);
      if |ns| == 0 {
        EmptyBatch(ns, before, b.kept);
        NoneUnloaded(notifDAO.cfg, notifDAO.dbs, ns);
        EmptyRaw(ns);
        return [], false, b, rows, [];
      }
      KeptAmongCharged(ns, b.kept);
      NoneKept(ns);
      var quotaParams := BuildQuotaParams(OwnersOf(ns));
      OwnersSize(ns);
      if |ns| < TWO_31 {
        TalliesCharge(quotaParams, OwnersOf(ns));
        ChargeTakes(before, KeysOf(quotaParams), ArgsOf(quotaParams), Units(OwnersOf(ns)));
      }
      TakenNone(before);
      charged := quotaParams;
      BatchLeaves(before, charged);
      if |ns| < TWO_31 {
        BatchRawAll(before, charged, ns, false);
        BatchRawAll(before, charged, ns, true);
      }
      var outcome := quotaCache.BatchDecr(quotaParams);
      if outcome.Insufficient? {
        return [], true, b, rows, quotaParams;
      }
      ghost var held := quotaCache.client.store;
      var failed;
      created, failed, b, rows := notifDAO.BatchCreate(ns, needCallback, now, clock, attempts);
      KeptAmongCharged(ns, b.kept);
      KeptIffNoError(ns, b.kept, failed);
      if failed.Some? {
        quotaCache.BatchIncr(quotaParams);
        if |ns| < TWO_31 {
          ChargeRefunds(held, KeysOf(quotaParams), ArgsOf(quotaParams), Units(OwnersOf(ns)));
          TakenBack(before, multiset(Units(OwnersOf(ns))), held, quotaCache.client.store);
        }
      }
      err := false;
    }

    /** A unit comes back whenever the store reports no error, even when there was no such row. */
    method MarkFailure(n: Notification, now: i64) returns (err: Option<DaoError>)
      requires notifDAO.Valid()
      modifies quotaCache.client, notifDAO
      ensures notifDAO.Valid() && notifDAO.callbacks == old(notifDAO.callbacks)
      ensures err.None? ==>
                && notifDAO.flat == Apply(old(notifDAO.flat), Mark(n.id, n.status, now))
                && Given(old(quotaCache.client.store), multiset{ChargeKey(n)}, quotaCache.client.store)
                && quotaCache.client.store == RefundAll(old(quotaCache.client.store), [ChargeKey(n)], [1])
                && forall key: string ::
                     var raw := Raw(old(quotaCache.client.store), key);
                     Raw(quotaCache.client.store, key) ==
                     if key != RedisKey(Owner(n.bizId, n.content.channel)) then raw else if raw < 0 then 1 else raw + 1
      ensures err.Some? ==>
                notifDAO.flat == old(notifDAO.flat) && quotaCache.client.store == old(quotaCache.client.store)
      ensures err == NoAccess(old(notifDAO.dbs), notifDAO.cfg.IdHome(n.id).db, notifDAO.cfg.IdHome(n.id).table)
    {
      hide Given, Charges, RefundAll, RedisKey, NotifShardingDAO.Valid, Apply, NoAccess, Config.IdHome;
      ghost var before := quotaCache.client.store;
      err := notifDAO.MarkFailure(n.id, n.status, now);
      if err.Some? {
        return;
      }
      UnitCharge(OwnerOf(n));
      UnitParam(OwnerOf(n));
      ChargeRefunds(before, KeysOf([QuotaParam(OwnerOf(n), 1)]), ArgsOf([QuotaParam(OwnerOf(n), 1)]), [ChargeKey(n)]);
      RefundRaw(before, ChargeKey(n));
      quotaCache.Incr(QuotaParam(OwnerOf(n), 1));
    }
  }

  lemma OwnersSize(ns: seq<Notification>)
    ensures |OwnersOf(ns)| == |ns|
  {
  }

  lemma NoneKept(ns: seq<Notification>)
    requires ns != []
    ensures !AllKept(ns, {})
  {
    var none: set<nat> := {};
    assert 0 !in none;
  }

  lemma EmptyBatch(ns: seq<Notification>, store: map<string, int>, kept: set<nat>)
    requires ns == []
    ensures AllKept(ns, kept) && KeptUnits(ns, kept, |ns|) == []
    ensures Taken(store, multiset([]), store) && Affords(store, multiset(Units(OwnersOf(ns))))
    ensures Charges(KeysOf([]), ArgsOf([]), Units(OwnersOf(ns)))
    ensures Protocol.AfterBatch(store, KeysOf([]), ArgsOf([]), true) == store
  {
    assert Units(OwnersOf(ns)) == [] && KeysOf([]) == [] && ArgsOf([]) == [];
  }

  lemma BatchLeaves(store: map<string, int>, ps: seq<QuotaParam>)
    ensures |KeysOf(ps)| == |ArgsOf(ps)|
    ensures Covered(store, KeysOf(ps), ArgsOf(ps)) ==>
              var held := DecrAll(store, KeysOf(ps), ArgsOf(ps));
              && Protocol.AfterBatch(store, KeysOf(ps), ArgsOf(ps), true) == held
              && Protocol.AfterBatch(store, KeysOf(ps), ArgsOf(ps), false) == RefundAll(held, KeysOf(ps), ArgsOf(ps))
    ensures !Covered(store, KeysOf(ps), ArgsOf(ps)) ==>
              Protocol.AfterBatch(store, KeysOf(ps), ArgsOf(ps), false) == store
  {
  }

  lemma UnitParam(o: Owner)
    ensures KeysOf([QuotaParam(o, 1)]) == [RedisKey(o)] && ArgsOf([QuotaParam(o, 1)]) == [1]
  {
  }

  lemma NoneUnloaded(cfg: Config, dbs: Dbs, ns: seq<Notification>)
    requires ns == []
    ensures !Unloaded(cfg, dbs, ns)
  {
  }

  lemma KeptIffNoError(ns: seq<Notification>, kept: set<nat>, err: Option<DaoError>)
    requires err.None? <==> forall i | 0 <= i < |ns| :: i in kept
    ensures err.None? <==> AllKept(ns, kept)
  {
  }
}
