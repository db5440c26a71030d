/**
 The two-tier configuration cache: internal/repository/biz_conf.go over the process-local and the
 redis cache, both with a 15 minute expiry. Refilling the local tier from redis starts a fresh
 15 minutes, so an answer can be older than one expiry. Times are milliseconds.
 */
module BizConfCache {
  import opened Words
  import opened Decimals

  const DEFAULT_EXPIRES: int := 15 * 60 * 1000

  /** Sub-configurations are optional and carried unread. */
  datatype BizConf = BizConf(id: u64, ownerId: u64, ownerType: string, rateLimit: int,
                             channelConf: Option<string>, txNotifConf: Option<string>,
                             quotaConf: Option<string>, callbackConf: Option<string>,
                             createAt: int, updateAt: int)

  datatype Entry = Entry(conf: BizConf, expires: int)

  function BizConfCacheKey(id: u64): string {
    "biz_conf:" + Numeral(id)
  }

  lemma CacheKeyInjective(a: u64, b: u64)
    requires BizConfCacheKey(a) == BizConfCacheKey(b)
    ensures a == b
  {
    PrefixThenNumeral("biz_conf:", a, b);
  }

  /** The key reads "biz_conf:" and the number. */
  lemma CacheKeyParts(id: u64)
    ensures var key := BizConfCacheKey(id);
            9 < |key| && key[..9] == "biz_conf:" && Value(key[9..]) == id
  {
    Parts("biz_conf:", id, "");
    var key := BizConfCacheKey(id);
    assert key == "biz_conf:" + Numeral(id) + "" && key[9..|key|] == key[9..];
  }

  function Put(cache: map<string, Entry>, id: u64, conf: BizConf, now: int): map<string, Entry> {
    cache[BizConfCacheKey(id) := Entry(conf, now + DEFAULT_EXPIRES)]
  }

  /** Both caches still serve an entry at the very millisecond it expires. */
  function Served(cache: map<string, Entry>, id: u64, now: int): Option<BizConf> {
    var key := BizConfCacheKey(id);
    if key in cache && now <= cache[key].expires then Some(cache[key].conf) else None
  }

  class BizConfLocalCache {
    var gc: map<string, Entry>

    constructor ()
      ensures gc == map[]
    {
      gc := map[];
    }

    method Set(id: u64, conf: BizConf, now: int)
      modifies this
      ensures gc == Put(old(gc), id, conf, now)
    {
      gc := gc[BizConfCacheKey(id) := Entry(conf, now + DEFAULT_EXPIRES)];
    }

    method Get(id: u64, now: int) returns (r: Option<BizConf>)
      ensures r == Served(gc, id, now)
    {
      var key := BizConfCacheKey(id);
      if key !in gc {
        return None;
      }
      if gc[key].expires < now {
        return None;
      }
      return Some(gc[key].conf);
    }
  }

  class BizConfRedisCache {
    var client: map<string, Entry>

    constructor ()
      ensures client == map[]
    {
      client := map[];
    }

    /** up: the server could be reached. */
    method Set(id: u64, conf: BizConf, now: int, up: bool) returns (err: bool)
      modifies this
      ensures err == !up && client == if up then Put(old(client), id, conf, now) else old(client)
    {
      if !up {
        return true;
      }
      client := client[BizConfCacheKey(id) := Entry(conf, now + DEFAULT_EXPIRES)];
      return false;
    }

    method Get(id: u64, now: int, up: bool) returns (r: Option<BizConf>)
      ensures r == if up then Served(client, id, now) else None
    {
      var key := BizConfCacheKey(id);
      if !up || key !in client {
        return None;
      }
      if client[key].expires < now {
        return None;
      }
      return Some(client[key].conf);
    }
  }

  /** The clock at each cache access of one call, and whether redis could be reached. */
  datatype Weather = Weather(localGet: int, redisGet: int, localSet: int, redisSet: int, getUp: bool, setUp: bool)

  datatype Looked = Looked(answer: Option<BizConf>, local: map<string, Entry>, redis: map<string, Entry>)

  /** What GetById answers and leaves in the caches; dao is the database's answer, should it be asked. */
  function Lookup(local: map<string, Entry>, redis: map<string, Entry>, id: u64, dao: Option<BizConf>,
                  t: Weather): Looked {
    var first := Served(local, id, t.localGet);
    var second := if t.getUp then Served(redis, id, t.redisGet) else None;
    if first.Some? then Looked(first, local, redis)
    else if second.Some? then Looked(second, Put(local, id, second.value, t.localSet), redis)
    else if dao.None? then Looked(None, local, redis)
    else Looked(dao, Put(local, id, dao.value, t.localSet),
                if t.setUp then Put(redis, id, dao.value, t.redisSet) else redis)
  }

  class DefaultBizConfRepo {
    const localCache: BizConfLocalCache
    const redisCache: BizConfRedisCache

    constructor (localCache: BizConfLocalCache, redisCache: BizConfRedisCache)
      ensures this.localCache == localCache && this.redisCache == redisCache
    {
      this.localCache, this.redisCache := localCache, redisCache;
    }

    method GetById(id: u64, dao: Option<BizConf>, t: Weather) returns (r: Option<BizConf>)
      modifies localCache, redisCache
      ensures Looked(r, localCache.gc, redisCache.client)
           == Lookup(old(localCache.gc), old(redisCache.client), id, dao, t)
    {
      var bizConf := localCache.Get(id, t.localGet);
      if bizConf.Some? {
        return bizConf;
      }
      bizConf := redisCache.Get(id, t.redisGet, t.getUp);
      if bizConf.Some? {
        localCache.Set(id, bizConf.value, t.localSet);
        return bizConf;
      }
      if dao.None? {
        return None;
      }
      localCache.Set(id, dao.value, t.localSet);
      var rcErr := redisCache.Set(id, dao.value, t.redisSet, t.setUp);
      return dao;
    }
  }

  /** What a call loads it keeps for an expiry: until then the same instance answers the same again from
      its own cache, and, if redis took it, so does any instance that finds redis up, whatever the
      database says by then. A refill from redis is kept as long. */
  lemma AnswersRepeat(local: map<string, Entry>, redis: map<string, Entry>, id: u64, dao: Option<BizConf>, t: Weather,
                      again: Weather, dao': Option<BizConf>, other: map<string, Entry>)
    requires Served(local, id, t.localGet).None?
    ensures var first := Lookup(local, redis, id, dao, t);
            && (first.answer.Some? && again.localGet <= t.localSet + 900_000 ==>
                  Lookup(first.local, redis, id, dao', again) == Looked(first.answer, first.local, redis))
            && (first.answer.Some? && (t.getUp ==> Served(redis, id, t.redisGet).None?) && t.setUp && again.getUp
                && again.redisGet <= t.redisSet + 900_000 && Served(other, id, again.localGet).None? ==>
                  Lookup(other, first.redis, id, dao', again).answer == first.answer)
  {
    hide BizConfCacheKey;
  }

  // ---------------------------------------------------------------- the database over time

  datatype Write = Write(at: int, id: u64, conf: Option<BizConf>)

  function DbValue(history: seq<Write>, id: u64): Option<BizConf> {
    if history == [] then None
    else
      var last := history[|history| - 1];
      if last.id == id then last.conf else DbValue(history[..|history| - 1], id)
  }

  /** A write is what the database says of its id from then on, absence included, and nothing to others. */
  lemma LastWriteCounts(history: seq<Write>, w: Write, id: u64)
    ensures DbValue([], id) == None
    ensures DbValue(history + [w], id) == if id == w.id then w.conf else DbValue(history, id)
  {
    assert (history + [w])[..|history|] == history;
  }

  /** After some number of its writes the database said so, and the next write, if there has been
      one, came no earlier than `since`: the value was current at some moment from then on. */
  ghost predicate CurrentSince(history: seq<Write>, id: u64, value: Option<BizConf>, since: int) {
    exists n :: 0 <= n <= |history| && DbValue(history[..n], id) == value
                && (n < |history| ==> since <= history[n].at)
  }

  lemma CurrentNow(history: seq<Write>, id: u64, since: int)
    ensures CurrentSince(history, id, DbValue(history, id), since)
  {
    assert history[..|history|] == history;
  }

  lemma CurrentEarlier(history: seq<Write>, id: u64, value: Option<BizConf>, since: int, earlier: int)
    requires CurrentSince(history, id, value, since) && earlier <= since
    ensures CurrentSince(history, id, value, earlier)
  {
    var n :| 0 <= n <= |history| && DbValue(history[..n], id) == value && (n < |history| ==> since <= history[n].at);
  }

  lemma CurrentGrows(history: seq<Write>, w: Write, id: u64, value: Option<BizConf>, since: int)
    requires CurrentSince(history, id, value, since) && since <= w.at
    ensures CurrentSince(history + [w], id, value, since)
  {
    var n :| 0 <= n <= |history| && DbValue(history[..n], id) == value && (n < |history| ==> since <= history[n].at);
    assert (history + [w])[..n] == history[..n];
  }

  // ---------------------------------------------------------------- many instances, step by step

  /** Where a GetById call stands. The last phase carries the answer, its time and how many database
      writes had happened by then. */
  datatype Phase =
    | Asked
    | LocalMissed
    | RedisHit(conf: BizConf)
    | RedisMissed
    | Loaded(conf: BizConf)
    | LocalSet(conf: BizConf)
    | Answered(answer: Option<BizConf>, at: int, seen: nat)

  datatype Call = Call(inst: nat, id: u64, started: int, phase: Phase)

  datatype World = World(now: int, history: seq<Write>, locals: seq<map<string, Entry>>,
                         redis: map<string, Entry>, calls: seq<Call>)

  datatype Event =
    | Tick(to: int)
    | Update(id: u64, conf: Option<BizConf>)
    | EvictLocal(inst: nat, key: string)
    | EvictRedis(key: string)
    | Ask(inst: nat, id: u64)
    | Advance(call: nat, up: bool)

  /** No call takes longer than d from start to answer. */
  ghost predicate Enabled(w: World, d: nat, e: Event) {
    match e
    case Tick(to) => w.now <= to
    case Update(_, _) => true
    case EvictLocal(inst, _) => inst < |w.locals|
    case EvictRedis(_) => true
    case Ask(inst, _) => inst < |w.locals|
    case Advance(c, _) =>
      && c < |w.calls| && !w.calls[c].phase.Answered? && w.calls[c].inst < |w.locals|
      && w.now <= w.calls[c].started + d
  }

  ghost function Answer(w: World, answer: Option<BizConf>): Phase {
    Answered(answer, w.now, |w.history|)
  }

  /** The next access of a call. up says whether redis can be reached. */
  ghost function Advanced(w: World, c: nat, up: bool): World
    requires c < |w.calls| && w.calls[c].inst < |w.locals| && !w.calls[c].phase.Answered?
  {
    var call := w.calls[c];
    var local := w.locals[call.inst];
    match call.phase
    case Asked =>
      var r := Served(local, call.id, w.now);
      w.(calls := w.calls[c := call.(phase := if r.Some? then Answer(w, r) else LocalMissed)])
    case LocalMissed =>
      var r := if up then Served(w.redis, call.id, w.now) else None;
      w.(calls := w.calls[c := call.(phase := if r.Some? then RedisHit(r.value) else RedisMissed)])
    case RedisHit(conf) =>
      w.(locals := w.locals[call.inst := Put(local, call.id, conf, w.now)],
         calls := w.calls[c := call.(phase := Answer(w, Some(conf)))])
    case RedisMissed =>
      var r := DbValue(w.history, call.id);
      w.(calls := w.calls[c := call.(phase := if r.Some? then Loaded(r.value) else Answer(w, None))])
    case Loaded(conf) =>
      w.(locals := w.locals[call.inst := Put(local, call.id, conf, w.now)],
         calls := w.calls[c := call.(phase := LocalSet(conf))])
    case LocalSet(conf) =>
      w.(redis := if up then Put(w.redis, call.id, conf, w.now) else w.redis,
         calls := w.calls[c := call.(phase := Answer(w, Some(conf)))])
  }

  ghost function Step(w: World, d: nat, e: Event): World
    requires Enabled(w, d, e)
  {
    match e
    case Tick(to) => w.(now := to)
    case Update(id, conf) => w.(history := w.history + [Write(w.now, id, conf)])
    case EvictLocal(inst, key) => w.(locals := w.locals[inst := w.locals[inst] - {key}])
    case EvictRedis(key) => w.(redis := w.redis - {key})
    case Ask(inst, id) => w.(calls := w.calls + [Call(inst, id, w.now, Asked)])
    case Advance(c, up) => Advanced(w, c, up)
  }

  /** An evicted entry is not served: the next call of that instance looks further, and so does any call
      that gets as far as redis when it is redis that evicted. */
  lemma EvictedIsMissed(w: World, d: nat, inst: nat, id: u64, now: int)
    requires inst < |w.locals|
    ensures Served(Step(w, d, EvictLocal(inst, BizConfCacheKey(id))).locals[inst], id, now) == None
    ensures Served(Step(w, d, EvictRedis(BizConfCacheKey(id))).redis, id, now) == None
  {
  }

  ghost predicate Reaches(w: World, d: nat, events: seq<Event>, r: World)
    decreases |events|
  {
    if events == [] then r == w
    else Enabled(w, d, events[0]) && Reaches(Step(w, d, events[0]), d, events[1..], r)
  }

  // ---------------------------------------------------------------- the invariant

  /** How long before it expires a local entry may last have been current: two expiries and two calls. */
  function LocalAge(d: nat): int {
    2 * (DEFAULT_EXPIRES + d)
  }

  /** Entries of a cache whose values were current no longer ago than `age` before they expire. */
  ghost predicate CacheFresh(cache: map<string, Entry>, now: int, history: seq<Write>, age: int) {
    forall id: u64 | BizConfCacheKey(id) in cache :: EntryFresh(cache[BizConfCacheKey(id)], id, now, history, age)
  }

  ghost predicate EntryFresh(entry: Entry, id: u64, now: int, history: seq<Write>, age: int) {
    && entry.expires <= now + DEFAULT_EXPIRES
    && CurrentSince(history, id, Some(entry.conf), entry.expires - age)
  }

  ghost predicate CallFresh(call: Call, now: int, history: seq<Write>, d: nat) {
    && call.started <= now
    && match call.phase
       case Asked => true
       case LocalMissed => true
       case RedisHit(conf) => CurrentSince(history, call.id, Some(conf), call.started - DEFAULT_EXPIRES - d)
       case RedisMissed => true
       case Loaded(conf) => CurrentSince(history, call.id, Some(conf), call.started)
       case LocalSet(conf) => CurrentSince(history, call.id, Some(conf), call.started)
       case Answered(answer, at, seen) =>
         seen <= |history| && at <= now && CurrentSince(history[..seen], call.id, answer, at - LocalAge(d))
         && (answer.None? ==> CurrentSince(history[..seen], call.id, None, call.started))
  }

  ghost predicate Inv(w: World, d: nat) {
    && CacheFresh(w.redis, w.now, w.history, DEFAULT_EXPIRES + d)
    && (forall i | 0 <= i < |w.locals| :: CacheFresh(w.locals[i], w.now, w.history, LocalAge(d)))
    && (forall c | 0 <= c < |w.calls| :: CallFresh(w.calls[c], w.now, w.history, d))
  }

  lemma PutFresh(cache: map<string, Entry>, id: u64, conf: BizConf, now: int, history: seq<Write>, age: int, since: int)
    requires CacheFresh(cache, now, history, age)
    requires CurrentSince(history, id, Some(conf), since) && now + DEFAULT_EXPIRES - age <= since
    ensures CacheFresh(Put(cache, id, conf, now), now, history, age)
  {
    hide CurrentSince, BizConfCacheKey;
    CurrentEarlier(history, id, Some(conf), since, now + DEFAULT_EXPIRES - age);
    forall other: u64 | BizConfCacheKey(other) == BizConfCacheKey(id)
      ensures other == id
    {
      CacheKeyInjective(other, id);
    }
  }

  lemma CacheGrows(cache: map<string, Entry>, now: int, history: seq<Write>, w: Write, age: int)
    requires CacheFresh(cache, now, history, age) && w.at == now && DEFAULT_EXPIRES <= age
    ensures CacheFresh(cache, now, history + [w], age)
  {
    hide CurrentSince, BizConfCacheKey;
    forall id: u64 | BizConfCacheKey(id) in cache
      ensures EntryFresh(cache[BizConfCacheKey(id)], id, now, history + [w], age)
    {
      var entry := cache[BizConfCacheKey(id)];
      CurrentGrows(history, w, id, Some(entry.conf), entry.expires - age);
    }
  }

  lemma CallGrows(call: Call, now: int, history: seq<Write>, w: Write, d: nat)
    requires CallFresh(call, now, history, d) && w.at == now
    ensures CallFresh(call, now, history + [w], d)
  {
    hide CurrentSince, DbValue;
    match call.phase {
      case RedisHit(conf) => CurrentGrows(history, w, call.id, Some(conf), call.started - DEFAULT_EXPIRES - d);
      case Loaded(conf) => CurrentGrows(history, w, call.id, Some(conf), call.started);
      case LocalSet(conf) => CurrentGrows(history, w, call.id, Some(conf), call.started);
      case Answered(answer, at, seen) => assert (history + [w])[..seen] == history[..seen];
      case _ =>
    }
  }

  lemma UpdateStep(w: World, d: nat, id: u64, conf: Option<BizConf>)
    requires Inv(w, d)
    ensures Inv(Step(w, d, Update(id, conf)), d)
  {
    hide CacheFresh, CallFresh;
    var write := Write(w.now, id, conf);
    CacheGrows(w.redis, w.now, w.history, write, DEFAULT_EXPIRES + d);
    forall i | 0 <= i < |w.locals|
      ensures CacheFresh(w.locals[i], w.now, w.history + [write], LocalAge(d))
    {
      CacheGrows(w.locals[i], w.now, w.history, write, LocalAge(d));
    }
    forall c | 0 <= c < |w.calls|
      ensures CallFresh(w.calls[c], w.now, w.history + [write], d)
    {
      CallGrows(w.calls[c], w.now, w.history, write, d);
    }
  }

  lemma ReadStep(w: World, d: nat, c: nat, up: bool)
    requires Enabled(w, d, Advance(c, up)) && Inv(w, d)
    requires w.calls[c].phase.Asked? || w.calls[c].phase.LocalMissed? || w.calls[c].phase.RedisMissed?
    ensures Inv(Advanced(w, c, up), d)
  {
    hide CurrentSince, DbValue, BizConfCacheKey;
    var call := w.calls[c];
    var key, since := BizConfCacheKey(call.id), w.now - LocalAge(d);
    assert w.history[..|w.history|] == w.history;
    match call.phase {
      case Asked =>
        var local := w.locals[call.inst];
        if key in local && w.now <= local[key].expires {
          CurrentEarlier(w.history, call.id, Some(local[key].conf),
                         local[key].expires - LocalAge(d), since);
        }
      case LocalMissed =>
        if key in w.redis && w.now <= w.redis[key].expires {
          CurrentEarlier(w.history, call.id, Some(w.redis[key].conf), w.redis[key].expires - DEFAULT_EXPIRES - d,
                         call.started - DEFAULT_EXPIRES - d);
        }
      case RedisMissed =>
        CurrentNow(w.history, call.id, call.started);
        CurrentNow(w.history, call.id, since);
    }
  }

  lemma FillStep(w: World, d: nat, c: nat, up: bool)
    requires Enabled(w, d, Advance(c, up)) && Inv(w, d)
    requires w.calls[c].phase.RedisHit? || w.calls[c].phase.Loaded? || w.calls[c].phase.LocalSet?
    ensures Inv(Advanced(w, c, up), d)
  {
    hide CurrentSince, DbValue, BizConfCacheKey, CacheFresh, Put;
    var call := w.calls[c];
    var local, conf := w.locals[call.inst], call.phase.conf;
    var since := w.now - LocalAge(d);
    assert w.history[..|w.history|] == w.history;
    match call.phase {
      case RedisHit(_) =>
        CurrentEarlier(w.history, call.id, Some(conf), call.started - DEFAULT_EXPIRES - d, since);
        PutFresh(local, call.id, conf, w.now, w.history, LocalAge(d),
                 call.started - DEFAULT_EXPIRES - d);
      case Loaded(_) =>
        PutFresh(local, call.id, conf, w.now, w.history, LocalAge(d), call.started);
      case LocalSet(_) =>
        CurrentEarlier(w.history, call.id, Some(conf), call.started, since);
        PutFresh(w.redis, call.id, conf, w.now, w.history, DEFAULT_EXPIRES + d, call.started);
    }
  }

  lemma InvStep(w: World, d: nat, e: Event)
    requires Enabled(w, d, e) && Inv(w, d)
    ensures Inv(Step(w, d, e), d)
  {
    hide CurrentSince, DbValue, BizConfCacheKey, Advanced;
    match e {
      case Update(id, conf) => UpdateStep(w, d, id, conf);
      case Advance(c, up) =>
        if w.calls[c].phase.RedisHit? || w.calls[c].phase.Loaded? || w.calls[c].phase.LocalSet? {
          FillStep(w, d, c, up);
        } else {
          ReadStep(w, d, c, up);
        }
      case _ =>
    }
  }

  lemma {:induction false} InvRun(w: World, d: nat, events: seq<Event>, r: World)
    requires Inv(w, d) && Reaches(w, d, events, r)
    ensures Inv(r, d)
    decreases |events|
  {
    hide Inv, Step, Enabled;
    if events != [] {
      InvStep(w, d, events[0]);
      InvRun(Step(w, d, events[0]), d, events[1..], r);
    }
  }

  /** Empty caches and no call yet; the database may have any past. */
  ghost predicate Cold(w: World) {
    && w.redis == map[] && w.calls == []
    && forall i | 0 <= i < |w.locals| :: w.locals[i] == map[]
  }

  /** However many instances share redis and however their calls, the updates, the evictions and the
      failures interleave, an answer was the database's at some moment within the last
      2 * (DEFAULT_EXPIRES + d) milliseconds, d bounding one call. */
  lemma StalenessBound(w: World, d: nat, events: seq<Event>, r: World, c: nat)
    requires Cold(w) && Reaches(w, d, events, r) && c < |r.calls| && r.calls[c].phase.Answered?
    ensures var call := r.calls[c];
            && call.phase.seen <= |r.history|
            && CurrentSince(r.history[..call.phase.seen], call.id, call.phase.answer,
                            call.phase.at - 2 * (DEFAULT_EXPIRES + d))
  {
    InvRun(w, d, events, r);
  }

  /** With calls that take no time, within 30 minutes. */
  lemma ThirtyMinutes(w: World, events: seq<Event>, r: World, c: nat)
    requires Cold(w) && Reaches(w, 0, events, r) && c < |r.calls| && r.calls[c].phase.Answered?
    ensures var call := r.calls[c];
            && call.phase.seen <= |r.history|
            && CurrentSince(r.history[..call.phase.seen], call.id, call.phase.answer, call.phase.at - 1800000)
  {
    hide Reaches, CurrentSince, Cold;
    StalenessBound(w, 0, events, r, c);
  }

  /** An absence is never stale: the database had no such configuration at some moment of the call. */
  lemma AbsenceIsCurrent(w: World, d: nat, events: seq<Event>, r: World, c: nat)
    requires Cold(w) && Reaches(w, d, events, r) && c < |r.calls|
    requires r.calls[c].phase.Answered? && r.calls[c].phase.answer.None?
    ensures var call := r.calls[c];
            && call.phase.seen <= |r.history|
            && CurrentSince(r.history[..call.phase.seen], call.id, None, call.started)
  {
    InvRun(w, d, events, r);
  }

  // ---------------------------------------------------------------- an undisturbed call

  lemma Then(w: World, d: nat, e: Event, rest: seq<Event>, r: World)
    requires Enabled(w, d, e) && Reaches(Step(w, d, e), d, rest, r)
    ensures Reaches(w, d, [e] + rest, r)
  {
    assert ([e] + rest)[1..] == rest;
  }

  lemma {:induction false} ReachesAppend(w: World, d: nat, first: seq<Event>, v: World, rest: seq<Event>, r: World)
    requires Reaches(w, d, first, v) && Reaches(v, d, rest, r)
    ensures Reaches(w, d, first + rest, r)
    decreases |first|
  {
    hide Enabled, Step;
    if first == [] {
      assert first + rest == rest;
    } else {
      ReachesAppend(Step(w, d, first[0]), d, first[1..], v, rest, r);
      assert (first + rest)[1..] == first[1..] + rest;
    }
  }

  /** The call has its answer at a moment, and the caches are as given. */
  ghost function Finished(w: World, c: nat, looked: Looked, at: int): World
    requires c < |w.calls| && w.calls[c].inst < |w.locals|
  {
    w.(now := at, locals := w.locals[w.calls[c].inst := looked.local], redis := looked.redis,
       calls := w.calls[c := w.calls[c].(phase := Answered(looked.answer, at, |w.history|))])
  }

  /** The clock moves on to a reading, then the call makes its next access. */
  lemma AccessAt(w: World, d: nat, c: nat, up: bool, at: int, rest: seq<Event>, r: World)
    requires Enabled(w.(now := at), d, Advance(c, up)) && w.now <= at
    requires Reaches(Advanced(w.(now := at), c, up), d, rest, r)
    ensures Reaches(w, d, [Tick(at)] + ([Advance(c, up)] + rest), r)
  {
    hide Advanced;
    Then(w.(now := at), d, Advance(c, up), rest, r);
    Then(w, d, Tick(at), [Advance(c, up)] + rest, r);
  }

  ghost function Access(c: nat, up: bool, at: int, rest: seq<Event>): seq<Event> {
    [Tick(at)] + ([Advance(c, up)] + rest)
  }

  /** The readings still to come are in order from `from` on, all before the call's time is up. */
  ghost predicate InTime(w: World, d: nat, c: nat, from: int, t: Weather) {
    && c < |w.calls| && w.calls[c].inst < |w.locals|
    && w.now <= from <= t.localSet <= t.redisSet <= w.calls[c].started + d
  }

  lemma FinishLoaded(w: World, d: nat, c: nat, t: Weather) returns (events: seq<Event>)
    requires InTime(w, d, c, w.now, t) && w.calls[c].phase.Loaded?
    ensures var call := w.calls[c];
            var conf := call.phase.conf;
            var redis := if t.setUp then Put(w.redis, call.id, conf, t.redisSet) else w.redis;
            var local := Put(w.locals[call.inst], call.id, conf, t.localSet);
            Reaches(w, d, events, Finished(w, c, Looked(Some(conf), local, redis), t.redisSet))
  {
    hide Put, Reaches;
    var call := w.calls[c];
    var v := Advanced(w.(now := t.localSet), c, true);
    var r := Advanced(v.(now := t.redisSet), c, t.setUp);
    var local := Put(w.locals[call.inst], call.id, call.phase.conf, t.localSet);
    assert r == Finished(w, c, Looked(Some(call.phase.conf), local, r.redis), t.redisSet);
    ReachesSelf(r, d);
    AccessAt(v, d, c, t.setUp, t.redisSet, [], r);
    AccessAt(w, d, c, true, t.localSet, Access(c, t.setUp, t.redisSet, []), r);
    events := Access(c, true, t.localSet, Access(c, t.setUp, t.redisSet, []));
  }

  lemma ReachesSelf(w: World, d: nat)
    ensures Reaches(w, d, [], w)
  {
  }

  /** What GetById answers and leaves behind in this world, and when the answer is there: with the
      access that settles it. */
  ghost function Looks(w: World, c: nat, t: Weather): Looked
    requires c < |w.calls| && w.calls[c].inst < |w.locals|
  {
    var call := w.calls[c];
    Lookup(w.locals[call.inst], w.redis, call.id, DbValue(w.history, call.id), t)
  }

  ghost function AnswerTime(w: World, c: nat, t: Weather): int
    requires c < |w.calls| && w.calls[c].inst < |w.locals|
  {
    var call := w.calls[c];
    if Served(w.locals[call.inst], call.id, t.localGet).Some? then t.localGet
    else if t.getUp && Served(w.redis, call.id, t.redisGet).Some? then t.localSet
    else if DbValue(w.history, call.id).None? then t.redisGet
    else t.redisSet
  }

  /** Nothing usable in either cache. */
  lemma FinishMissed(w: World, d: nat, c: nat, t: Weather) returns (events: seq<Event>)
    requires InTime(w, d, c, t.redisGet, t) && w.calls[c].phase.RedisMissed? && w.now == t.redisGet
    requires Served(w.locals[w.calls[c].inst], w.calls[c].id, t.localGet).None?
    requires !(t.getUp && Served(w.redis, w.calls[c].id, t.redisGet).Some?)
    ensures Reaches(w, d, events, Finished(w, c, Looks(w, c, t), AnswerTime(w, c, t)))
  {
    hide Put, DbValue, Served, Reaches;
    var v := Advanced(w, c, true);
    var r := Finished(w, c, Looks(w, c, t), AnswerTime(w, c, t));
    assert w.(now := t.redisGet) == w;
    if DbValue(w.history, w.calls[c].id).None? {
      assert v == r;
      ReachesSelf(r, d);
      AccessAt(w, d, c, true, t.redisGet, [], r);
      events := Access(c, true, t.redisGet, []);
    } else {
      var rest := FinishLoaded(v, d, c, t);
      assert Finished(v, c, Looks(w, c, t), t.redisSet) == r;
      AccessAt(w, d, c, true, t.redisGet, rest, r);
      events := Access(c, true, t.redisGet, rest);
    }
  }

  lemma FinishLocalMissed(w: World, d: nat, c: nat, t: Weather) returns (events: seq<Event>)
    requires InTime(w, d, c, t.redisGet, t) && w.calls[c].phase.LocalMissed?
    requires Served(w.locals[w.calls[c].inst], w.calls[c].id, t.localGet).None?
    ensures Reaches(w, d, events, Finished(w, c, Looks(w, c, t), AnswerTime(w, c, t)))
  {
    hide Put, DbValue, Served, Reaches;
    var v := Advanced(w.(now := t.redisGet), c, t.getUp);
    var r := Finished(w, c, Looks(w, c, t), AnswerTime(w, c, t));
    if v.calls[c].phase.RedisHit? {
      var u := Advanced(v.(now := t.localSet), c, true);
      assert u == r;
      ReachesSelf(r, d);
      AccessAt(v, d, c, true, t.localSet, [], r);
      AccessAt(w, d, c, t.getUp, t.redisGet, Access(c, true, t.localSet, []), r);
      events := Access(c, t.getUp, t.redisGet, Access(c, true, t.localSet, []));
    } else {
      var rest := FinishMissed(v, d, c, t);
      assert Finished(v, c, Looks(v, c, t), AnswerTime(v, c, t)) == r;
      AccessAt(w, d, c, t.getUp, t.redisGet, rest, r);
      events := Access(c, t.getUp, t.redisGet, rest);
    }
  }

  /** The steps of a call do exactly what GetById does, whatever the clock reads at each access and
      whichever accesses find redis up, when nothing else happens meanwhile. */
  lemma SoloCall(w: World, d: nat, c: nat, t: Weather) returns (events: seq<Event>)
    requires InTime(w, d, c, t.localGet, t) && w.calls[c].phase.Asked?
    requires t.localGet <= t.redisGet <= t.localSet
    ensures Reaches(w, d, events, Finished(w, c, Looks(w, c, t), AnswerTime(w, c, t)))
  {
    hide Put, DbValue, Served, Reaches;
    var v := Advanced(w.(now := t.localGet), c, true);
    var r := Finished(w, c, Looks(w, c, t), AnswerTime(w, c, t));
    if v.calls[c].phase.Answered? {
      assert v == r;
      ReachesSelf(r, d);
      AccessAt(w, d, c, true, t.localGet, [], r);
      events := Access(c, true, t.localGet, []);
    } else {
      var rest := FinishLocalMissed(v, d, c, t);
      assert Finished(v, c, Looks(v, c, t), AnswerTime(v, c, t)) == r;
      AccessAt(w, d, c, true, t.localGet, rest, r);
      events := Access(c, true, t.localGet, rest);
    }
  }


  // ---------------------------------------------------------------- the bound is reached

  lemma OneStep(w: World, d: nat, e: Event)
    requires Enabled(w, d, e)
    ensures Reaches(w, d, [e], Step(w, d, e))
  {
    Then(w, d, e, [], Step(w, d, e));
    assert [e] + [] == [e];
  }

  /** Ask, then run the call with nothing in between. */
  ghost function AskedAndDone(w: World, inst: nat, id: u64): (r: World)
    requires inst < |w.locals|
    ensures |r.locals| == |w.locals|
  {
    var v := w.(calls := w.calls + [Call(inst, id, w.now, Asked)]);
    Finished(v, |w.calls|, Looks(v, |w.calls|, Still(w.now)), w.now)
  }

  /** Every access at one moment, redis up. */
  function Still(now: int): Weather {
    Weather(now, now, now, now, true, true)
  }

  lemma AskRun(w: World, d: nat, inst: nat, id: u64) returns (events: seq<Event>)
    requires inst < |w.locals|
    ensures Reaches(w, d, events, AskedAndDone(w, inst, id))
  {
    hide Finished, Looks;
    var v := Step(w, d, Ask(inst, id));
    var rest := SoloCall(v, d, |w.calls|, Still(w.now));
    assert AnswerTime(v, |w.calls|, Still(w.now)) == w.now;
    Then(w, d, Ask(inst, id), rest, AskedAndDone(w, inst, id));
    events := [Ask(inst, id)] + rest;
  }

  /** A call that has asked and made n accesses, all at one moment, and stands in that phase. */
  ghost function InPhase(w: World, inst: nat, id: u64, phase: Phase): World {
    w.(calls := w.calls + [Call(inst, id, w.now, phase)])
  }

  lemma NextPhase(w: World, d: nat, inst: nat, id: u64, phase: Phase, next: Phase, rest: seq<Event>, r: World)
    requires inst < |w.locals| && !phase.Answered?
    requires Advanced(InPhase(w, inst, id, phase), |w.calls|, true) == InPhase(w, inst, id, next)
    requires Reaches(InPhase(w, inst, id, next), d, rest, r)
    ensures Reaches(InPhase(w, inst, id, phase), d, [Advance(|w.calls|, true)] + rest, r)
  {
    hide Advanced;
    Then(InPhase(w, inst, id, phase), d, Advance(|w.calls|, true), rest, r);
  }

  lemma AskFirst(w: World, d: nat, inst: nat, id: u64, rest: seq<Event>, r: World)
    requires inst < |w.locals| && Reaches(InPhase(w, inst, id, Asked), d, rest, r)
    ensures Reaches(w, d, [Ask(inst, id)] + rest, r)
  {
    Then(w, d, Ask(inst, id), rest, r);
  }

  /** Neither cache has the configuration: a call gets as far as loading it. */
  lemma Loads(w: World, d: nat, inst: nat, id: u64, conf: BizConf) returns (events: seq<Event>)
    requires inst < |w.locals| && w.locals[inst] == map[] && w.redis == map[] && DbValue(w.history, id) == Some(conf)
    ensures Reaches(w, d, events, InPhase(w, inst, id, Loaded(conf)))
  {
    hide Reaches, DbValue, Enabled;
    var r := InPhase(w, inst, id, Loaded(conf));
    ReachesSelf(r, d);
    NextPhase(w, d, inst, id, RedisMissed, Loaded(conf), [], r);
    events := [Advance(|w.calls|, true)] + [];
    NextPhase(w, d, inst, id, LocalMissed, RedisMissed, events, r);
    events := [Advance(|w.calls|, true)] + events;
    NextPhase(w, d, inst, id, Asked, LocalMissed, events, r);
    events := [Advance(|w.calls|, true)] + events;
    AskFirst(w, d, inst, id, events, r);
    events := [Ask(inst, id)] + events;
  }

  /** Redis alone has it: a call gets as far as holding what redis gave. */
  lemma Hits(w: World, d: nat, inst: nat, id: u64, conf: BizConf) returns (events: seq<Event>)
    requires inst < |w.locals| && w.locals[inst] == map[] && Served(w.redis, id, w.now) == Some(conf)
    ensures Reaches(w, d, events, InPhase(w, inst, id, RedisHit(conf)))
  {
    assert Served(w.locals[inst], id, w.now) == None;
    hide Reaches, Served, Enabled;
    var r := InPhase(w, inst, id, RedisHit(conf));
    ReachesSelf(r, d);
    NextPhase(w, d, inst, id, LocalMissed, RedisHit(conf), [], r);
    events := [Advance(|w.calls|, true)] + [];
    NextPhase(w, d, inst, id, Asked, LocalMissed, events, r);
    events := [Advance(|w.calls|, true)] + events;
    AskFirst(w, d, inst, id, events, r);
    events := [Ask(inst, id)] + events;
  }

  ghost function Overwritten(id: u64, a: BizConf, b: BizConf): seq<Write> {
    [Write(0, id, Some(a)), Write(0, id, Some(b))]
  }

  /** One instance loads a, which is overwritten at once, and takes d to store it in redis. */
  ghost predicate Stored(w: World, d: nat, id: u64, a: BizConf, b: BizConf) {
    && w.now == d && w.history == Overwritten(id, a, b) && |w.locals| == 2 && w.locals[1] == map[]
    && w.redis == Put(map[], id, a, d) && |w.calls| == 1
  }

  lemma StoreRun(d: nat, id: u64, a: BizConf, b: BizConf, w: World) returns (events: seq<Event>, r: World)
    requires w == World(0, [Write(0, id, Some(a))], [map[], map[]], map[], [])
    ensures Reaches(w, d, events, r) && Stored(r, d, id, a, b)
  {
    assert DbValue(w.history, id) == Some(a);
    hide Reaches, Put;
    var first := Loads(w, d, 0, id, a);
    var loaded := InPhase(w, 0, id, Loaded(a));
    OneStep(loaded, d, Update(id, Some(b)));
    var updated := Step(loaded, d, Update(id, Some(b)));
    OneStep(updated, d, Tick(d));
    var later := Step(updated, d, Tick(d));
    var last := FinishLoaded(later, d, 0, Still(d));
    r := Finished(later, 0, Looked(Some(a), Put(map[], id, a, d), Put(map[], id, a, d)), d);
    ReachesAppend(updated, d, [Tick(d)], later, last, r);
    ReachesAppend(loaded, d, [Update(id, Some(b))], updated, [Tick(d)] + last, r);
    events := [Update(id, Some(b))] + ([Tick(d)] + last);
    ReachesAppend(w, d, first, loaded, events, r);
    events := first + events;
  }

  /** Another gets it from redis at the end of its time there, and takes d to store it locally. */
  ghost predicate Refilled(w: World, d: nat, id: u64, a: BizConf, b: BizConf) {
    && w.now == 2 * d + DEFAULT_EXPIRES && w.history == Overwritten(id, a, b) && |w.locals| == 2
    && w.locals[1] == Put(map[], id, a, w.now) && |w.calls| == 2
  }

  lemma RefillRun(d: nat, id: u64, a: BizConf, b: BizConf, w: World) returns (events: seq<Event>, r: World)
    requires Stored(w, d, id, a, b)
    ensures Reaches(w, d, events, r) && Refilled(r, d, id, a, b)
  {
    var t := d + DEFAULT_EXPIRES;
    var late := Step(w, d, Tick(t));
    assert Served(late.redis, id, t) == Some(a);
    hide Reaches, Put, Served, Overwritten;
    OneStep(w, d, Tick(t));
    var hits := Hits(late, d, 1, id, a);
    var hit := InPhase(late, 1, id, RedisHit(a));
    OneStep(hit, d, Tick(t + d));
    var later := Step(hit, d, Tick(t + d));
    OneStep(later, d, Advance(1, true));
    r := Step(later, d, Advance(1, true));
    ReachesAppend(hit, d, [Tick(t + d)], later, [Advance(1, true)], r);
    ReachesAppend(late, d, hits, hit, [Tick(t + d)] + [Advance(1, true)], r);
    events := hits + ([Tick(t + d)] + [Advance(1, true)]);
    ReachesAppend(w, d, [Tick(t)], late, events, r);
    events := [Tick(t)] + events;
  }

  /** A whole expiry later the refilled entry is still answered. */
  lemma LastAnswer(d: nat, id: u64, a: BizConf, b: BizConf, w: World) returns (events: seq<Event>, r: World)
    requires Refilled(w, d, id, a, b)
    ensures Reaches(w, d, events, r) && r.history == Overwritten(id, a, b) && |r.calls| == 3 && r.now == LocalAge(d)
    ensures r.calls[2] == Call(1, id, LocalAge(d), Answered(Some(a), LocalAge(d), 2))
  {
    hide Reaches, BizConfCacheKey;
    var late := Step(w, d, Tick(LocalAge(d)));
    OneStep(w, d, Tick(LocalAge(d)));
    events := AskRun(late, d, 1, id);
    r := AskedAndDone(late, 1, id);
    ReachesAppend(w, d, [Tick(LocalAge(d))], late, events, r);
    events := [Tick(LocalAge(d))] + events;
  }

  lemma OverwrittenAtZero(id: u64, a: BizConf, b: BizConf, since: int)
    requires a != b
    ensures CurrentSince(Overwritten(id, a, b), id, Some(a), since) <==> since <= 0
  {
    var h := Overwritten(id, a, b);
    assert h[..2] == h && h[..0] == [] && h[..1] == [Write(0, id, Some(a))];
    assert DbValue(h, id) == Some(b) && DbValue(h[..1], id) == Some(a);
  }

  /** No smaller bound holds, however long a call may take: a configuration is loaded by one instance
      and overwritten at once, refilled by another at the end of its time in redis, and answered
      a whole expiry after that. */
  lemma BoundIsReached(d: nat, id: u64, a: BizConf, b: BizConf) returns (w: World, events: seq<Event>, r: World)
    requires a != b
    ensures Cold(w) && Reaches(w, d, events, r) && |r.calls| == 3
    ensures r.calls[2].id == id && r.calls[2].phase == Answered(Some(a), r.now, |r.history|)
    ensures forall since :: CurrentSince(r.history, id, Some(a), since) <==>
                            since <= r.calls[2].phase.at - 2 * (DEFAULT_EXPIRES + d)
  {
    hide Reaches, CurrentSince, Stored, Refilled;
    w := World(0, [Write(0, id, Some(a))], [map[], map[]], map[], []);
    var first, stored := StoreRun(d, id, a, b, w);
    var second, refilled := RefillRun(d, id, a, b, stored);
    var third;
    third, r := LastAnswer(d, id, a, b, refilled);
    ReachesAppend(stored, d, second, refilled, third, r);
    ReachesAppend(w, d, first, stored, second + third, r);
    events := first + (second + third);
    forall since
      ensures CurrentSince(r.history, id, Some(a), since) <==> since <= 0
    {
      OverwrittenAtZero(id, a, b, since);
    }
  }
}
