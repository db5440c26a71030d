/**
 The sharded data access object of internal/repository/dao/notification.go. Its contracts speak of
 the flat table and the callback rows that the databases stand for (ShardedStore.Represents), so a
 caller need not know about sharding. Statements either succeed or fail as SQL would: a database not
 loaded, a table not there, a primary key already taken.
 */
module NotificationDao {
  import opened Words
  import opened Snowflake
  import opened HashSharding
  import opened ShardedStore

  datatype DaoError =
    | NoDatabase(db: string)
    | SqlFailure
    | DuplicateNotificationId
    | FailedToCreateCallbackLog
    | NotificationNotFound

  datatype Result<+T> = Ok(value: T) | Err(error: DaoError)

  /** create stamps the times and version 1; the id comes from the generator. */
  function Stamped(n: Notification, id: nat, now: i64): Notification {
    n.(id := id, createdAt := now, updatedAt := now, version := 1)
  }

  function InitLog(id: nat, now: i64): CallbackLog {
    CallbackLog(id, 0, now, "init", now, now)
  }

  /** Column by column, a row as create and batchCreate store it. */
  predicate NewRow(n: Notification, now: i64, row: Notification) {
    && row.createdAt == row.updatedAt == now && row.version == 1
    && row.bizId == n.bizId && row.bizKey == n.bizKey && row.content == n.content && row.status == n.status
  }

  /** A callback row as it is first stored. */
  predicate NewLog(id: nat, now: i64, log: CallbackLog) {
    && log.notificationId == id && log.retriedTimes == 0 && log.status == "init"
    && log.nextRetryAt == log.createdAt == log.updatedAt == now
  }

  /** A callback row that has become sendable. */
  predicate PendingSince(was: CallbackLog, now: i64, log: CallbackLog) {
    && log.status == "pending" && log.updatedAt == now
    && log.notificationId == was.notificationId && log.retriedTimes == was.retriedTimes
    && log.nextRetryAt == was.nextRetryAt && log.createdAt == was.createdAt
  }

  /** Why a statement on that table fails, if it does. */
  function NoAccess(dbs: Dbs, d: string, t: string): Option<DaoError> {
    if d !in dbs then Some(NoDatabase(d)) else if !HasTable(dbs, d, t) then Some(SqlFailure) else None
  }

  /** Why an insert fails, if it does; taken: the id is already in use. */
  function Refusal(cfg: Config, dbs: Dbs, n: Notification, taken: bool, needCallback: bool): Option<DaoError> {
    var home := cfg.Home(n);
    var access := NoAccess(dbs, home.db, home.table);
    if access.Some? then access
    else if taken then Some(DuplicateNotificationId)
    else if needCallback && !HasCbTable(dbs, home.db, cfg.CbTable(n)) then Some(FailedToCreateCallbackLog)
    else None
  }

  /** Which reason an insert fails for, and that it fails for no other: the database of its key is not
      loaded, else the table is not there, else the id is taken, else a wanted callback has no table. */
  lemma RefusalIff(cfg: Config, dbs: Dbs, n: Notification, taken: bool, needCallback: bool)
    ensures var r, hash := Refusal(cfg, dbs, n, taken, needCallback), cfg.hash(HashKey(n.bizId, n.bizKey));
            var dst, cbTable := cfg.notif.Shard(hash), cfg.cbLog.Shard(hash).table;
            && (r == Some(NoDatabase(dst.db)) <==> dst.db !in dbs)
            && (r == Some(SqlFailure) <==> dst.db in dbs && dst.table !in dbs[dst.db].tables)
            && (r == Some(DuplicateNotificationId) <==> taken && dst.db in dbs && dst.table in dbs[dst.db].tables)
            && (r == Some(FailedToCreateCallbackLog) <==>
                && !taken && needCallback && dst.db in dbs && dst.table in dbs[dst.db].tables
                && cbTable !in dbs[dst.db].cbLogs)
            && r in {None, Some(NoDatabase(dst.db)), Some(SqlFailure), Some(DuplicateNotificationId),
                     Some(FailedToCreateCallbackLog)}
  {
    hide HashStrategy.Shard, HashKey;
  }

  lemma HasLeast(ids: set<nat>)
    requires ids != {}
    ensures exists least: nat :: least in ids && forall x | x in ids :: least <= x
  {
    var some :| some in ids;
    if ids - {some} != {} {
      HasLeast(ids - {some});
      var least: nat :| least in ids - {some} && forall x | x in ids - {some} :: least <= x;
      var m := if some < least then some else least;
      assert forall x | x in ids :: x == some || x in ids - {some};
      assert m in ids && forall x | x in ids :: m <= x;
    } else {
      assert ids == {some};
    }
  }

  class NotifShardingDAO {
    var dbs: Dbs
    const cfg: Config
    const idGenerator: Generator

    ghost var flat: map<nat, Notification>
    ghost var callbacks: map<nat, CallbackLog>

    ghost predicate Valid()
      reads this
    {
      cfg.Good() && Represents(cfg, dbs, flat, callbacks)
    }

    constructor (dbs: Dbs, cfg: Config, idGenerator: Generator, ghost flat: map<nat, Notification>,
                 ghost callbacks: map<nat, CallbackLog>)
      requires cfg.Good() && Represents(cfg, dbs, flat, callbacks)
      ensures Valid() && this.dbs == dbs && this.cfg == cfg && this.idGenerator == idGenerator
      ensures this.flat == flat && this.callbacks == callbacks
    {
      this.dbs, this.cfg, this.idGenerator := dbs, cfg, idGenerator;
      this.flat, this.callbacks := flat, callbacks;
    }

    method Create(n: Notification, needCallback: bool, millis: int, now: i64) returns (r: Result<Notification>)
      requires Valid()
      modifies this, idGenerator
      ensures Valid()
      ensures var id := Pack(Timestamp(millis), cfg.KeyHash(n.bizId, n.bizKey), old(idGenerator.sequence));
              var row := Stamped(n, id, now);
              && var refusal := Refusal(cfg, old(dbs), row, id in old(flat), needCallback);
                 r == (if refusal.Some? then Err(refusal.value) else Ok(row))
      ensures r.Ok? ==>
                && flat == Apply(old(flat), Insert(r.value)) && r.value.id !in old(flat)
                && callbacks == if needCallback then old(callbacks)[r.value.id := InitLog(r.value.id, now)]
                                else old(callbacks)
      ensures r.Ok? ==> NewRow(n, now, r.value)
      ensures r.Ok? && needCallback ==>
                r.value.id in callbacks && NewLog(r.value.id, now, callbacks[r.value.id])
      ensures r.Err? ==> dbs == old(dbs) && flat == old(flat) && callbacks == old(callbacks)
    {
      hide Represents, Config.Good, Config.Addressed, Config.IdHome, Config.IdCbTable, Config.KeyHome,
           Config.CbTable, Pack, Rows, CbRows, PutRow, PutCb, HasTable, HasCbTable, SameTables;
      var notifDst, cbTable := cfg.Home(n), cfg.CbTable(n);
      if notifDst.db !in dbs {
        return Err(NoDatabase(notifDst.db));
      }
      ghost var count := idGenerator.sequence;
      var id := idGenerator.NextId(millis, cfg.KeyHash(n.bizId, n.bizKey));
      var row := Stamped(n, id, now);
      MintedSits(cfg, n, row, Timestamp(millis), count);
      FoundHere(cfg, dbs, flat, callbacks, id);
      if !HasTable(dbs, notifDst.db, notifDst.table) {
        return Err(SqlFailure);
      }
      if id in Rows(dbs, notifDst.db, notifDst.table) {
        return Err(DuplicateNotificationId);
      }
      var tx := PutRow(dbs, notifDst.db, notifDst.table, row);
      PutRowRepresents(cfg, dbs, flat, callbacks, row);
      SameCbTable(dbs, tx, notifDst.db, cbTable);
      if needCallback {
        if !HasCbTable(tx, notifDst.db, cbTable) {
          return Err(FailedToCreateCallbackLog);
        }
        PutCbRepresents(cfg, tx, flat[id := row], callbacks, InitLog(id, now));
        tx := PutCb(tx, notifDst.db, cbTable, InitLog(id, now));
        callbacks := callbacks[id := InitLog(id, now)];
      }
      dbs := tx;
      flat := flat[id := row];
      return Ok(row);
    }

    method GetById(id: nat) returns (r: Result<Notification>)
      requires Valid()
      ensures id in flat ==> r == Ok(flat[id])
      ensures id !in flat ==>
                var access := NoAccess(dbs, cfg.IdHome(id).db, cfg.IdHome(id).table);
                r == Err(if access.Some? then access.value else NotificationNotFound)
    {
      hide Represents, Config.Good, Config.IdHome, Rows, HasTable;
      FoundHere(cfg, dbs, flat, callbacks, id);
      var dst := cfg.IdHome(id);
      NoTableNoRows(dbs, dst.db, dst.table);
      if dst.db !in dbs {
        return Err(NoDatabase(dst.db));
      }
      if !HasTable(dbs, dst.db, dst.table) {
        return Err(SqlFailure);
      }
      if id !in Rows(dbs, dst.db, dst.table) {
        return Err(NotificationNotFound);
      }
      return Ok(Rows(dbs, dst.db, dst.table)[id]);
    }

    /** The least id among the rows of the key. */
    method GetByKey(bizId: u64, bizKey: string) returns (r: Result<Notification>)
      requires Valid()
      ensures r.Ok? ==>
                && r.value.id in flat && flat[r.value.id] == r.value && HasKey(r.value, bizId, bizKey)
                && forall id | id in flat && HasKey(flat[id], bizId, bizKey) :: r.value.id <= id
      ensures r.Err? ==>
                && (forall id | id in flat :: !HasKey(flat[id], bizId, bizKey))
                && var home := cfg.KeyHome(bizId, bizKey);
                   var access := NoAccess(dbs, home.db, home.table);
                   r == Err(if access.Some? then access.value else NotificationNotFound)
    {
      hide Represents, Config.Good, Config.KeyHome, Rows, HasTable;
      var dst := cfg.KeyHome(bizId, bizKey);
      KeyRows(cfg, dbs, flat, callbacks, bizId, bizKey, Rows(dbs, dst.db, dst.table));
      NoTableNoRows(dbs, dst.db, dst.table);
      if dst.db !in dbs {
        return Err(NoDatabase(dst.db));
      }
      if !HasTable(dbs, dst.db, dst.table) {
        return Err(SqlFailure);
      }
      var rows := Rows(dbs, dst.db, dst.table);
      var ids := set id | id in rows && HasKey(rows[id], bizId, bizKey);
      forall id | id in flat && HasKey(flat[id], bizId, bizKey)
        ensures id in ids
      {
        assert id in rows;
        assert rows[id] == flat[id];
      }
      if ids == {} {
        return Err(NotificationNotFound);
      }
      HasLeast(ids);
      var least: nat :| least in ids && forall x | x in ids :: least <= x;
      return Ok(rows[least]);
    }

    /** The error is only about tables that could not be read; every row there is to find is found. */
    method GetMapByIds(ids: seq<nat>) returns (notifMap: map<nat, Notification>, err: bool)
      requires Valid()
      ensures notifMap == map id: nat | id in ids && id in flat :: flat[id]
      ensures err <==> exists id | id in ids :: NoAccess(dbs, cfg.IdHome(id).db, cfg.IdHome(id).table).Some?
    {
      hide Represents, Config.Good, Config.IdHome, NoAccess, Grouped;
      var idMap := GroupById(ids);
      NoneFound(cfg, flat, ids, idMap);
      var keys := idMap.Keys;
      notifMap, err := map[], false;
      while keys != {}
        invariant keys <= idMap.Keys
        invariant notifMap == FoundOutside(cfg, flat, ids, keys)
        invariant err <==> exists k | k in idMap.Keys - keys :: NoAccess(dbs, k.0, k.1).Some?
        decreases keys
      {
        hide *;
        var key :| key in keys;
        GroupFound(cfg, dbs, flat, callbacks, ids, idMap, keys, key);
        notifMap := notifMap + Select(Rows(dbs, key.0, key.1), idMap[key]);
        err := err || NoAccess(dbs, key.0, key.1).Some?;
        keys := keys - {key};
      }
      GroupErrors(cfg, dbs, ids, idMap);
    }

    method GroupById(ids: seq<nat>) returns (idMap: map<(string, string), seq<nat>>)
      ensures Grouped(cfg, idMap, ids)
    {
      idMap := map[];
      for i := 0 to |ids|
        invariant Grouped(cfg, idMap, ids[..i])
      {
        hide Place;
        var key := Place(cfg, ids[i]);
        var val := if key in idMap then idMap[key] + [ids[i]] else [ids[i]];
        assert ids[..i + 1] == ids[..i] + [ids[i]];
        idMap := idMap[key := val];
      }
      assert ids[..|ids|] == ids;
    }

    /** No row with that id: no effect, and no error. */
    method MarkFailure(id: nat, status: string, now: i64) returns (err: Option<DaoError>)
      requires Valid()
      modifies this
      ensures Valid() && callbacks == old(callbacks)
      ensures err == NoAccess(old(dbs), cfg.IdHome(id).db, cfg.IdHome(id).table)
      ensures err.None? ==> flat == Apply(old(flat), Mark(id, status, now))
      ensures err.None? ==> if id in old(flat) then UpdatedAt(old(flat), id, status, now, flat) else flat == old(flat)
      ensures err.Some? ==> dbs == old(dbs) && flat == old(flat)
    {
      hide Represents, Config.Good, Config.KeyHome, Config.IdHome, Rows, PutRow, HasTable, SameTables;
      var dst := cfg.IdHome(id);
      FoundHere(cfg, dbs, flat, callbacks, id);
      if dst.db !in dbs {
        return Some(NoDatabase(dst.db));
      }
      if !HasTable(dbs, dst.db, dst.table) {
        return Some(SqlFailure);
      }
      if id in Rows(dbs, dst.db, dst.table) {
        var row := Marked(Rows(dbs, dst.db, dst.table)[id], status, now);
        PutRowRepresents(cfg, dbs, flat, callbacks, row);
        dbs := PutRow(dbs, dst.db, dst.table, row);
        flat := flat[id := row];
      }
      return None;
    }

    /** The row, and its callback row if there is one, in one transaction. */
    method MarkSuccess(id: nat, status: string, now: i64) returns (err: Option<DaoError>)
      requires Valid()
      modifies this
      ensures Valid()
      ensures var access := NoAccess(old(dbs), cfg.IdHome(id).db, cfg.IdHome(id).table);
              err == if access.Some? then access
                     else if !HasCbTable(old(dbs), cfg.IdHome(id).db, cfg.IdCbTable(id)) then Some(SqlFailure)
                     else None
      ensures err.None? ==>
                && flat == Apply(old(flat), Mark(id, status, now))
                && (if id in old(flat) then UpdatedAt(old(flat), id, status, now, flat) else flat == old(flat))
                && callbacks.Keys == old(callbacks).Keys
                && (forall other | other in callbacks && other != id :: callbacks[other] == old(callbacks)[other])
                && (id in callbacks ==> PendingSince(old(callbacks)[id], now, callbacks[id]))
                && callbacks == if id in old(callbacks)
                                then old(callbacks)[id := Pending(old(callbacks)[id], now)]
                                else old(callbacks)
      ensures err.Some? ==> dbs == old(dbs) && flat == old(flat) && callbacks == old(callbacks)
    {
      hide Represents, Config.Good, Config.KeyHome, Config.IdHome, Config.IdCbTable, Rows, CbRows, PutRow, PutCb,
           HasTable, HasCbTable, SameTables;
      var dst, cbTable := cfg.IdHome(id), cfg.IdCbTable(id);
      FoundHere(cfg, dbs, flat, callbacks, id);
      if dst.db !in dbs {
        return Some(NoDatabase(dst.db));
      }
      if !HasTable(dbs, dst.db, dst.table) {
        return Some(SqlFailure);
      }
      var tx := dbs;
      ghost var marked := flat;
      if id in Rows(dbs, dst.db, dst.table) {
        var row := Marked(Rows(dbs, dst.db, dst.table)[id], status, now);
        PutRowRepresents(cfg, dbs, flat, callbacks, row);
        tx := PutRow(dbs, dst.db, dst.table, row);
        marked := flat[id := row];
        SameCbTable(dbs, tx, dst.db, cbTable);
      }
      if !HasCbTable(tx, dst.db, cbTable) {
        return Some(SqlFailure);
      }
      CbFoundHere(cfg, tx, marked, callbacks, id);
      if id in CbRows(tx, dst.db, cbTable) {
        var log := Pending(CbRows(tx, dst.db, cbTable)[id], now);
        PutCbRepresents(cfg, tx, marked, callbacks, log);
        tx := PutCb(tx, dst.db, cbTable, log);
        callbacks := callbacks[id := log];
      }
      dbs, flat := tx, marked;
      return None;
    }

    /** The row effect; the reported error never mentions a lost race. */
    method CompareAndSwapStatus(id: nat, version: int, status: string, now: i64) returns (err: Option<DaoError>)
      requires Valid()
      modifies this
      ensures Valid() && callbacks == old(callbacks)
      ensures err == NoAccess(old(dbs), cfg.IdHome(id).db, cfg.IdHome(id).table)
      ensures err.None? ==> flat == Apply(old(flat), CompareAndSwap(id, version, status, now))
      ensures err.None? ==> if id in old(flat) && old(flat)[id].version == version
                            then UpdatedAt(old(flat), id, status, now, flat) else flat == old(flat)
      ensures err.Some? ==> dbs == old(dbs) && flat == old(flat)
    {
      hide Represents, Config.Good, Config.KeyHome, Config.IdHome, Rows, PutRow, HasTable, SameTables;
      var dst := cfg.IdHome(id);
      FoundHere(cfg, dbs, flat, callbacks, id);
      if dst.db !in dbs {
        return Some(NoDatabase(dst.db));
      }
      if !HasTable(dbs, dst.db, dst.table) {
        return Some(SqlFailure);
      }
      if id in Rows(dbs, dst.db, dst.table) && Rows(dbs, dst.db, dst.table)[id].version == version {
        var row := Marked(Rows(dbs, dst.db, dst.table)[id], status, now);
        PutRowRepresents(cfg, dbs, flat, callbacks, row);
        dbs := PutRow(dbs, dst.db, dst.table, row);
        flat := flat[id := row];
      }
      return None;
    }

    // ---- batches

    /** New ids for the rows of one database. */
    method AssignIds(rows: seq<Notification>, idxs: seq<nat>, clock: u64 -> int) returns (r: seq<Notification>)
      requires Valid() && forall k | k in idxs :: k < |rows|
      modifies idGenerator
      ensures Readdressed(cfg, rows, idxs, r)
    {
      r := rows;
      for i := 0 to |idxs|
        invariant Readdressed(cfg, rows, idxs[..i], r)
      {
        hide Represents, Config.Addressed, Config.KeyHash, Pack, Readdressed;
        assert idxs[i] in idxs;
        var n := rows[idxs[i]];
        ghost var count := idGenerator.sequence;
        var millis := clock(idGenerator.sequence);
        ReaddressedSize(cfg, rows, idxs[..i], r);
        var id := idGenerator.NextId(millis, cfg.KeyHash(n.bizId, n.bizKey));
        MintedIsAddressed(cfg, n.(id := id), Timestamp(millis), count);
        ReaddressedNext(cfg, rows, idxs, i, r, id);
        r := r[idxs[i] := n.(id := id)];
      }
      assert idxs[..|idxs|] == idxs;
    }

    /** One statement list for one database: all of its rows or none. */
    method Exec(rows: seq<Notification>, idxs: seq<nat>, needCallback: bool, now: i64, ghost b: Batch)
        returns (err: Option<DaoError>)
      requires Valid() && Increasing(idxs)
      requires forall k | k in idxs :: k < |rows| && cfg.Addressed(rows[k]) && k !in b.kept
      requires b.needCallback == needCallback && b.now == now
      requires Added(b, rows, flat, callbacks) && Loaded(cfg, dbs, rows, idxs)
      modifies this
      ensures Valid() && dbs.Keys == old(dbs.Keys) && !IsNoDatabase(err)
      ensures err.None? ==> Added(b.(kept := b.kept + Indices(idxs)), rows, flat, callbacks)
      ensures err.Some? ==> dbs == old(dbs) && flat == old(flat) && callbacks == old(callbacks)
    {
      hide Represents, Config.Good, Config.Addressed, Added, Indices, Increasing, Loaded;
      NoneYet(b, rows, flat, callbacks, idxs);
      var tx := dbs;
      ghost var flat': map<nat, Notification>, callbacks': map<nat, CallbackLog> := flat, callbacks;
      for i := 0 to |idxs|
        invariant Represents(cfg, tx, flat', callbacks') && tx.Keys == dbs.Keys
        invariant Added(b.(kept := b.kept + Indices(idxs[..i])), rows, flat', callbacks')
        modifies {}
      {
        hide *;
        assert idxs[i] in idxs;
        LoadedAt(cfg, dbs, rows, idxs, idxs[i]);
        ghost var kept := b.kept + Indices(idxs[..i]);
        OneMore(b.kept, idxs, i);
        var row := rows[idxs[i]];
        var home, cbTable := cfg.Home(row), cfg.CbTable(row);
        var inserted := InsertRow(tx, home, cbTable, row, needCallback, now);
        InsertRowKeys(tx, home, cbTable, row, needCallback, now);
        if inserted.Err? {
          return Some(inserted.error);
        }
        InsertRowEffect(cfg, tx, flat', callbacks', row, needCallback, now);
        AddedNext(b.(kept := kept), rows, flat', callbacks', idxs[i]);
        tx := inserted.value;
        flat', callbacks' := flat'[row.id := row], Logged(callbacks', row.id, needCallback, now);
      }
      assert idxs[..|idxs|] == idxs;
      dbs, flat, callbacks := tx, flat', callbacks';
      return None;
    }

    /** Fresh ids until no id is taken, or the attempts run out. */
    method InsertGroup(rows: seq<Notification>, idxs: seq<nat>, needCallback: bool, now: i64, clock: u64 -> int,
                       attempts: nat, ghost b: Batch)
        returns (r: seq<Notification>, err: Option<DaoError>)
      requires Valid() && Increasing(idxs)
      requires forall k | k in idxs :: k < |rows| && k !in b.kept
      requires b.needCallback == needCallback && b.now == now
      requires Added(b, rows, flat, callbacks) && Loaded(cfg, dbs, rows, idxs)
      modifies this, idGenerator
      ensures Valid() && SameButIds(rows, r) && dbs.Keys == old(dbs.Keys) && !IsNoDatabase(err)
      ensures err.None? ==> Added(b.(kept := b.kept + Indices(idxs)), r, flat, callbacks)
      ensures err.Some? ==> Added(b, r, flat, callbacks)
    {
      hide Represents, Config.Good, Added, SameButIds, Increasing, Indices, Loaded;
      r, err := rows, Some(DuplicateNotificationId);
      SameButIdsSelf(rows);
      for attempt := 0 to attempts
        invariant Valid() && SameButIds(rows, r) && Added(b, r, flat, callbacks)
        invariant err.Some? && !IsNoDatabase(err) && dbs.Keys == old(dbs.Keys)
      {
        hide *;
        SameSize(rows, r);
        var before := r;
        r := AssignIds(before, idxs, clock);
        ReaddressedFacts(cfg, before, idxs, r, b, flat, callbacks);
        SameButIdsChain(rows, before, r);
        LoadedSame(cfg, old(dbs), rows, dbs, r, idxs);
        err := Exec(r, idxs, needCallback, now, b);
        if err != Some(DuplicateNotificationId) {
          return;
        }
      }
    }

    method GroupByDb(ns: seq<Notification>) returns (m: map<string, seq<nat>>)
      ensures GroupedByDb(cfg, m, ns, |ns|)
    {
      m := map[];
      for i := 0 to |ns|
        invariant GroupedByDb(cfg, m, ns, i)
      {
        hide *;
        GroupedNext(cfg, m, ns, i);
        var d := cfg.Home(ns[i]).db;
        m := m[d := (if d in m then m[d] else []) + [i]];
      }
    }

    /** Groups are inserted one after another here, in any order. A missing database ends the loop;
        groups already started stand. Any other failure leaves out its own group only. `kept` says
        which rows were inserted. */
    method TryBatchInsert(ns: seq<Notification>, needCallback: bool, now: i64, clock: u64 -> int, attempts: nat)
        returns (rows: seq<Notification>, err: Option<DaoError>, ghost b: Batch)
      requires Valid()
      modifies this, idGenerator
      ensures Valid() && SameButIds(ns, rows)
      ensures b.flat == old(flat) && b.cbs == old(callbacks) && b.needCallback == needCallback && b.now == now
      ensures Added(b, rows, flat, callbacks)
      ensures flat == ApplyAll(old(flat), KeptInserts(rows, b.kept, |rows|))
      ensures forall i, j | 0 <= i < |ns| && 0 <= j < |ns| && cfg.Home(ns[i]).db == cfg.Home(ns[j]).db ::
                i in b.kept <==> j in b.kept
      ensures err.None? <==> forall i | 0 <= i < |ns| :: i in b.kept
      ensures IsNoDatabase(err) <==> Unloaded(cfg, old(dbs), ns)
    {
      hide Represents, Config.Good, Config.Home, Missed, Settled, Added, SameButIds, Indices, GroupedByDb, Unloaded;
      var m := GroupByDb(ns);
      rows, err, b := ns, None, Batch(flat, callbacks, {}, needCallback, now);
      SameButIdsSelf(ns);
      NothingAdded(b, ns);
      var names := m.Keys;
      NoneSettled(m);
      while names != {}
        invariant Valid() && SameButIds(ns, rows) && names <= m.Keys
        invariant b.flat == old(flat) && b.cbs == old(callbacks) && b.needCallback == needCallback && b.now == now
        invariant Added(b, rows, flat, callbacks)
        invariant WholeGroups(m, b.kept, names)
        invariant if err.None? then Settled(m, b.kept, names) else Missed(m, b.kept, names)
        invariant dbs.Keys == old(dbs.Keys) && !IsNoDatabase(err) && m.Keys - names <= dbs.Keys
        decreases names
      {
        hide *;
        var d :| d in names;
        if d !in dbs {
          err := Some(NoDatabase(d));
          NamesMissing(cfg, m, ns, old(dbs), d);
          IsNoDatabaseHere(d);
          GroupDone(cfg, m, ns, b.kept, names, d);
          names := names - {d};
          break;
        }
        GroupReady(cfg, m, ns, b.kept, names, d);
        GroupLoaded(cfg, m, ns, dbs, rows, d);
        SameSize(ns, rows);
        var before := rows;
        var failed: Option<DaoError>;
        rows, failed := InsertGroup(before, m[d], needCallback, now, clock, attempts, b);
        SameButIdsChain(ns, before, rows);
        GroupDone(cfg, m, ns, b.kept, names, d);
        if failed.None? {
          b := b.(kept := b.kept + Indices(m[d]));
        } else if err.None? {
          err := failed;
        }
        names := names - {d};
      }
      SameSize(ns, rows);
      if !IsNoDatabase(err) {
        NamesLoaded(cfg, m, ns, old(dbs));
      }
      AllOrNothing(cfg, m, ns, b, rows, flat, callbacks, names);
      BatchIsInserts(b, rows, flat, callbacks);
    }

    /** Every notification is stored, stamped, under a new id of its own, and nothing else changes,
        exactly when there is no error. With one, the shares of some databases are missing, whole; the
        rows come back all the same unless a database was not loaded. */
    method BatchCreate(ns: seq<Notification>, needCallback: bool, now: i64, clock: u64 -> int, attempts: nat)
        returns (created: seq<Notification>, err: Option<DaoError>, ghost b: Batch, ghost rows: seq<Notification>)
      requires Valid()
      modifies this, idGenerator
      ensures Valid()
      ensures b.flat == old(flat) && b.cbs == old(callbacks) && b.needCallback == needCallback && b.now == now
      ensures |rows| == |ns| && forall i | 0 <= i < |ns| :: rows[i] == Stamped(ns[i], rows[i].id, now)
      ensures Added(b, rows, flat, callbacks) && flat == ApplyAll(old(flat), KeptInserts(rows, b.kept, |rows|))
      ensures forall i, j | 0 <= i < |ns| && 0 <= j < |ns| && cfg.Home(ns[i]).db == cfg.Home(ns[j]).db ::
                i in b.kept <==> j in b.kept
      ensures err.None? <==> forall i | 0 <= i < |ns| :: i in b.kept
      ensures forall i | 0 <= i < |ns| :: NewRow(ns[i], now, rows[i])
      ensures StoredColumns(b, rows, flat, callbacks)
      ensures IsNoDatabase(err) <==> Unloaded(cfg, old(dbs), ns)
      ensures created == if Unloaded(cfg, old(dbs), ns) then [] else rows
    {
      hide Represents, Config.Good, Config.KeyHome, Added, Apply;
      if |ns| == 0 {
        created, err, b, rows := [], None, Batch(flat, callbacks, {}, needCallback, now), [];
        NothingAdded(b, rows);
        AddedColumns(b, rows, flat, callbacks);
        return;
      }
      var pointers := seq(|ns|, i requires 0 <= i < |ns| => Stamped(ns[i], ns[i].id, now));
      var tried: seq<Notification>;
      tried, err, b := TryBatchInsert(pointers, needCallback, now, clock, attempts);
      rows := tried;
      assert forall i | 0 <= i < |ns| :: rows[i] == Stamped(ns[i], rows[i].id, now);
      UnloadedSame(cfg, old(dbs), ns, pointers);
      AddedColumns(b, rows, flat, callbacks);
      created := if err.Some? && err.value.NoDatabase? then [] else tried;
      assert forall i | 0 <= i < |ns| :: cfg.Home(pointers[i]) == cfg.Home(ns[i]);
    }
  }

  function Pending(log: CallbackLog, now: i64): CallbackLog {
    log.(status := "pending", updatedAt := now)
  }

  // ---------------------------------------------------------------- steps of the methods

  lemma MintedSits(cfg: Config, n: Notification, row: Notification, timestamp: u64, count: u64)
    requires cfg.Good() && row.id == Pack(timestamp, cfg.KeyHash(n.bizId, n.bizKey), count)
    requires row.bizId == n.bizId && row.bizKey == n.bizKey
    ensures cfg.Home(row) == cfg.Home(n) == cfg.IdHome(row.id)
    ensures cfg.CbTable(row) == cfg.CbTable(n) == cfg.IdCbTable(row.id)
  {
    hide Config.Good, Pack;
    MintedIsAddressed(cfg, row, timestamp, count);
  }

  lemma FoundHere(cfg: Config, dbs: Dbs, flat: map<nat, Notification>, cbs: map<nat, CallbackLog>, id: nat)
    requires Represents(cfg, dbs, flat, cbs)
    ensures id in Rows(dbs, cfg.IdHome(id).db, cfg.IdHome(id).table) <==> id in flat
    ensures id in flat ==>
              && Rows(dbs, cfg.IdHome(id).db, cfg.IdHome(id).table)[id] == flat[id]
              && HasTable(dbs, cfg.IdHome(id).db, cfg.IdHome(id).table)
              && flat[id].id == id && cfg.Home(flat[id]) == cfg.IdHome(id)
  {
    hide Config.IdHome, Config.Home, Rows, HasTable, CbHolds;
    FoundByIdIff(cfg, dbs, flat, id);
  }

  lemma CbFoundHere(cfg: Config, dbs: Dbs, flat: map<nat, Notification>, cbs: map<nat, CallbackLog>, id: nat)
    requires Represents(cfg, dbs, flat, cbs)
    ensures id in CbRows(dbs, cfg.IdHome(id).db, cfg.IdCbTable(id)) <==> id in cbs
    ensures id in cbs ==>
              && CbRows(dbs, cfg.IdHome(id).db, cfg.IdCbTable(id))[id] == cbs[id]
              && id in flat && cbs[id].notificationId == id
  {
    hide Config.IdHome, Config.IdCbTable, CbRows, HasTable, Holds;
    CallbackFoundIff(cfg, dbs, cbs, id);
  }

  lemma SameCbTable(dbs: Dbs, tx: Dbs, d: string, t: string)
    requires SameTables(dbs, tx)
    ensures HasCbTable(dbs, d, t) <==> HasCbTable(tx, d, t)
  {
  }

  lemma KeyRows(cfg: Config, dbs: Dbs, flat: map<nat, Notification>, cbs: map<nat, CallbackLog>, bizId: u64,
                bizKey: string, rows: map<nat, Notification>)
    requires Represents(cfg, dbs, flat, cbs)
    requires rows == Rows(dbs, cfg.KeyHome(bizId, bizKey).db, cfg.KeyHome(bizId, bizKey).table)
    ensures forall id | id in flat && HasKey(flat[id], bizId, bizKey) :: id in rows
    ensures forall id | id in rows :: id in flat && rows[id] == flat[id] && flat[id].id == id
  {
    hide Config.KeyHome, HasKey, Config.IdHome, CbHolds, Rows;
    forall id: nat
      ensures id in rows && HasKey(rows[id], bizId, bizKey) <==> id in flat && HasKey(flat[id], bizId, bizKey)
      ensures id in rows ==> id in flat && rows[id] == flat[id] && flat[id].id == id
    {
      FoundByKeyIff(cfg, dbs, flat, bizId, bizKey, id);
    }
  }

  lemma NoTableNoRows(dbs: Dbs, d: string, t: string)
    ensures !HasTable(dbs, d, t) ==> Rows(dbs, d, t) == map[]
    ensures HasTable(dbs, d, t) ==> d in dbs
  {
  }

  function Place(cfg: Config, id: nat): (string, string) {
    (cfg.IdHome(id).db, cfg.IdHome(id).table)
  }

  /** The ids, split by the table they name. */
  ghost predicate Grouped(cfg: Config, idMap: map<(string, string), seq<nat>>, ids: seq<nat>) {
    && (forall key | key in idMap ::
          idMap[key] != [] && forall id | id in idMap[key] :: id in ids && Place(cfg, id) == key)
    && (forall id | id in ids :: Place(cfg, id) in idMap && id in idMap[Place(cfg, id)])
  }

  function Select(rows: map<nat, Notification>, ids: seq<nat>): map<nat, Notification> {
    map id | id in rows && id in ids :: rows[id]
  }

  /** The rows asked for whose table is not among keys. */
  ghost function FoundOutside(cfg: Config, flat: map<nat, Notification>, ids: seq<nat>, keys: set<(string, string)>)
    : map<nat, Notification>
  {
    map id: nat | id in ids && id in flat && Place(cfg, id) !in keys :: flat[id]
  }

  lemma NoneFound(cfg: Config, flat: map<nat, Notification>, ids: seq<nat>, idMap: map<(string, string), seq<nat>>)
    requires Grouped(cfg, idMap, ids)
    ensures FoundOutside(cfg, flat, ids, idMap.Keys) == map[]
    ensures FoundOutside(cfg, flat, ids, {}) == map id: nat | id in ids && id in flat :: flat[id]
  {
    hide Config.IdHome;
  }

  lemma GroupFound(cfg: Config, dbs: Dbs, flat: map<nat, Notification>, cbs: map<nat, CallbackLog>, ids: seq<nat>,
                   idMap: map<(string, string), seq<nat>>, keys: set<(string, string)>, key: (string, string))
    requires Represents(cfg, dbs, flat, cbs) && Grouped(cfg, idMap, ids) && key in keys && keys <= idMap.Keys
    ensures FoundOutside(cfg, flat, ids, keys) + Select(Rows(dbs, key.0, key.1), idMap[key])
         == FoundOutside(cfg, flat, ids, keys - {key})
  {
    hide Represents, Config.IdHome, Rows, HasTable;
    forall id: nat | id in idMap[key]
      ensures id in Rows(dbs, key.0, key.1) <==> id in flat
      ensures id in flat ==> Rows(dbs, key.0, key.1)[id] == flat[id]
    {
      FoundHere(cfg, dbs, flat, cbs, id);
    }
  }

  lemma GroupErrors(cfg: Config, dbs: Dbs, ids: seq<nat>, idMap: map<(string, string), seq<nat>>)
    requires Grouped(cfg, idMap, ids)
    ensures (exists k | k in idMap.Keys :: NoAccess(dbs, k.0, k.1).Some?) <==>
            exists id | id in ids :: NoAccess(dbs, cfg.IdHome(id).db, cfg.IdHome(id).table).Some?
  {
    hide NoAccess, Config.IdHome;
    if k :| k in idMap.Keys && NoAccess(dbs, k.0, k.1).Some? {
      var id := idMap[k][0];
      assert id in idMap[k];
      assert Place(cfg, id) == k;
    }
    if id :| id in ids && NoAccess(dbs, cfg.IdHome(id).db, cfg.IdHome(id).table).Some? {
      assert Place(cfg, id) in idMap.Keys;
    }
  }

  // ---------------------------------------------------------------- batches

  /** A batch insert in progress: the store it began with, and which of its rows are in. */
  datatype Batch = Batch(flat: map<nat, Notification>, cbs: map<nat, CallbackLog>, kept: set<nat>,
                         needCallback: bool, now: i64)

  function Logged(cbs: map<nat, CallbackLog>, id: nat, needCallback: bool, now: i64): map<nat, CallbackLog> {
    if needCallback then cbs[id := InitLog(id, now)] else cbs
  }

  ghost predicate RowsAdded(b: Batch, rows: seq<Notification>, flat: map<nat, Notification>) {
    && (forall k | k in b.kept ::
          k < |rows| && rows[k].id !in b.flat && rows[k].id in flat && flat[rows[k].id] == rows[k])
    && (forall j, k | j in b.kept && k in b.kept && j != k :: rows[j].id != rows[k].id)
    && (forall id | id in b.flat :: id in flat && flat[id] == b.flat[id])
    && (forall id | id in flat :: id in b.flat || exists k :: k in b.kept && rows[k].id == id)
  }

  ghost predicate LogsAdded(b: Batch, rows: seq<Notification>, cbs: map<nat, CallbackLog>)
    requires forall k | k in b.kept :: k < |rows|
  {
    if b.needCallback then
      && (forall k | k in b.kept :: rows[k].id in cbs && cbs[rows[k].id] == InitLog(rows[k].id, b.now))
      && (forall id | id in b.cbs :: id in cbs && (id in b.flat ==> cbs[id] == b.cbs[id]))
      && (forall id | id in cbs :: id in b.cbs || exists k :: k in b.kept && rows[k].id == id)
    else cbs == b.cbs
  }

  /** The store holds what it held at the start and, under new and distinct ids, exactly the kept
      rows, each with its callback row when one is wanted. */
  ghost predicate Added(b: Batch, rows: seq<Notification>, flat: map<nat, Notification>, cbs: map<nat, CallbackLog>) {
    RowsAdded(b, rows, flat) && LogsAdded(b, rows, cbs)
  }

  /** Column by column: each kept row is stored under its id, with a fresh callback row if wanted. */
  ghost predicate StoredColumns(b: Batch, rows: seq<Notification>, flat: map<nat, Notification>,
                                cbs: map<nat, CallbackLog>) {
    forall k | k in b.kept ::
      && k < |rows| && rows[k].id in flat && flat[rows[k].id] == rows[k] && rows[k].id !in b.flat
      && (b.needCallback ==> rows[k].id in cbs && NewLog(rows[k].id, b.now, cbs[rows[k].id]))
  }

  lemma AddedColumns(b: Batch, rows: seq<Notification>, flat: map<nat, Notification>, cbs: map<nat, CallbackLog>)
    requires Added(b, rows, flat, cbs)
    ensures StoredColumns(b, rows, flat, cbs)
  {
  }

  ghost function Indices(idxs: seq<nat>): set<nat> {
    set k | k in idxs
  }

  ghost predicate SameButIds(ns: seq<Notification>, rows: seq<Notification>) {
    |ns| == |rows| && forall i | 0 <= i < |ns| :: rows[i] == ns[i].(id := rows[i].id)
  }

  ghost predicate Increasing(idxs: seq<nat>) {
    forall i, j | 0 <= i < j < |idxs| :: idxs[i] < idxs[j]
  }

  ghost predicate Readdressed(cfg: Config, rows: seq<Notification>, idxs: seq<nat>, r: seq<Notification>) {
    && |r| == |rows|
    && (forall k: nat | k < |rows| :: r[k] == rows[k].(id := r[k].id))
    && (forall k: nat | k < |rows| && k !in idxs :: r[k] == rows[k])
    && (forall k: nat | k < |rows| && k in idxs :: cfg.Addressed(r[k]))
  }

  lemma ReaddressedSize(cfg: Config, rows: seq<Notification>, idxs: seq<nat>, r: seq<Notification>)
    requires Readdressed(cfg, rows, idxs, r)
    ensures |r| == |rows|
  {
  }

  lemma ReaddressedNext(cfg: Config, rows: seq<Notification>, idxs: seq<nat>, i: nat, r: seq<Notification>, id: nat)
    requires i < |idxs| && idxs[i] < |rows| && |r| == |rows| && Readdressed(cfg, rows, idxs[..i], r)
    requires cfg.Addressed(rows[idxs[i]].(id := id))
    ensures Readdressed(cfg, rows, idxs[..i + 1], r[idxs[i] := rows[idxs[i]].(id := id)])
  {
    hide Config.Addressed;
    assert idxs[..i + 1] == idxs[..i] + [idxs[i]];
  }

  lemma ReaddressedFacts(cfg: Config, rows: seq<Notification>, idxs: seq<nat>, r: seq<Notification>, b: Batch,
                         flat: map<nat, Notification>, cbs: map<nat, CallbackLog>)
    requires Readdressed(cfg, rows, idxs, r) && Added(b, rows, flat, cbs)
    requires forall k | k in idxs :: k < |rows| && k !in b.kept
    ensures SameButIds(rows, r) && Added(b, r, flat, cbs) && |r| == |rows|
    ensures forall k | k in idxs :: cfg.Addressed(r[k])
  {
    hide Config.Addressed, InitLog;
    assert forall k | k in b.kept :: r[k] == rows[k];
  }

  lemma SameButIdsSelf(ns: seq<Notification>)
    ensures SameButIds(ns, ns)
  {
  }

  lemma SameSize(ns: seq<Notification>, rows: seq<Notification>)
    requires SameButIds(ns, rows)
    ensures |ns| == |rows|
  {
  }

  lemma SameButIdsChain(ns: seq<Notification>, rows: seq<Notification>, r: seq<Notification>)
    requires SameButIds(ns, rows) && SameButIds(rows, r)
    ensures SameButIds(ns, r)
  {
  }

  lemma OneMore(kept: set<nat>, idxs: seq<nat>, i: nat)
    requires i < |idxs| && Increasing(idxs) && forall k | k in idxs :: k !in kept
    ensures kept + Indices(idxs[..i + 1]) == kept + Indices(idxs[..i]) + {idxs[i]}
    ensures idxs[i] !in kept + Indices(idxs[..i])
  {
    assert idxs[..i + 1] == idxs[..i] + [idxs[i]];
    assert idxs[i] in idxs;
  }

  lemma NothingAdded(b: Batch, rows: seq<Notification>)
    requires b.kept == {}
    ensures Added(b, rows, b.flat, b.cbs)
  {
  }

  lemma NoneYet(b: Batch, rows: seq<Notification>, flat: map<nat, Notification>, cbs: map<nat, CallbackLog>,
                idxs: seq<nat>)
    requires Added(b, rows, flat, cbs)
    ensures Added(b.(kept := b.kept + Indices(idxs[..0])), rows, flat, cbs)
  {
    hide Added;
    assert b.kept + Indices(idxs[..0]) == b.kept;
  }

  /** One row and its callback row, in order, within a transaction. */
  function InsertRow(tx: Dbs, home: Dst, cbTable: string, row: Notification, needCallback: bool, now: i64)
    : Result<Dbs>
  {
    var access := NoAccess(tx, home.db, home.table);
    if access.Some? then Err(access.value)
    else if row.id in Rows(tx, home.db, home.table) then Err(DuplicateNotificationId)
    else
      var withRow := PutRow(tx, home.db, home.table, row);
      if !needCallback then Ok(withRow)
      else if !HasCbTable(withRow, home.db, cbTable) then Err(SqlFailure)
      else Ok(PutCb(withRow, home.db, cbTable, InitLog(row.id, now)))
  }

  lemma InsertRowKeys(tx: Dbs, home: Dst, cbTable: string, row: Notification, needCallback: bool, now: i64)
    requires home.db in tx
    ensures var r := InsertRow(tx, home, cbTable, row, needCallback, now);
            if r.Ok? then r.value.Keys == tx.Keys else !IsNoDatabase(Some(r.error))
  {
  }

  predicate IsNoDatabase(err: Option<DaoError>) {
    err.Some? && err.value.NoDatabase?
  }

  lemma IsNoDatabaseHere(d: string)
    ensures IsNoDatabase(Some(NoDatabase(d)))
  {
  }

  /** Some notification's database was not loaded. */
  ghost predicate Unloaded(cfg: Config, dbs: Dbs, ns: seq<Notification>) {
    exists i :: 0 <= i < |ns| && cfg.Home(ns[i]).db !in dbs
  }

  ghost predicate Loaded(cfg: Config, dbs: Dbs, rows: seq<Notification>, idxs: seq<nat>) {
    forall k | k in idxs :: k < |rows| && cfg.Home(rows[k]).db in dbs
  }

  lemma LoadedAt(cfg: Config, dbs: Dbs, rows: seq<Notification>, idxs: seq<nat>, k: nat)
    requires Loaded(cfg, dbs, rows, idxs) && k in idxs
    ensures k < |rows| && cfg.Home(rows[k]).db in dbs
  {
  }

  lemma LoadedSame(cfg: Config, dbs: Dbs, rows: seq<Notification>, dbs': Dbs, r: seq<Notification>, idxs: seq<nat>)
    requires Loaded(cfg, dbs, rows, idxs) && SameButIds(rows, r) && dbs'.Keys == dbs.Keys
    ensures Loaded(cfg, dbs', r, idxs)
  {
  }

  lemma UnloadedSame(cfg: Config, dbs: Dbs, ns: seq<Notification>, rows: seq<Notification>)
    requires |ns| == |rows| && forall i | 0 <= i < |ns| :: cfg.Home(rows[i]) == cfg.Home(ns[i])
    ensures Unloaded(cfg, dbs, ns) <==> Unloaded(cfg, dbs, rows)
  {
    hide Config.Home;
    forall i | 0 <= i < |ns|
      ensures cfg.Home(rows[i]).db in dbs <==> cfg.Home(ns[i]).db in dbs
    {
    }
  }

  lemma InsertRowEffect(cfg: Config, tx: Dbs, flat: map<nat, Notification>, cbs: map<nat, CallbackLog>,
                        row: Notification, needCallback: bool, now: i64)
    requires Represents(cfg, tx, flat, cbs) && cfg.Addressed(row)
    requires InsertRow(tx, cfg.Home(row), cfg.CbTable(row), row, needCallback, now).Ok?
    ensures row.id !in flat
    ensures Represents(cfg, InsertRow(tx, cfg.Home(row), cfg.CbTable(row), row, needCallback, now).value,
                       flat[row.id := row], Logged(cbs, row.id, needCallback, now))
  {
    hide Represents, Config.Home, Config.IdHome, Config.CbTable, Config.IdCbTable, PutRow, PutCb, Rows, HasTable,
         HasCbTable, SameTables;
    var home := cfg.Home(row);
    FoundHere(cfg, tx, flat, cbs, row.id);
    PutRowRepresents(cfg, tx, flat, cbs, row);
    if needCallback {
      PutCbRepresents(cfg, PutRow(tx, home.db, home.table, row), flat[row.id := row], cbs, InitLog(row.id, now));
    }
  }

  lemma RowsAddedNext(b: Batch, rows: seq<Notification>, flat: map<nat, Notification>, k: nat)
    requires RowsAdded(b, rows, flat) && k < |rows| && k !in b.kept && rows[k].id !in flat
    ensures RowsAdded(b.(kept := b.kept + {k}), rows, flat[rows[k].id := rows[k]])
    ensures rows[k].id !in b.flat && forall j | j in b.kept :: rows[j].id != rows[k].id
  {
  }

  lemma LogsAddedNext(b: Batch, rows: seq<Notification>, cbs: map<nat, CallbackLog>, k: nat)
    requires (forall j | j in b.kept :: j < |rows|) && LogsAdded(b, rows, cbs) && k < |rows|
    requires rows[k].id !in b.flat && forall j | j in b.kept :: rows[j].id != rows[k].id
    ensures LogsAdded(b.(kept := b.kept + {k}), rows, Logged(cbs, rows[k].id, b.needCallback, b.now))
  {
    hide InitLog;
  }

  lemma AddedNext(b: Batch, rows: seq<Notification>, flat: map<nat, Notification>, cbs: map<nat, CallbackLog>, k: nat)
    requires Added(b, rows, flat, cbs) && k < |rows| && k !in b.kept && rows[k].id !in flat
    ensures Added(b.(kept := b.kept + {k}), rows, flat[rows[k].id := rows[k]],
                  Logged(cbs, rows[k].id, b.needCallback, b.now))
  {
    RowsAddedNext(b, rows, flat, k);
    LogsAddedNext(b, rows, cbs, k);
    hide LogsAdded, Logged;
  }

  /** The kept rows among the first n, as operations on the flat table. */
  function KeptInserts(rows: seq<Notification>, kept: set<nat>, n: nat): seq<Op>
    requires n <= |rows|
  {
    if n == 0 then []
    else KeptInserts(rows, kept, n - 1) + (if n - 1 in kept then [Insert(rows[n - 1])] else [])
  }

  lemma ApplyLast(flat: map<nat, Notification>, ops: seq<Op>, op: Op)
    ensures ApplyAll(flat, ops + [op]) == Apply(ApplyAll(flat, ops), op)
    ensures ops + [] == ops
  {
    assert (ops + [op])[..|ops|] == ops;
  }

  /** Only the first n rows considered. */
  ghost predicate AddedUpTo(b: Batch, rows: seq<Notification>, n: nat, flat: map<nat, Notification>) {
    && (forall k | k in b.kept && k < n :: k < |rows| && rows[k].id in flat && flat[rows[k].id] == rows[k])
    && (forall id | id in b.flat :: id in flat && flat[id] == b.flat[id])
    && (forall id | id in flat :: id in b.flat || exists k :: k in b.kept && k < n && rows[k].id == id)
  }

  lemma AddedUpToNext(b: Batch, rows: seq<Notification>, n: nat, flat: map<nat, Notification>)
    requires n < |rows| && AddedUpTo(b, rows, n, flat)
    requires n in b.kept ==> rows[n].id !in flat
    ensures AddedUpTo(b, rows, n + 1, if n in b.kept then Apply(flat, Insert(rows[n])) else flat)
  {
  }

  lemma StillFresh(b: Batch, rows: seq<Notification>, n: nat, before: map<nat, Notification>,
                   flat: map<nat, Notification>, cbs: map<nat, CallbackLog>)
    requires Added(b, rows, flat, cbs) && n < |rows| && AddedUpTo(b, rows, n, before)
    ensures n in b.kept ==> rows[n].id !in before
  {
    hide InitLog;
  }

  lemma InsertsNone(b: Batch, rows: seq<Notification>)
    ensures AddedUpTo(b, rows, 0, ApplyAll(b.flat, KeptInserts(rows, b.kept, 0)))
  {
  }

  lemma AppliedNext(flat: map<nat, Notification>, rows: seq<Notification>, kept: set<nat>, n: nat)
    requires 0 < n <= |rows|
    ensures var before := ApplyAll(flat, KeptInserts(rows, kept, n - 1));
            ApplyAll(flat, KeptInserts(rows, kept, n)) ==
            if n - 1 in kept then Apply(before, Insert(rows[n - 1])) else before
  {
    hide Apply, ApplyAll;
    ApplyLast(flat, KeptInserts(rows, kept, n - 1), Insert(rows[n - 1]));
  }

  lemma {:induction false} InsertsAdd(b: Batch, rows: seq<Notification>, n: nat, flat: map<nat, Notification>,
                                      cbs: map<nat, CallbackLog>)
    requires Added(b, rows, flat, cbs) && n <= |rows|
    ensures AddedUpTo(b, rows, n, ApplyAll(b.flat, KeptInserts(rows, b.kept, n)))
  {
    hide *;
    if n == 0 {
      InsertsNone(b, rows);
    } else {
      InsertsAdd(b, rows, n - 1, flat, cbs);
      var before := ApplyAll(b.flat, KeptInserts(rows, b.kept, n - 1));
      StillFresh(b, rows, n - 1, before, flat, cbs);
      AddedUpToNext(b, rows, n - 1, before);
      AppliedNext(b.flat, rows, b.kept, n);
    }
  }

  /** A batch insert is a history of the flat table: one insert for each row kept. */
  lemma BatchIsInserts(b: Batch, rows: seq<Notification>, flat: map<nat, Notification>, cbs: map<nat, CallbackLog>)
    requires Added(b, rows, flat, cbs)
    ensures flat == ApplyAll(b.flat, KeptInserts(rows, b.kept, |rows|))
  {
    hide ApplyAll, KeptInserts, InitLog;
    InsertsAdd(b, rows, |rows|, flat, cbs);
    var r := ApplyAll(b.flat, KeptInserts(rows, b.kept, |rows|));
    assert forall id | id in r :: id in flat && flat[id] == r[id];
    assert forall id | id in flat :: id in r;
  }

  /** Indices below n, split by database. */
  ghost predicate GroupedByDb(cfg: Config, m: map<string, seq<nat>>, ns: seq<Notification>, n: nat) {
    && n <= |ns|
    && (forall d | d in m ::
          m[d] != [] && Increasing(m[d]) && forall k | k in m[d] :: k < n && cfg.Home(ns[k]).db == d)
    && (forall k: nat | k < n :: cfg.Home(ns[k]).db in m && k in m[cfg.Home(ns[k]).db])
  }

  lemma GroupedNext(cfg: Config, m: map<string, seq<nat>>, ns: seq<Notification>, i: nat)
    requires i < |ns| && GroupedByDb(cfg, m, ns, i)
    ensures var d := cfg.Home(ns[i]).db;
            GroupedByDb(cfg, m[d := (if d in m then m[d] else []) + [i]], ns, i + 1)
  {
    hide Config.Home;
    var d := cfg.Home(ns[i]).db;
    if d in m {
      assert forall j | 0 <= j < |m[d]| :: m[d][j] in m[d];
    }
  }

  /** Each group is in whole or not at all, and none that is still to come. */
  ghost predicate WholeGroups(m: map<string, seq<nat>>, kept: set<nat>, names: set<string>) {
    && (forall d | d in m :: (forall k | k in m[d] :: k in kept) || (forall k | k in m[d] :: k !in kept))
    && (forall d | d in m && d in names :: forall k | k in m[d] :: k !in kept)
  }

  ghost predicate Settled(m: map<string, seq<nat>>, kept: set<nat>, names: set<string>) {
    forall d | d in m && d !in names :: forall k | k in m[d] :: k in kept
  }

  /** Some group already tried is not in at all. */
  ghost predicate Missed(m: map<string, seq<nat>>, kept: set<nat>, names: set<string>) {
    exists d :: d in m && d !in names && forall k | k in m[d] :: k !in kept
  }

  lemma NoneSettled(m: map<string, seq<nat>>)
    ensures Settled(m, {}, m.Keys) && WholeGroups(m, {}, m.Keys)
  {
  }

  lemma GroupReady(cfg: Config, m: map<string, seq<nat>>, ns: seq<Notification>, kept: set<nat>, names: set<string>,
                   d: string)
    requires GroupedByDb(cfg, m, ns, |ns|) && WholeGroups(m, kept, names) && d in names && d in m
    ensures Increasing(m[d]) && forall k | k in m[d] :: k < |ns| && k !in kept
  {
    hide Increasing, Config.Home;
  }

  lemma GroupLoaded(cfg: Config, m: map<string, seq<nat>>, ns: seq<Notification>, dbs: Dbs, rows: seq<Notification>,
                    d: string)
    requires GroupedByDb(cfg, m, ns, |ns|) && d in m && d in dbs && SameButIds(ns, rows)
    ensures Loaded(cfg, dbs, rows, m[d])
  {
    hide Increasing;
  }

  lemma NamesMissing(cfg: Config, m: map<string, seq<nat>>, ns: seq<Notification>, dbs: Dbs, d: string)
    requires GroupedByDb(cfg, m, ns, |ns|) && d in m && d !in dbs
    ensures Unloaded(cfg, dbs, ns)
  {
    hide Increasing, Config.Home;
    assert m[d][0] in m[d];
  }

  lemma NamesLoaded(cfg: Config, m: map<string, seq<nat>>, ns: seq<Notification>, dbs: Dbs)
    requires GroupedByDb(cfg, m, ns, |ns|) && m.Keys <= dbs.Keys
    ensures !Unloaded(cfg, dbs, ns)
  {
    hide Increasing, Config.Home;
  }

  lemma GroupDone(cfg: Config, m: map<string, seq<nat>>, ns: seq<Notification>, kept: set<nat>, names: set<string>,
                  d: string)
    requires GroupedByDb(cfg, m, ns, |ns|) && WholeGroups(m, kept, names) && d in names && d in m
    ensures WholeGroups(m, kept, names - {d})
    ensures WholeGroups(m, kept + Indices(m[d]), names - {d})
    ensures Settled(m, kept, names) ==> Settled(m, kept + Indices(m[d]), names - {d})
    ensures Missed(m, kept, names - {d})
    ensures Missed(m, kept, names) ==> Missed(m, kept + Indices(m[d]), names - {d})
  {
    hide Increasing, Config.Home;
    var more := kept + Indices(m[d]);
    forall e | e in m && e != d
      ensures forall k | k in m[e] :: k in more <==> k in kept
    {
    }
    assert d in m && d !in names - {d} && forall k | k in m[d] :: k !in kept;
  }

  lemma AllOrNothing(cfg: Config, m: map<string, seq<nat>>, ns: seq<Notification>, b: Batch, rows: seq<Notification>,
                     flat: map<nat, Notification>, cbs: map<nat, CallbackLog>, names: set<string>)
    requires GroupedByDb(cfg, m, ns, |ns|) && WholeGroups(m, b.kept, names) && |rows| == |ns|
    requires Added(b, rows, flat, cbs)
    ensures forall i, j | 0 <= i < |ns| && 0 <= j < |ns| && cfg.Home(ns[i]).db == cfg.Home(ns[j]).db ::
              i in b.kept <==> j in b.kept
    ensures names == {} && Settled(m, b.kept, names) ==> forall i | 0 <= i < |ns| :: i in b.kept
    ensures Missed(m, b.kept, names) ==> exists i :: 0 <= i < |ns| && i !in b.kept
  {
    hide Increasing, Config.Home;
    if Missed(m, b.kept, names) {
      var d :| d in m && d !in names && forall k | k in m[d] :: k !in b.kept;
      assert m[d][0] in m[d];
    }
  }
}
