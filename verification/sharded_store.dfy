/**
 The sharded tables behind internal/repository/dao/notification.go as values: databases of tables of
 rows, and what it means for them to stand for one flat table. A row sits where the hash of its
 business key sends it, which must be where its id alone sends a reader.
 */
module ShardedStore {
  import opened Words
  import opened Snowflake
  import opened HashSharding

  /** The columns the store itself never reads are gathered in `content`. */
  datatype Content = Content(receivers: string, channel: string, tplId: u64, tplVersionId: u64, tplParams: string,
                             scheduleStrat: i64, scheduleEnd: i64)

  datatype Notification = Notification(id: nat, bizId: u64, bizKey: string, content: Content, status: string,
                                       version: int, createdAt: i64, updatedAt: i64)

  datatype CallbackLog = CallbackLog(notificationId: nat, retriedTimes: int, nextRetryAt: i64, status: string,
                                     createdAt: i64, updatedAt: i64)

  /** Tables by name, rows by primary key; callback rows by notification. */
  datatype Database = Database(tables: map<string, map<nat, Notification>>, cbLogs: map<string, map<nat, CallbackLog>>)

  type Strategy = s: HashStrategy | s.Valid() witness HashStrategy("", "", 1, 1)

  /** The two strategies and the hash of a key string. */
  datatype Config = Config(notif: Strategy, cbLog: Strategy, hash: string -> u64) {
    function KeyHash(bizId: u64, bizKey: string): u64 {
      hash(HashKey(bizId, bizKey))
    }

    function KeyHome(bizId: u64, bizKey: string): Dst {
      notif.Shard(KeyHash(bizId, bizKey))
    }

    function Home(n: Notification): Dst {
      KeyHome(n.bizId, n.bizKey)
    }

    function IdHome(id: nat): Dst {
      notif.ShardWithId(id)
    }

    function CbTable(n: Notification): string {
      cbLog.Shard(KeyHash(n.bizId, n.bizKey)).table
    }

    function IdCbTable(id: nat): string {
      cbLog.ShardWithId(id).table
    }

    /** Exactly then both strategies route every id like its key: see HashSharding.IdRoutesLikeKeyIff. */
    predicate Good() {
      CountDivides(notif) && CountDivides(cbLog)
    }

    /** A reader who has only the id looks where the key put the row and its callback. */
    ghost predicate Addressed(n: Notification) {
      IdHome(n.id) == Home(n) && IdCbTable(n.id) == CbTable(n)
    }
  }

  /** Every id the generator makes for a key is addressed. */
  lemma MintedIsAddressed(cfg: Config, n: Notification, timestamp: u64, count: u64)
    requires cfg.Good() && n.id == Pack(timestamp, cfg.KeyHash(n.bizId, n.bizKey), count)
    ensures cfg.Addressed(n)
    ensures var hash := cfg.hash(HashKey(n.bizId, n.bizKey));
            && cfg.IdHome(n.id) == cfg.notif.Shard(hash)
            && cfg.IdCbTable(n.id) == cfg.cbLog.Shard(hash).table
  {
    hide HashStrategy.Shard, HashStrategy.ShardWithId, Pack, CountDivides;
    IdRoutesLikeKeyIff(cfg.notif);
    IdRoutesLikeKeyIff(cfg.cbLog);
  }

  /** With the same database prefix and count, the callback strategy names the same database. */
  lemma CallbackSharesDatabase(cfg: Config, id: nat)
    requires cfg.notif.dbPrefix == cfg.cbLog.dbPrefix && cfg.notif.dbSharding == cfg.cbLog.dbSharding
    ensures cfg.cbLog.ShardWithId(id).db == cfg.IdHome(id).db
  {
    hide ExtractHash;
  }

  // ---------------------------------------------------------------- tables

  type Dbs = map<string, Database>

  predicate HasTable(dbs: Dbs, d: string, t: string) {
    d in dbs && t in dbs[d].tables
  }

  predicate HasCbTable(dbs: Dbs, d: string, t: string) {
    d in dbs && t in dbs[d].cbLogs
  }

  function Rows(dbs: Dbs, d: string, t: string): map<nat, Notification> {
    if HasTable(dbs, d, t) then dbs[d].tables[t] else map[]
  }

  function CbRows(dbs: Dbs, d: string, t: string): map<nat, CallbackLog> {
    if HasCbTable(dbs, d, t) then dbs[d].cbLogs[t] else map[]
  }

  function PutRow(dbs: Dbs, d: string, t: string, row: Notification): Dbs
    requires HasTable(dbs, d, t)
  {
    var rows: map<nat, Notification> := dbs[d].tables[t][row.id := row];
    dbs[d := dbs[d].(tables := dbs[d].tables[t := rows])]
  }

  function PutCb(dbs: Dbs, d: string, t: string, log: CallbackLog): Dbs
    requires HasCbTable(dbs, d, t)
  {
    var rows: map<nat, CallbackLog> := dbs[d].cbLogs[t][log.notificationId := log];
    dbs[d := dbs[d].(cbLogs := dbs[d].cbLogs[t := rows])]
  }

  /** The same tables exist; only rows differ. */
  ghost predicate SameTables(dbs: Dbs, dbs': Dbs) {
    && (forall d: string :: d in dbs <==> d in dbs')
    && (forall d: string, t: string :: HasTable(dbs, d, t) <==> HasTable(dbs', d, t))
    && (forall d: string, t: string :: HasCbTable(dbs, d, t) <==> HasCbTable(dbs', d, t))
  }

  lemma PutRowEffect(dbs: Dbs, d: string, t: string, row: Notification)
    requires HasTable(dbs, d, t)
    ensures SameTables(dbs, PutRow(dbs, d, t, row))
    ensures Rows(PutRow(dbs, d, t, row), d, t) == Rows(dbs, d, t)[row.id := row]
    ensures forall d': string, t': string | (d', t') != (d, t) ::
              Rows(PutRow(dbs, d, t, row), d', t') == Rows(dbs, d', t')
    ensures forall d': string, t': string :: CbRows(PutRow(dbs, d, t, row), d', t') == CbRows(dbs, d', t')
  {
  }

  lemma PutCbEffect(dbs: Dbs, d: string, t: string, log: CallbackLog)
    requires HasCbTable(dbs, d, t)
    ensures SameTables(dbs, PutCb(dbs, d, t, log))
    ensures CbRows(PutCb(dbs, d, t, log), d, t) == CbRows(dbs, d, t)[log.notificationId := log]
    ensures forall d': string, t': string | (d', t') != (d, t) ::
              CbRows(PutCb(dbs, d, t, log), d', t') == CbRows(dbs, d', t')
    ensures forall d': string, t': string :: Rows(PutCb(dbs, d, t, log), d', t') == Rows(dbs, d', t')
  {
  }

  // ---------------------------------------------------------------- one flat table

  /** Row for row the flat table, each row in the one place its id and its key both name. */
  ghost predicate Holds(cfg: Config, dbs: Dbs, flat: map<nat, Notification>) {
    && (forall d: string, t: string, id: nat | id in Rows(dbs, d, t) ::
          && id in flat && flat[id] == Rows(dbs, d, t)[id]
          && d == cfg.IdHome(id).db && t == cfg.IdHome(id).table)
    && (forall id: nat | id in flat ::
          && id in Rows(dbs, cfg.IdHome(id).db, cfg.IdHome(id).table)
          && flat[id].id == id && cfg.Home(flat[id]) == cfg.IdHome(id))
  }

  /** Callback rows likewise, in the database of their notification. */
  ghost predicate CbHolds(cfg: Config, dbs: Dbs, cbs: map<nat, CallbackLog>) {
    && (forall d: string, t: string, id: nat | id in CbRows(dbs, d, t) ::
          && id in cbs && cbs[id] == CbRows(dbs, d, t)[id]
          && d == cfg.IdHome(id).db && t == cfg.IdCbTable(id))
    && (forall id: nat | id in cbs ::
          && id in CbRows(dbs, cfg.IdHome(id).db, cfg.IdCbTable(id))
          && cbs[id].notificationId == id)
  }

  ghost predicate Represents(cfg: Config, dbs: Dbs, flat: map<nat, Notification>, cbs: map<nat, CallbackLog>) {
    && Holds(cfg, dbs, flat) && CbHolds(cfg, dbs, cbs)
    && forall id | id in cbs :: id in flat
  }

  lemma PutRowHolds(cfg: Config, dbs: Dbs, flat: map<nat, Notification>, row: Notification)
    requires Holds(cfg, dbs, flat) && cfg.Home(row) == cfg.IdHome(row.id)
    requires HasTable(dbs, cfg.IdHome(row.id).db, cfg.IdHome(row.id).table)
    ensures Holds(cfg, PutRow(dbs, cfg.IdHome(row.id).db, cfg.IdHome(row.id).table, row), flat[row.id := row])
  {
    hide Config.Home, Config.IdHome, Rows, PutRow, HasTable;
    PutRowEffect(dbs, cfg.IdHome(row.id).db, cfg.IdHome(row.id).table, row);
  }

  lemma PutRowCbHolds(cfg: Config, dbs: Dbs, cbs: map<nat, CallbackLog>, d: string, t: string, row: Notification)
    requires CbHolds(cfg, dbs, cbs) && HasTable(dbs, d, t)
    ensures CbHolds(cfg, PutRow(dbs, d, t, row), cbs)
  {
    hide Config.IdHome, Config.IdCbTable, CbRows, PutRow, HasTable, Rows, SameTables;
    PutRowEffect(dbs, d, t, row);
  }

  lemma PutCbRowsHold(cfg: Config, dbs: Dbs, flat: map<nat, Notification>, d: string, t: string, log: CallbackLog)
    requires Holds(cfg, dbs, flat) && HasCbTable(dbs, d, t)
    ensures Holds(cfg, PutCb(dbs, d, t, log), flat)
  {
    hide Config.IdHome, Config.Home, CbRows, PutCb, HasCbTable, Rows, SameTables;
    PutCbEffect(dbs, d, t, log);
  }

  lemma PutRowRepresents(cfg: Config, dbs: Dbs, flat: map<nat, Notification>, cbs: map<nat, CallbackLog>,
                         row: Notification)
    requires Represents(cfg, dbs, flat, cbs) && cfg.Home(row) == cfg.IdHome(row.id)
    requires HasTable(dbs, cfg.IdHome(row.id).db, cfg.IdHome(row.id).table)
    ensures var r := PutRow(dbs, cfg.IdHome(row.id).db, cfg.IdHome(row.id).table, row);
            Represents(cfg, r, flat[row.id := row], cbs) && SameTables(dbs, r)
  {
    hide Config.Home, Config.IdHome, Config.IdCbTable, Rows, PutRow, CbRows, HasTable, Holds, CbHolds, SameTables;
    PutRowHolds(cfg, dbs, flat, row);
    PutRowCbHolds(cfg, dbs, cbs, cfg.IdHome(row.id).db, cfg.IdHome(row.id).table, row);
    PutRowEffect(dbs, cfg.IdHome(row.id).db, cfg.IdHome(row.id).table, row);
  }

  lemma PutCbHolds(cfg: Config, dbs: Dbs, cbs: map<nat, CallbackLog>, log: CallbackLog)
    requires CbHolds(cfg, dbs, cbs)
    requires HasCbTable(dbs, cfg.IdHome(log.notificationId).db, cfg.IdCbTable(log.notificationId))
    ensures CbHolds(cfg, PutCb(dbs, cfg.IdHome(log.notificationId).db, cfg.IdCbTable(log.notificationId), log),
                    cbs[log.notificationId := log])
  {
    hide Config.IdCbTable, Config.IdHome, CbRows, PutCb, HasCbTable;
    PutCbEffect(dbs, cfg.IdHome(log.notificationId).db, cfg.IdCbTable(log.notificationId), log);
  }

  lemma PutCbRepresents(cfg: Config, dbs: Dbs, flat: map<nat, Notification>, cbs: map<nat, CallbackLog>,
                        log: CallbackLog)
    requires Represents(cfg, dbs, flat, cbs) && log.notificationId in flat
    requires HasCbTable(dbs, cfg.IdHome(log.notificationId).db, cfg.IdCbTable(log.notificationId))
    ensures var r := PutCb(dbs, cfg.IdHome(log.notificationId).db, cfg.IdCbTable(log.notificationId), log);
            Represents(cfg, r, flat, cbs[log.notificationId := log]) && SameTables(dbs, r)
  {
    hide Config.IdCbTable, Config.Home, Config.IdHome, Rows, CbRows, PutCb, HasCbTable, Holds, CbHolds, SameTables;
    PutCbHolds(cfg, dbs, cbs, log);
    PutCbRowsHold(cfg, dbs, flat, cfg.IdHome(log.notificationId).db, cfg.IdCbTable(log.notificationId), log);
    PutCbEffect(dbs, cfg.IdHome(log.notificationId).db, cfg.IdCbTable(log.notificationId), log);
  }

  // ---------------------------------------------------------------- reading

  /** The row of an id is found where the id says, or nowhere. */
  lemma FoundByIdIff(cfg: Config, dbs: Dbs, flat: map<nat, Notification>, id: nat)
    requires Holds(cfg, dbs, flat)
    ensures id in Rows(dbs, cfg.IdHome(id).db, cfg.IdHome(id).table) <==> id in flat
    ensures id in flat ==> Rows(dbs, cfg.IdHome(id).db, cfg.IdHome(id).table)[id] == flat[id]
    ensures id in flat ==> HasTable(dbs, cfg.IdHome(id).db, cfg.IdHome(id).table)
  {
    hide Config.IdHome, Config.Home;
  }

  lemma CallbackFoundIff(cfg: Config, dbs: Dbs, cbs: map<nat, CallbackLog>, id: nat)
    requires CbHolds(cfg, dbs, cbs)
    ensures id in CbRows(dbs, cfg.IdHome(id).db, cfg.IdCbTable(id)) <==> id in cbs
    ensures id in cbs ==> CbRows(dbs, cfg.IdHome(id).db, cfg.IdCbTable(id))[id] == cbs[id]
  {
    hide Config.IdHome, Config.IdCbTable;
  }

  /** Where the rows really are: a notification in the database and table that the notification strategy
      names for its key, its callback row in the database the notification strategy and the table the
      callback strategy name for its id. */
  lemma WhereRowsSit(cfg: Config, dbs: Dbs, flat: map<nat, Notification>, cbs: map<nat, CallbackLog>, id: nat)
    requires Represents(cfg, dbs, flat, cbs)
    ensures id in flat ==>
              var dst := cfg.notif.Shard(cfg.hash(HashKey(flat[id].bizId, flat[id].bizKey)));
              && dst.db in dbs && dst.table in dbs[dst.db].tables
              && id in dbs[dst.db].tables[dst.table] && dbs[dst.db].tables[dst.table][id] == flat[id]
    ensures id in cbs ==>
              var db, table := cfg.notif.ShardWithId(id).db, cfg.cbLog.ShardWithId(id).table;
              && db in dbs && table in dbs[db].cbLogs
              && id in dbs[db].cbLogs[table] && dbs[db].cbLogs[table][id] == cbs[id]
  {
    hide HashStrategy.Shard, HashStrategy.ShardWithId, HashKey;
  }

  predicate HasKey(n: Notification, bizId: u64, bizKey: string) {
    n.bizId == bizId && n.bizKey == bizKey
  }

  /** One table holds every row of a key. */
  lemma FoundByKeyIff(cfg: Config, dbs: Dbs, flat: map<nat, Notification>, bizId: u64, bizKey: string, id: nat)
    requires Holds(cfg, dbs, flat)
    ensures var home := cfg.KeyHome(bizId, bizKey);
            var rows := Rows(dbs, home.db, home.table);
            && (id in rows && HasKey(rows[id], bizId, bizKey) <==> id in flat && HasKey(flat[id], bizId, bizKey))
            && (id in rows ==> rows[id] == flat[id])
  {
    hide Config.KeyHome, Config.IdHome;
  }

  // ---------------------------------------------------------------- histories of the flat table

  datatype Op =
    | Insert(row: Notification)
    | Mark(id: nat, status: string, now: i64)
    | CompareAndSwap(id: nat, version: int, status: string, now: i64)

  function Marked(n: Notification, status: string, now: i64): Notification {
    n.(status := status, version := n.version + 1, updatedAt := now)
  }

  /** Whether the statement changes a row. */
  predicate Effective(flat: map<nat, Notification>, op: Op) {
    match op
    case Insert(row) => row.id !in flat
    case Mark(id, _, _) => id in flat
    case CompareAndSwap(id, version, _, _) => id in flat && flat[id].version == version
  }

  function Apply(flat: map<nat, Notification>, op: Op): map<nat, Notification> {
    if !Effective(flat, op) then flat
    else
      match op
      case Insert(row) => flat[row.id := row]
      case Mark(id, status, now) => flat[id := Marked(flat[id], status, now)]
      case CompareAndSwap(id, _, status, now) => flat[id := Marked(flat[id], status, now)]
  }

  function ApplyAll(flat: map<nat, Notification>, ops: seq<Op>): map<nat, Notification> {
    if ops == [] then flat else Apply(ApplyAll(flat, ops[..|ops| - 1]), ops[|ops| - 1])
  }

  predicate Changes(flat: map<nat, Notification>, ops: seq<Op>, k: nat, id: nat)
    requires k < |ops|
  {
    && Effective(ApplyAll(flat, ops[..k]), ops[k])
    && match ops[k]
       case Insert(_) => false
       case Mark(i, _, _) => i == id
       case CompareAndSwap(i, _, _, _) => i == id
  }

  /** The row stays, with its key, and its version counts the updates that reached it. */
  lemma {:induction false} VersionGrows(flat: map<nat, Notification>, ops: seq<Op>, j: nat, k: nat, id: nat)
    requires j <= k <= |ops| && id in ApplyAll(flat, ops[..j])
    ensures id in ApplyAll(flat, ops[..k])
    ensures var before, after := ApplyAll(flat, ops[..j])[id], ApplyAll(flat, ops[..k])[id];
            && after.bizId == before.bizId && after.bizKey == before.bizKey && after.content == before.content
            && before.version <= after.version
            && (j < k && Changes(flat, ops, j, id) ==> before.version < after.version)
  {
    if j < k {
      VersionGrows(flat, ops, j, k - 1, id);
      assert ops[..k][..k - 1] == ops[..k - 1];
    }
  }

  /** Column by column, what an update leaves: the new status, the time, the next version; all other
      columns and all other rows as they were. */
  ghost predicate UpdatedAt(flat: map<nat, Notification>, id: nat, status: string, now: i64,
                            r: map<nat, Notification>)
    requires id in flat
  {
    && r.Keys == flat.Keys && (forall other | other in flat && other != id :: r[other] == flat[other])
    && r[id].status == status && r[id].updatedAt == now && r[id].version == flat[id].version + 1
    && r[id].id == flat[id].id && r[id].bizId == flat[id].bizId && r[id].bizKey == flat[id].bizKey
    && r[id].content == flat[id].content && r[id].createdAt == flat[id].createdAt
  }

  /** The status an operation writes, and when. */
  function StatusOf(op: Op): string {
    if op.Insert? then op.row.status else op.status
  }

  function TimeOf(op: Op): i64 {
    if op.Insert? then op.row.updatedAt else op.now
  }

  /** Whether operation k puts the row in or changes it. */
  predicate Writes(flat: map<nat, Notification>, ops: seq<Op>, k: nat, id: nat)
    requires k < |ops|
  {
    Changes(flat, ops, k, id)
    || (ops[k].Insert? && ops[k].row.id == id && Effective(ApplyAll(flat, ops[..k]), ops[k]))
  }

  /** A row carries the status and the time of the last operation that put it in or changed it. */
  lemma StatusIsLast(flat: map<nat, Notification>, ops: seq<Op>, j: nat, k: nat, id: nat)
    requires j < k <= |ops| && Writes(flat, ops, j, id)
    requires forall m | j < m < k :: !Changes(flat, ops, m, id)
    ensures id in ApplyAll(flat, ops[..k])
    ensures ApplyAll(flat, ops[..k])[id].status == StatusOf(ops[j])
    ensures ApplyAll(flat, ops[..k])[id].updatedAt == TimeOf(ops[j])
  {
    assert ops[..j + 1][..j] == ops[..j];
    Untouched(flat, ops, j + 1, k, id);
  }

  /** Each version of a row is consumed by at most one effective compare-and-swap, in any history. */
  lemma VersionUsedOnce(flat: map<nat, Notification>, ops: seq<Op>, j: nat, k: nat, id: nat)
    requires j < k < |ops| && ops[j].CompareAndSwap? && ops[k].CompareAndSwap? && ops[j].id == ops[k].id == id
    requires Changes(flat, ops, j, id) && Changes(flat, ops, k, id)
    ensures ops[j].version < ops[k].version
  {
    hide ApplyAll;
    VersionGrows(flat, ops, j, k, id);
  }

  lemma {:induction false} Untouched(flat: map<nat, Notification>, ops: seq<Op>, j: nat, k: nat, id: nat)
    requires j <= k <= |ops| && id in ApplyAll(flat, ops[..j])
    requires forall m | j <= m < k :: !Changes(flat, ops, m, id)
    ensures id in ApplyAll(flat, ops[..k]) && ApplyAll(flat, ops[..k])[id] == ApplyAll(flat, ops[..j])[id]
  {
    if j < k {
      Untouched(flat, ops, j, k - 1, id);
      assert ops[..k][..k - 1] == ops[..k - 1];
      assert !Changes(flat, ops, k - 1, id);
    }
  }

  /** A compare-and-swap with the version read earlier takes effect exactly when nothing has updated
      the row in between. */
  lemma SwapIffUntouched(flat: map<nat, Notification>, ops: seq<Op>, j: nat, k: nat, id: nat)
    requires j <= k < |ops| && id in ApplyAll(flat, ops[..j])
    requires ops[k].CompareAndSwap? && ops[k].id == id
    requires ops[k].version == ApplyAll(flat, ops[..j])[id].version
    ensures Effective(ApplyAll(flat, ops[..k]), ops[k]) <==> forall m | j <= m < k :: !Changes(flat, ops, m, id)
  {
    hide ApplyAll, Changes;
    VersionGrows(flat, ops, j, k, id);
    if m :| j <= m < k && Changes(flat, ops, m, id) {
      VersionGrows(flat, ops, j, m, id);
      VersionGrows(flat, ops, m, k, id);
    } else {
      Untouched(flat, ops, j, k, id);
    }
  }
}
