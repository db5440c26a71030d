/**
 The table-sharded loop job (internal/pkg/job/sharding_loop_job.go): any number of processes walk
 the list of tables; each takes a permit of its own, then tries a lease lock shared by all, and on
 success spawns a table loop that alternates bizFunc and lease refresh until a refresh fails or its
 context ends, then unlocks and gives the permit back.

 The lock service is taken to grant a lock that is free or expired, to extend a lease only for its
 current owner, and to free a lock only for its owner. Every call may also fail without effect.
 Time is in milliseconds.
 */
module ShardingLoopJob {
  import opened Bits
  import opened Resource

  /** NewShardingLoopJob passes one minute as the lease; bizLoop gives bizFunc one minute. */
  const LEASE: nat := 60_000
  const BIZ_TIMEOUT: nat := 60_000

  datatype Phase = InBiz | Refreshing | Unlocking | Resting | Gone

  /** One goroutine of tableLoop. `since` is when the lock service last granted or extended its lease. */
  datatype Loop = Loop(proc: nat, table: nat, phase: Phase, since: int)

  datatype Lock = Free | Held(owner: nat, until: int)

  /** One process: its permits, the table Run has come to, whether Run is between acquiring a permit
      and spawning or releasing, and the largest limit it was ever given. */
  datatype Proc = Proc(permits: Permits, at: nat, holding: bool, highest: int)

  datatype World = World(now: int, procs: seq<Proc>, loops: seq<Loop>, locks: seq<Lock>)

  datatype Event =
    | Tick(d: nat)
    | UpdateMaxCnt(p: nat, max: int)
    | AcquireExceeded(p: nat)
    | Acquire(p: nat)
    | LockRefused(p: nat)
    | LockGranted(p: nat)
    | BizReturned(l: nat, cancelled: bool)
    | Refreshed(l: nat)
    | RefreshFailed(l: nat)
    | Unlock(l: nat, reached: bool)
    | Release(l: nat)

  function Max(a: int, b: int): int {
    if a < b then b else a
  }

  function Init(limits: seq<int>, tables: nat): World {
    World(0, seq(|limits|, i requires 0 <= i < |limits| => Proc(Permits(limits[i], 0), 0, false, Max(0, limits[i]))),
          [], seq(tables, _ => Free))
  }

  function Next(w: World, at: nat): nat {
    if at + 1 < |w.locks| then at + 1 else 0
  }

  predicate Expired(w: World, lock: Lock) {
    lock.Free? || lock.until <= w.now
  }

  predicate LoopAt(w: World, l: nat, phase: Phase) {
    l < |w.loops| && w.loops[l].phase == phase && w.loops[l].table < |w.locks| && w.loops[l].proc < |w.procs|
  }

  predicate ProcAt(w: World, p: nat, holding: bool) {
    p < |w.procs| && w.procs[p].holding == holding && w.procs[p].at < |w.locks|
  }

  predicate Enabled(w: World, e: Event) {
    match e
    case Tick(_) => true
    case UpdateMaxCnt(p, _) => p < |w.procs|
    case AcquireExceeded(p) => ProcAt(w, p, false) && !w.procs[p].permits.Available()
    case Acquire(p) => ProcAt(w, p, false) && w.procs[p].permits.Available()
    case LockRefused(p) => ProcAt(w, p, true)
    case LockGranted(p) => ProcAt(w, p, true) && Expired(w, w.locks[w.procs[p].at])
    case BizReturned(l, _) => LoopAt(w, l, InBiz)
    case Refreshed(l) => LoopAt(w, l, Refreshing) && Owns(w, l)
    case RefreshFailed(l) => LoopAt(w, l, Refreshing)
    case Unlock(l, _) => LoopAt(w, l, Unlocking)
    case Release(l) => LoopAt(w, l, Resting)
  }

  /** l is the owner of an unexpired lease on its table. */
  predicate Owns(w: World, l: nat)
    requires l < |w.loops| && w.loops[l].table < |w.locks|
  {
    var lock := w.locks[w.loops[l].table];
    !Expired(w, lock) && lock.owner == l
  }

  function SetPhase(w: World, l: nat, phase: Phase): World
    requires l < |w.loops|
  {
    w.(loops := w.loops[l := w.loops[l].(phase := phase)])
  }

  function Step(w: World, e: Event): World
    requires Enabled(w, e)
  {
    match e
    case Tick(d) => w.(now := w.now + d)
    case UpdateMaxCnt(p, max) =>
      var proc := w.procs[p];
      w.(procs := w.procs[p := proc.(permits := proc.permits.(max := max), highest := Max(proc.highest, max))])
    case AcquireExceeded(p) => w.(procs := w.procs[p := w.procs[p].(at := Next(w, w.procs[p].at))])
    case Acquire(p) =>
      w.(procs := w.procs[p := w.procs[p].(permits := w.procs[p].permits.Take(), holding := true)])
    case LockRefused(p) =>
      var proc := w.procs[p];
      w.(procs := w.procs[p := proc.(permits := proc.permits.Give(), holding := false, at := Next(w, proc.at))])
    case LockGranted(p) =>
      var proc := w.procs[p];
      World(w.now,
            w.procs[p := proc.(holding := false, at := Next(w, proc.at))],
            w.loops + [Loop(p, proc.at, InBiz, w.now)],
            w.locks[proc.at := Held(|w.loops|, w.now + LEASE)])
    case BizReturned(l, cancelled) => SetPhase(w, l, if cancelled then Unlocking else Refreshing)
    case Refreshed(l) =>
      var loop := w.loops[l];
      w.(loops := w.loops[l := loop.(phase := InBiz, since := w.now)],
         locks := w.locks[loop.table := Held(l, w.now + LEASE)])
    case RefreshFailed(l) => SetPhase(w, l, Unlocking)
    case Unlock(l, reached) =>
      var t := w.loops[l].table;
      SetPhase(w, l, Resting).(locks := if reached && Owns(w, l) then w.locks[t := Free] else w.locks)
    case Release(l) =>
      var p := w.loops[l].proc;
      SetPhase(w, l, Gone).(procs := w.procs[p := w.procs[p].(permits := w.procs[p].permits.Give())])
  }

  ghost predicate Reaches(w: World, events: seq<Event>, r: World)
    decreases |events|
  {
    if events == [] then r == w
    else Enabled(w, events[0]) && Reaches(Step(w, events[0]), events[1..], r)
  }

  /** Every index a state carries is in range. */
  ghost predicate WellFormed(w: World) {
    && w.locks != []
    && (forall l | 0 <= l < |w.loops| :: w.loops[l].table < |w.locks| && w.loops[l].proc < |w.procs|)
    && (forall p | 0 <= p < |w.procs| :: w.procs[p].at < |w.locks|)
  }

  lemma WellFormedStep(w: World, e: Event)
    requires Enabled(w, e) && WellFormed(w)
    ensures WellFormed(Step(w, e))
  {
  }

  /** What a table loop can always do next, whatever the lock service answers. */
  ghost predicate LoopGoesOn(w: World, l: nat)
    requires l < |w.loops|
  {
    match w.loops[l].phase
    case InBiz => Enabled(w, BizReturned(l, true)) && Enabled(w, BizReturned(l, false))
    case Refreshing => Enabled(w, RefreshFailed(l))
    case Unlocking => Enabled(w, Unlock(l, true)) && Enabled(w, Unlock(l, false))
    case Resting => Enabled(w, Release(l))
    case Gone => true
  }

  /** What Run can always do next, and that a new limit can come at any time. */
  ghost predicate RunGoesOn(w: World, p: nat)
    requires p < |w.procs|
  {
    && Enabled(w, UpdateMaxCnt(p, 0))
    && if w.procs[p].holding then Enabled(w, LockRefused(p))
       else Enabled(w, Acquire(p)) || Enabled(w, AcquireExceeded(p))
  }

  /** With at least one table, the range tests in Enabled hold back no event of any reachable state:
      a process is always at some table, and a loop in a phase can always take that phase's step. */
  lemma {:induction false} RangesHold(w: World, events: seq<Event>, r: World)
    requires WellFormed(w) && Reaches(w, events, r)
    ensures WellFormed(r)
    ensures forall l: nat | l < |r.loops| :: LoopAt(r, l, r.loops[l].phase)
    ensures forall p: nat | p < |r.procs| :: ProcAt(r, p, r.procs[p].holding)
    ensures forall l: nat | l < |r.loops| :: LoopGoesOn(r, l)
    ensures forall p: nat | p < |r.procs| :: RunGoesOn(r, p)
    decreases |events|
  {
    if events != [] {
      WellFormedStep(w, events[0]);
      RangesHold(Step(w, events[0]), events[1..], r);
    }
  }

  // ---------------------------------------------------------------- every table in turn

  /** Run leaves the table process p has come to: without a permit, without the lock, or with both. */
  predicate Leaves(e: Event, p: nat) {
    match e
    case AcquireExceeded(q) => q == p
    case LockRefused(q) => q == p
    case LockGranted(q) => q == p
    case _ => false
  }

  function Visits(events: seq<Event>, p: nat): nat {
    if events == [] then 0 else (if Leaves(events[0], p) then 1 else 0) + Visits(events[1..], p)
  }

  lemma OneFurther(at: nat, v: nat, n: nat)
    requires at < n
    ensures (at + (1 + v)) % n == ((if at + 1 < n then at + 1 else 0) + v) % n
  {
    if at + 1 == n {
      assert n + v - v == n;
      SameMod(n + v, v, n);
      DivideUnique(n, n, 1, 0);
    } else {
      assert at + (1 + v) == (at + 1) + v;
    }
  }

  /** However the processes interleave, Run of each goes through the tables in order and round again:
      after v of them it has come v further. */
  lemma {:induction false} RoundRobin(w: World, events: seq<Event>, r: World, p: nat)
    requires Reaches(w, events, r) && p < |w.procs| && w.procs[p].at < |w.locks|
    ensures |r.locks| == |w.locks| && p < |r.procs|
    ensures r.procs[p].at == (w.procs[p].at + Visits(events, p)) % |w.locks|
    decreases |events|
  {
    if events == [] {
      DivideUnique(w.procs[p].at, |w.locks|, 0, w.procs[p].at);
    } else {
      var s := Step(w, events[0]);
      VisitStep(w, events[0], p);
      OneFurther(w.procs[p].at, Visits(events[1..], p), |w.locks|);
      hide Step, Enabled, Leaves;
      RoundRobin(s, events[1..], r, p);
    }
  }

  lemma VisitStep(w: World, e: Event, p: nat)
    requires Enabled(w, e) && p < |w.procs| && w.procs[p].at < |w.locks|
    ensures var s, at := Step(w, e), w.procs[p].at;
            && |s.locks| == |w.locks| && p < |s.procs|
            && s.procs[p].at == if !Leaves(e, p) then at else if at + 1 < |w.locks| then at + 1 else 0
  {
  }

  /** So the loop a process spawns after v tables works table v modulo their number. */
  lemma SpawnsInTurn(limits: seq<int>, tables: nat, events: seq<Event>, w: World, p: nat)
    requires Reaches(Init(limits, tables), events, w) && Enabled(w, LockGranted(p))
    ensures 0 < tables
    ensures var r := Step(w, LockGranted(p));
            && |r.loops| == |w.loops| + 1
            && r.loops[|w.loops|].proc == p && r.loops[|w.loops|].phase == InBiz
            && r.loops[|w.loops|].table == Visits(events, p) % tables
  {
    var init := Init(limits, tables);
    Sizes(init, events, w);
    hide Reaches, Visits;
    RoundRobin(init, events, w, p);
  }

  lemma {:induction false} Sizes(w: World, events: seq<Event>, r: World)
    requires Reaches(w, events, r)
    ensures |r.locks| == |w.locks| && |r.procs| == |w.procs|
    decreases |events|
  {
    if events != [] {
      Sizes(Step(w, events[0]), events[1..], r);
    }
  }

  // ---------------------------------------------------------------- lease safety

  predicate Working(loop: Loop) {
    loop.phase == InBiz || loop.phase == Refreshing
  }

  predicate InLease(w: World, loop: Loop) {
    w.now < loop.since + LEASE
  }

  /** A working loop still inside its lease is the owner the lock service remembers. */
  ghost predicate Leased(w: World) {
    forall l | 0 <= l < |w.loops| && Working(w.loops[l]) && InLease(w, w.loops[l]) ::
      w.loops[l].table < |w.locks| && w.locks[w.loops[l].table] == Held(l, w.loops[l].since + LEASE)
  }

  lemma LeasedStep(w: World, e: Event)
    requires Enabled(w, e) && Leased(w)
    ensures Leased(Step(w, e))
  {
  }

  lemma {:induction false} LeasedRun(w: World, events: seq<Event>, r: World)
    requires Leased(w) && Reaches(w, events, r)
    ensures Leased(r)
    decreases |events|
  {
    hide Leased, Enabled, Step;
    if events != [] {
      LeasedStep(w, events[0]);
      LeasedRun(Step(w, events[0]), events[1..], r);
    }
  }

  /** Two loops inside bizFunc for one table. */
  ghost predicate Clash(w: World, l: nat, m: nat) {
    && l < m < |w.loops| && w.loops[l].table == w.loops[m].table
    && w.loops[l].phase == InBiz && w.loops[m].phase == InBiz
  }

  ghost predicate Exclusive(w: World) {
    forall l: nat, m: nat :: !Clash(w, l, m)
  }

  /** With no assumption on timing: of two loops inside bizFunc for one table, in the same process or
      not, one has outlived its lease. */
  lemma ClashNeedsOverrun(limits: seq<int>, tables: nat, events: seq<Event>, w: World, l: nat, m: nat)
    requires Reaches(Init(limits, tables), events, w) && Clash(w, l, m)
    ensures !InLease(w, w.loops[l]) || !InLease(w, w.loops[m])
  {
    LeasedRun(Init(limits, tables), events, w);
  }

  /** No working loop has gone longer than `bound` since its lease was granted or extended. */
  ghost predicate Prompt(w: World, bound: nat) {
    forall l | 0 <= l < |w.loops| && Working(w.loops[l]) :: w.now - w.loops[l].since <= bound
  }

  /** Runs all of whose states are prompt: each bizFunc with its refresh takes at most `bound`. */
  ghost predicate PromptRun(w: World, events: seq<Event>, r: World, bound: nat)
    decreases |events|
  {
    && Prompt(w, bound)
    && if events == [] then r == w
       else Enabled(w, events[0]) && PromptRun(Step(w, events[0]), events[1..], r, bound)
  }

  ghost predicate AlwaysExclusive(bound: nat) {
    forall limits: seq<int>, tables: nat, events: seq<Event>, w: World ::
      PromptRun(Init(limits, tables), events, w, bound) ==> Exclusive(w)
  }

  lemma {:induction false} PromptIsRun(w: World, events: seq<Event>, r: World, bound: nat)
    requires PromptRun(w, events, r, bound)
    ensures Reaches(w, events, r) && Prompt(r, bound)
    decreases |events|
  {
    hide Enabled, Step, Prompt;
    if events != [] {
      PromptIsRun(Step(w, events[0]), events[1..], r, bound);
    }
  }

  /** Bringing a run one step back. */
  lemma Before(w: World, e: Event, events: seq<Event>, r: World, bound: nat)
    requires Prompt(w, bound) && Enabled(w, e) && PromptRun(Step(w, e), events, r, bound)
    ensures PromptRun(w, [e] + events, r, bound)
  {
    hide Enabled, Step, Prompt;
    assert ([e] + events)[1..] == events;
  }

  /** Process 0 works for exactly its lease; the moment it expires process 1 is let in. */
  ghost function LongWork(i: nat): World {
    var p0, p0', p1, p1' := Proc(Permits(1, 0), 0, false, 1), Proc(Permits(1, 1), 0, true, 1),
                            Proc(Permits(1, 0), 0, false, 1), Proc(Permits(1, 1), 0, true, 1);
    var granted, first := Proc(Permits(1, 1), 0, false, 1), Loop(0, 0, InBiz, 0);
    if i == 0 then World(0, [p0, p1], [], [Free])
    else if i == 1 then World(0, [p0', p1], [], [Free])
    else if i == 2 then World(0, [granted, p1], [first], [Held(0, LEASE)])
    else if i == 3 then World(0, [granted, p1'], [first], [Held(0, LEASE)])
    else if i == 4 then World(LEASE, [granted, p1'], [first], [Held(0, LEASE)])
    else World(LEASE, [granted, granted], [first, Loop(1, 0, InBiz, LEASE)], [Held(1, LEASE + LEASE)])
  }

  ghost function LongWorkEvent(i: nat): Event {
    if i == 0 then Acquire(0)
    else if i == 1 then LockGranted(0)
    else if i == 2 then Acquire(1)
    else if i == 3 then Tick(LEASE)
    else LockGranted(1)
  }

  lemma LongWorkStep(i: nat, bound: nat)
    requires i < 5 && LEASE <= bound
    ensures Prompt(LongWork(i), bound)
    ensures Enabled(LongWork(i), LongWorkEvent(i))
    ensures Step(LongWork(i), LongWorkEvent(i)) == LongWork(i + 1)
  {
  }

  lemma {:induction false} LongWorkRun(i: nat, bound: nat) returns (events: seq<Event>)
    requires i <= 5 && LEASE <= bound
    ensures PromptRun(LongWork(i), events, LongWork(5), bound)
    decreases 5 - i
  {
    if i == 5 {
      events := [];
    } else {
      var rest := LongWorkRun(i + 1, bound);
      events := [LongWorkEvent(i)] + rest;
      LongWorkStep(i, bound);
      hide *;
      Before(LongWork(i), LongWorkEvent(i), rest, LongWork(5), bound);
    }
  }

  lemma LongWorkStart()
    ensures Init([1, 1], 1) == LongWork(0) && Clash(LongWork(5), 0, 1)
  {
    assert Init([1, 1], 1).procs == LongWork(0).procs;
  }

  /** Exactly when the job is safe: when each bizFunc and its refresh finish inside the lease. */
  lemma SafetyIffInsideLease(bound: nat)
    ensures AlwaysExclusive(bound) <==> bound < LEASE
  {
    if bound < LEASE {
      forall limits: seq<int>, tables: nat, events: seq<Event>, w: World, l: nat, m: nat
        | PromptRun(Init(limits, tables), events, w, bound) && Clash(w, l, m)
        ensures false
      {
        PromptIsRun(Init(limits, tables), events, w, bound);
        ClashNeedsOverrun(limits, tables, events, w, l, m);
      }
    } else {
      var events := LongWorkRun(0, bound);
      LongWorkStart();
      hide PromptRun, LongWork, Init, Clash;
      assert PromptRun(Init([1, 1], 1), events, LongWork(5), bound);
      assert !Exclusive(LongWork(5));
    }
  }

  /** The configured timeout, one minute, does not give that margin; a millisecond less would. */
  lemma ConfiguredTimeoutUnsafe()
    ensures !AlwaysExclusive(BIZ_TIMEOUT) && BIZ_TIMEOUT == 60_000 && AlwaysExclusive(59_999)
  {
    SafetyIffInsideLease(BIZ_TIMEOUT);
    SafetyIffInsideLease(59_999);
  }

  /** Past bizLoop for good. */
  predicate Leaving(loop: Loop) {
    !Working(loop)
  }

  lemma {:induction false} LeavingStays(w: World, events: seq<Event>, r: World, l: nat)
    requires Reaches(w, events, r) && l < |w.loops| && Leaving(w.loops[l])
    ensures l < |r.loops| && Leaving(r.loops[l])
    decreases |events|
  {
    if events != [] {
      LeavingStays(Step(w, events[0]), events[1..], r, l);
    }
  }

  /** A loop whose refresh failed never runs bizFunc again, whatever happens afterwards. */
  lemma FailedRefreshIsFinal(w: World, events: seq<Event>, r: World, l: nat)
    requires Enabled(w, RefreshFailed(l)) && Reaches(Step(w, RefreshFailed(l)), events, r)
    ensures l < |r.loops| && !Working(r.loops[l])
  {
    LeavingStays(Step(w, RefreshFailed(l)), events, r, l);
  }

  /** Nor does one whose own context had ended when bizFunc returned. */
  lemma CancelledIsFinal(w: World, events: seq<Event>, r: World, l: nat)
    requires Enabled(w, BizReturned(l, true)) && Reaches(Step(w, BizReturned(l, true)), events, r)
    ensures l < |r.loops| && !Working(r.loops[l])
  {
    LeavingStays(Step(w, BizReturned(l, true)), events, r, l);
  }

  /** A lock is held until a lease after its owner's last grant or extension. */
  ghost predicate Dated(w: World) {
    forall t | 0 <= t < |w.locks| && w.locks[t].Held? ::
      w.locks[t].owner < |w.loops| && w.locks[t].until == w.loops[w.locks[t].owner].since + LEASE
  }

  /** A lock names a loop of its own table. */
  ghost predicate OwnsOne(w: World) {
    forall t | 0 <= t < |w.locks| && w.locks[t].Held? ::
      w.locks[t].owner < |w.loops| && w.loops[w.locks[t].owner].table == t
  }

  lemma DatedStep(w: World, e: Event)
    requires Enabled(w, e) && WellFormed(w) && Dated(w) && OwnsOne(w)
    ensures Dated(Step(w, e)) && OwnsOne(Step(w, e))
  {
  }

  lemma {:induction false} DatedRun(w: World, events: seq<Event>, r: World)
    requires WellFormed(w) && Dated(w) && OwnsOne(w) && Reaches(w, events, r)
    ensures Dated(r) && OwnsOne(r)
    decreases |events|
  {
    hide WellFormed, Dated, OwnsOne, Enabled, Step;
    if events != [] {
      WellFormedStep(w, events[0]);
      DatedStep(w, events[0]);
      DatedRun(Step(w, events[0]), events[1..], r);
    }
  }

  /** A loop that comes to its refresh after its lease has run out can only fail it. */
  lemma OverdueRefreshFails(limits: seq<int>, tables: nat, events: seq<Event>, w: World, l: nat)
    requires 0 < tables && Reaches(Init(limits, tables), events, w)
    requires l < |w.loops| && !InLease(w, w.loops[l])
    ensures !Enabled(w, Refreshed(l))
  {
    hide Reaches, Step;
    DatedRun(Init(limits, tables), events, w);
  }

  /** An owner whose unlock reaches the lock service lets in any process waiting at the table, at once;
      one who no longer owns the lock leaves it as it is. */
  lemma UnlockLetsIn(w: World, l: nat, q: nat)
    requires Enabled(w, Unlock(l, true)) && ProcAt(w, q, true) && w.procs[q].at == w.loops[l].table
    ensures var r := Step(w, Unlock(l, true));
            if Owns(w, l) then Enabled(r, LockGranted(q)) else r.locks == w.locks
  {
  }

  /** A loop that is through winds down: it unlocks, rests and gives its permit back, and its table is free
      again if the unlock reached the lock service while the loop still owned the lock. */
  lemma WindsDown(w: World, e: Event, l: nat, reached: bool)
    requires Enabled(w, e) && (e == RefreshFailed(l) || e == BizReturned(l, true))
    ensures var a := Step(w, e);
            && Enabled(a, Unlock(l, reached))
            && var b := Step(a, Unlock(l, reached));
               && Enabled(b, Release(l))
               && var c, p := Step(b, Release(l)), w.loops[l].proc;
                  && c.loops[l].phase == Gone && c.procs[p].permits.curr == w.procs[p].permits.curr - 1
                  && c.locks == if reached && Owns(w, l) then w.locks[w.loops[l].table := Free] else w.locks
  {
  }

  // ---------------------------------------------------------------- permits

  /** The loops of process p that still hold a permit. */
  function Live(loops: seq<Loop>, p: nat): nat {
    if loops == [] then 0
    else Live(loops[..|loops| - 1], p) + Holds(loops[|loops| - 1], p)
  }

  function Holds(loop: Loop, p: nat): nat {
    if loop.proc == p && loop.phase != Gone then 1 else 0
  }

  lemma {:induction false} LiveUpdate(loops: seq<Loop>, l: nat, loop: Loop, p: nat)
    requires l < |loops|
    ensures Live(loops[l := loop], p) == Live(loops, p) - Holds(loops[l], p) + Holds(loop, p)
  {
    var n := |loops| - 1;
    if l == n {
      assert loops[l := loop][..n] == loops[..n];
    } else {
      LiveUpdate(loops[..n], l, loop, p);
      assert loops[l := loop][..n] == loops[..n][l := loop];
    }
  }

  ghost predicate Accounted(w: World, p: nat) {
    p < |w.procs| ==>
      var proc := w.procs[p];
      && proc.permits.curr == Live(w.loops, p) + (if proc.holding then 1 else 0)
      && proc.permits.curr <= proc.highest && proc.permits.max <= proc.highest
  }

  lemma AccountedStep(w: World, e: Event, p: nat)
    requires Enabled(w, e) && Accounted(w, p)
    ensures Accounted(Step(w, e), p)
  {
    hide Live;
    var r := Step(w, e);
    match e {
      case Tick(_) =>
      case UpdateMaxCnt(_, _) =>
      case AcquireExceeded(_) =>
      case Acquire(_) =>
      case LockRefused(_) =>
      case LockGranted(q) =>
        LivePush(w.loops, r.loops[|w.loops|], p);
      case BizReturned(l, _) => LiveUpdate(w.loops, l, r.loops[l], p);
      case Refreshed(l) => LiveUpdate(w.loops, l, r.loops[l], p);
      case RefreshFailed(l) => LiveUpdate(w.loops, l, r.loops[l], p);
      case Unlock(l, _) => LiveUpdate(w.loops, l, r.loops[l], p);
      case Release(l) => LiveUpdate(w.loops, l, r.loops[l], p);
    }
  }

  lemma LivePush(loops: seq<Loop>, loop: Loop, p: nat)
    ensures Live(loops + [loop], p) == Live(loops, p) + Holds(loop, p)
  {
    assert (loops + [loop])[..|loops|] == loops;
  }

  lemma {:induction false} AccountedRun(w: World, events: seq<Event>, r: World, p: nat)
    requires Accounted(w, p) && Reaches(w, events, r)
    ensures Accounted(r, p)
    decreases |events|
  {
    hide Accounted, Enabled, Step;
    if events != [] {
      AccountedStep(w, events[0], p);
      AccountedRun(Step(w, events[0]), events[1..], r, p);
    }
  }

  /** The largest limit process p was given, or the one it had. */
  function HighestLimit(events: seq<Event>, p: nat, limit: int): int {
    if events == [] then limit
    else
      var raised := events[0].UpdateMaxCnt? && events[0].p == p && limit < events[0].max;
      HighestLimit(events[1..], p, if raised then events[0].max else limit)
  }

  lemma {:induction false} HighestIsLargest(w: World, events: seq<Event>, r: World, p: nat)
    requires Reaches(w, events, r) && p < |w.procs|
    ensures p < |r.procs| && r.procs[p].highest == HighestLimit(events, p, w.procs[p].highest)
    decreases |events|
  {
    if events != [] {
      HighestIsLargest(Step(w, events[0]), events[1..], r, p);
    }
  }

  /** In every reachable state a process holds one permit for each of its live table loops, plus one
      while Run is between acquiring and spawning or releasing; it never holds a negative number, nor
      more than the largest limit it was ever given. */
  lemma {:induction false} PermitConservation(limits: seq<int>, tables: nat, events: seq<Event>, w: World, p: nat)
    requires Reaches(Init(limits, tables), events, w) && p < |w.procs|
    ensures 0 <= w.procs[p].permits.curr <= w.procs[p].highest
    ensures w.procs[p].permits.curr == Live(w.loops, p) + (if w.procs[p].holding then 1 else 0)
    ensures p < |limits|
    ensures w.procs[p].permits.curr <= HighestLimit(events, p, if 0 < limits[p] then limits[p] else 0)
  {
    Sizes(Init(limits, tables), events, w);
    HighestIsLargest(Init(limits, tables), events, w, p);
    AccountedRun(Init(limits, tables), events, w, p);
  }

  /** The limit process p was last given, or the one it had. */
  function LastLimit(events: seq<Event>, p: nat, limit: int): int {
    if events == [] then limit
    else LastLimit(events[1..], p, if events[0].UpdateMaxCnt? && events[0].p == p then events[0].max else limit)
  }

  /** A new limit counts at once: between tables a process can take a permit exactly when it holds fewer
      than the limit last given. */
  lemma {:induction false} LimitIsLast(w: World, events: seq<Event>, r: World, p: nat)
    requires Reaches(w, events, r) && p < |w.procs|
    ensures p < |r.procs| && r.procs[p].permits.max == LastLimit(events, p, w.procs[p].permits.max)
    ensures ProcAt(r, p, false) ==>
              (Enabled(r, Acquire(p)) <==> r.procs[p].permits.curr < LastLimit(events, p, w.procs[p].permits.max))
              && (Enabled(r, AcquireExceeded(p)) <==> !Enabled(r, Acquire(p)))
    decreases |events|
  {
    if events != [] {
      LimitIsLast(Step(w, events[0]), events[1..], r, p);
    }
  }

  /** While its limit stands, a process at or above it never takes a further permit, however far the
      limit was lowered beneath what it holds. */
  lemma {:induction false} NoGrowthAboveLimit(w: World, events: seq<Event>, r: World, p: nat)
    requires Reaches(w, events, r) && p < |w.procs|
    requires forall e | e in events :: !(e.UpdateMaxCnt? && e.p == p)
    ensures p < |r.procs| && r.procs[p].permits.max == w.procs[p].permits.max
    ensures r.procs[p].permits.curr <= Max(w.procs[p].permits.curr, w.procs[p].permits.max)
    decreases |events|
  {
    if events != [] {
      assert events[0] in events;
      var s := Step(w, events[0]);
      assert s.procs[p].permits.curr <= Max(w.procs[p].permits.curr, w.procs[p].permits.max);
      NoGrowthAboveLimit(s, events[1..], r, p);
    }
  }
}
