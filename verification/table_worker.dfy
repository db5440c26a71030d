/**
 The table job with the work it really does: its bizFunc is the scheduler's send loop
 (internal/service/schedule/sharding/sharding_scheduler.go:45-72), which never looks at its context and
 ends only when its process's error window triggers. A context that is over is taken to make every
 send fail.
 The state is that of the job, one error window for each process, and one send loop for each call.
 */
module TableWorker {
  import opened Sums
  import opened Windows
  import opened BitRing
  import opened Scheduler
  import Job = ShardingLoopJob

  /** added: an outcome is recorded and the threshold not yet tested. late: sends of this call since its
      context ended. */
  datatype Work = Work(added: bool, late: nat)

  datatype State = State(job: Job.World, histories: seq<seq<bool>>, calls: seq<Work>)

  datatype Act =
    | Other(e: Job.Event)
    | Send(l: nat, failed: bool)
    | Check(l: nat, cancelled: bool)

  function Start(limits: seq<int>, tables: nat): State {
    State(Job.Init(limits, tables), seq(|limits|, _ => []), [])
  }

  /** bizTimeout after the call began, which is when its lease was last granted or extended. */
  predicate ContextOver(w: Job.World, l: nat)
    requires l < |w.loops|
  {
    w.loops[l].since + Job.BIZ_TIMEOUT <= w.now
  }

  predicate Sending(w: State, l: nat, added: bool) {
    && Job.LoopAt(w.job, l, Job.InBiz) && l < |w.calls| && w.calls[l].added == added
    && w.job.loops[l].proc < |w.histories|
  }

  predicate Can(w: State, a: Act) {
    match a
    case Other(e) => !e.BizReturned? && Job.Enabled(w.job, e)
    case Send(l, failed) => Sending(w, l, false) && (ContextOver(w.job, l) ==> failed)
    case Check(l, _) => Sending(w, l, true)
  }

  /** A call begins when a lease is granted and again when it has been extended. */
  function Begun(calls: seq<Work>, e: Job.Event): seq<Work> {
    if e.LockGranted? then calls + [Work(false, 0)]
    else if e.Refreshed? && e.l < |calls| then calls[e.l := Work(false, 0)]
    else calls
  }

  ghost function Do(ring: Ring, w: State, a: Act): State
    requires Can(w, a)
  {
    match a
    case Other(e) => State(Job.Step(w.job, e), w.histories, Begun(w.calls, e))
    case Send(l, failed) =>
      var p, late := w.job.loops[l].proc, w.calls[l].late;
      w.(histories := w.histories[p := w.histories[p] + [failed]],
         calls := w.calls[l := Work(true, if ContextOver(w.job, l) then late + 1 else late)])
    case Check(l, cancelled) =>
      var over := Triggers(ring, w.histories[w.job.loops[l].proc]);
      State(if over then Job.Step(w.job, Job.BizReturned(l, cancelled)) else w.job, w.histories,
            w.calls[l := w.calls[l].(added := false)])
  }

  ghost predicate Triggers(ring: Ring, history: seq<bool>) {
    Triggering(history, ring.size, ring.consecutive, ring.rate)
  }

  ghost predicate Leads(ring: Ring, w: State, acts: seq<Act>, r: State)
    decreases |acts|
  {
    if acts == [] then r == w
    else Can(w, acts[0]) && Leads(ring, Do(ring, w, acts[0]), acts[1..], r)
  }

  predicate Sane(ring: Ring) {
    0 < ring.consecutive <= ring.size
  }

  // ---------------------------------------------------------------- it is a run of the job

  lemma JobStep(ring: Ring, w: State, a: Act) returns (events: seq<Job.Event>)
    requires Can(w, a)
    ensures Job.Reaches(w.job, events, Do(ring, w, a).job)
  {
    hide Triggers, Job.Step;
    var r := Do(ring, w, a);
    if r.job == w.job {
      events := [];
    } else {
      var e := if a.Other? then a.e else Job.BizReturned(a.l, a.cancelled);
      assert Job.Enabled(w.job, e) && Job.Step(w.job, e) == r.job;
      events := [e];
      assert events[1..] == [];
    }
  }

  lemma {:induction false} JobAppend(w: Job.World, first: seq<Job.Event>, v: Job.World, rest: seq<Job.Event>,
                                     r: Job.World)
    requires Job.Reaches(w, first, v) && Job.Reaches(v, rest, r)
    ensures Job.Reaches(w, first + rest, r)
    decreases |first|
  {
    hide Job.Enabled, Job.Step;
    if first == [] {
      assert first + rest == rest;
    } else {
      JobAppend(Job.Step(w, first[0]), first[1..], v, rest, r);
      assert (first + rest)[1..] == first[1..] + rest;
    }
  }

  /** What was proved of every run of the job holds of this one. */
  lemma {:induction false} IsJobRun(ring: Ring, w: State, acts: seq<Act>, r: State) returns (events: seq<Job.Event>)
    requires Leads(ring, w, acts, r)
    ensures Job.Reaches(w.job, events, r.job)
    decreases |acts|
  {
    if acts == [] {
      events := [];
    } else {
      hide Do, Can, Job.Reaches;
      events := JobStep(ring, w, acts[0]);
      var rest := IsJobRun(ring, Do(ring, w, acts[0]), acts[1..], r);
      JobAppend(w.job, events, Do(ring, w, acts[0]).job, rest, r.job);
      events := events + rest;
    }
  }

  // ---------------------------------------------------------------- calls that nothing goes wrong in

  ghost predicate NoFailure(acts: seq<Act>) {
    forall a | a in acts :: !(a.Send? && a.failed)
  }

  /** Every table loop ever spawned is inside bizFunc, and no error is on record. */
  ghost predicate AllWorking(w: State) {
    && (forall l | 0 <= l < |w.job.loops| :: w.job.loops[l].phase == Job.InBiz)
    && (forall p | 0 <= p < |w.histories| :: forall i | 0 <= i < |w.histories[p]| :: !w.histories[p][i])
  }

  lemma {:induction false} NoneCounted(events: seq<bool>)
    requires forall i | 0 <= i < |events| :: !events[i]
    ensures Count(events) == 0
  {
    if events != [] {
      NoneCounted(events[..|events| - 1]);
    }
  }

  /** A window without an error triggers nothing, unless the rate threshold is negative. */
  lemma CleanWindow(ring: Ring, history: seq<bool>)
    requires Sane(ring) && 0.0 <= ring.rate
    requires forall i | 0 <= i < |history| && |history| - ring.size <= i :: !history[i]
    ensures !Triggers(ring, history)
  {
    var window := Window(history, ring.size);
    NoneCounted(window);
    if window != [] {
      NoShare(|window| as real);
    }
  }

  lemma NoShare(n: real)
    requires 0.0 < n
    ensures 0.0 / n == 0.0
  {
  }

  lemma AllWorkingStep(ring: Ring, w: State, a: Act)
    requires Sane(ring) && 0.0 <= ring.rate && Can(w, a) && AllWorking(w) && !(a.Send? && a.failed)
    ensures AllWorking(Do(ring, w, a))
  {
    hide Triggers;
    if a.Check? {
      CleanWindow(ring, w.histories[w.job.loops[a.l].proc]);
    }
  }

  /** The lock service remembers, of each table, the latest lease granted for it. */
  ghost predicate LatestLease(w: Job.World, t: nat)
    requires t < |w.locks|
  {
    match w.locks[t]
    case Free => forall l | 0 <= l < |w.loops| :: w.loops[l].table != t
    case Held(owner, until) =>
      && owner < |w.loops| && w.loops[owner].table == t && until == w.loops[owner].since + Job.LEASE
      && forall l | 0 <= l < |w.loops| && w.loops[l].table == t :: w.loops[l].since <= w.loops[owner].since
  }

  ghost predicate LatestLeases(w: Job.World) {
    && (forall l | 0 <= l < |w.loops| :: w.loops[l].since <= w.now && w.loops[l].table < |w.locks|)
    && (forall t | 0 <= t < |w.locks| :: LatestLease(w, t))
  }

  lemma LatestLeasesEvent(w: Job.World, e: Job.Event)
    requires Job.Enabled(w, e) && !e.BizReturned? && LatestLeases(w)
    requires forall l | 0 <= l < |w.loops| :: w.loops[l].phase == Job.InBiz
    ensures LatestLeases(Job.Step(w, e))
  {
    var r := Job.Step(w, e);
    forall t | 0 <= t < |r.locks|
      ensures LatestLease(r, t)
    {
      assert LatestLease(w, t);
    }
  }

  lemma LatestLeasesStep(ring: Ring, w: State, a: Act)
    requires Can(w, a) && AllWorking(w) && AllWorking(Do(ring, w, a)) && LatestLeases(w.job)
    ensures LatestLeases(Do(ring, w, a).job)
  {
    hide Triggers, LatestLeases;
    var r := Do(ring, w, a);
    if a.Other? {
      LatestLeasesEvent(w.job, a.e);
    } else {
      assert r.job.loops[a.l].phase == Job.InBiz;
      assert r.job == w.job;
    }
  }

  lemma {:induction false} LatestLeasesRun(ring: Ring, w: State, acts: seq<Act>, r: State)
    requires Sane(ring) && 0.0 <= ring.rate && AllWorking(w) && NoFailure(acts) && Leads(ring, w, acts, r)
    requires LatestLeases(w.job)
    ensures AllWorking(r) && LatestLeases(r.job)
    decreases |acts|
  {
    hide AllWorking, LatestLeases, Do, Can;
    if acts != [] {
      assert acts[0] in acts;
      AllWorkingStep(ring, w, acts[0]);
      LatestLeasesStep(ring, w, acts[0]);
      LatestLeasesRun(ring, Do(ring, w, acts[0]), acts[1..], r);
    }
  }

  lemma NoLeases(limits: seq<int>, tables: nat)
    ensures AllWorking(Start(limits, tables)) && LatestLeases(Start(limits, tables).job)
  {
  }

  /** The contexts of all calls for that table are over. */
  ghost predicate AllOver(w: Job.World, t: nat) {
    forall l | 0 <= l < |w.loops| && w.loops[l].table == t :: ContextOver(w, l)
  }

  lemma LockFollowsContexts(w: Job.World, t: nat)
    requires LatestLeases(w) && t < |w.locks|
    ensures Job.Expired(w, w.locks[t]) <==> AllOver(w, t)
  {
    assert LatestLease(w, t);
  }

  /** While no send fails no call returns, so no lease is ever extended, and the lock of a table can be
      taken exactly when the contexts of all calls made for it are over. */
  lemma HealthyCallsOutliveLeases(ring: Ring, limits: seq<int>, tables: nat, acts: seq<Act>, w: State, l: nat)
    requires Sane(ring) && 0.0 <= ring.rate && NoFailure(acts) && Leads(ring, Start(limits, tables), acts, w)
    requires l < |w.job.loops|
    ensures w.job.loops[l].phase == Job.InBiz && w.job.loops[l].table < |w.job.locks|
    ensures Job.Expired(w.job, w.job.locks[w.job.loops[l].table]) <==> AllOver(w.job, w.job.loops[l].table)
  {
    hide Leads, Start, Sane, NoFailure, Job.Expired, AllOver;
    NoLeases(limits, tables);
    LatestLeasesRun(ring, Start(limits, tables), acts, w);
    LockFollowsContexts(w.job, w.job.loops[l].table);
  }

  /** So in no run without a failed send is a table handed on cleanly: any process waiting at the table
      of any loop is let in once a lease has passed, and that loop is still at work. */
  lemma HealthyClash(ring: Ring, limits: seq<int>, tables: nat, acts: seq<Act>, w: State, l: nat, p: nat)
    requires Sane(ring) && 0.0 <= ring.rate && NoFailure(acts) && Leads(ring, Start(limits, tables), acts, w)
    requires l < |w.job.loops| && Job.ProcAt(w.job, p, true) && w.job.procs[p].at == w.job.loops[l].table
    ensures Can(w, Other(Job.LockGranted(p))) <==> AllOver(w.job, w.job.loops[l].table)
    ensures var v := Do(ring, w, Other(Job.Tick(Job.LEASE)));
            && Can(v, Other(Job.LockGranted(p)))
            && Job.Clash(Do(ring, v, Other(Job.LockGranted(p))).job, l, |w.job.loops|)
  {
    hide Leads, Start, Sane, NoFailure, Triggers;
    NoLeases(limits, tables);
    LatestLeasesRun(ring, Start(limits, tables), acts, w);
    LockFollowsContexts(w.job, w.job.loops[l].table);
    assert LatestLease(w.job, w.job.loops[l].table);
  }

  // ---------------------------------------------------------------- ways through

  predicate RaisesLimit(a: Act) {
    a.Other? && a.e.UpdateMaxCnt?
  }

  /** The limits stand as they were given. */
  ghost predicate Steady(acts: seq<Act>) {
    forall a | a in acts :: !RaisesLimit(a)
  }

  lemma {:induction false} LeadsAppend(ring: Ring, w: State, first: seq<Act>, v: State, rest: seq<Act>, r: State)
    requires Leads(ring, w, first, v) && Leads(ring, v, rest, r)
    ensures Leads(ring, w, first + rest, r)
    decreases |first|
  {
    hide Can, Do;
    if first == [] {
      assert first + rest == rest;
    } else {
      LeadsAppend(ring, Do(ring, w, first[0]), first[1..], v, rest, r);
      assert (first + rest)[1..] == first[1..] + rest;
    }
  }

  /** Some run with the limits standing leads from w to r, if `healthy` one without a failed send. */
  ghost predicate CanGo(ring: Ring, healthy: bool, w: State, r: State) {
    exists acts: seq<Act> :: Steady(acts) && (healthy ==> NoFailure(acts)) && Leads(ring, w, acts, r)
  }

  lemma Way(ring: Ring, healthy: bool, w: State, r: State) returns (acts: seq<Act>)
    requires CanGo(ring, healthy, w, r)
    ensures Steady(acts) && (healthy ==> NoFailure(acts)) && Leads(ring, w, acts, r)
  {
    hide Steady, NoFailure, Leads;
    acts :| Steady(acts) && (healthy ==> NoFailure(acts)) && Leads(ring, w, acts, r);
  }

  lemma GoOn(ring: Ring, healthy: bool, w: State, v: State, r: State)
    requires CanGo(ring, healthy, w, v) && CanGo(ring, healthy, v, r)
    ensures CanGo(ring, healthy, w, r)
  {
    var first := Way(ring, healthy, w, v);
    var rest := Way(ring, healthy, v, r);
    hide Leads, RaisesLimit;
    LeadsAppend(ring, w, first, v, rest, r);
    assert Steady(first + rest);
  }

  /** The state after a, when a can be done. */
  ghost function Next(ring: Ring, w: State, a: Act): State {
    if Can(w, a) then Do(ring, w, a) else w
  }

  lemma GoFirst(ring: Ring, healthy: bool, w: State, a: Act, r: State)
    requires Can(w, a) && !(a.Other? && a.e.UpdateMaxCnt?) && (healthy && a.Send? ==> !a.failed)
    requires CanGo(ring, healthy, Next(ring, w, a), r)
    ensures CanGo(ring, healthy, w, r)
  {
    var v := Next(ring, w, a);
    hide Can, Do, Next;
    var rest := Way(ring, healthy, v, r);
    assert ([a] + rest)[1..] == rest;
    assert Steady([a] + rest);
    assert Leads(ring, w, [a] + rest, r) by {
      NextIs(ring, w, a);
    }
  }

  lemma NextIs(ring: Ring, w: State, a: Act)
    requires Can(w, a)
    ensures Next(ring, w, a) == Do(ring, w, a)
  {
  }

  lemma GoNowhere(ring: Ring, healthy: bool, w: State)
    ensures CanGo(ring, healthy, w, w)
  {
    assert Steady([]) && Leads(ring, w, [], w);
  }

  // ---------------------------------------------------------------- a busy minute

  /** Process 0 has made i sends, all with success, and process 1 waits for its table. */
  ghost predicate Busy(w: State, i: nat, now: int) {
    && w.job == Job.LongWork(3).(now := now) && w.calls == [Work(false, 0)]
    && |w.histories| == 2 && |w.histories[0]| == i && AllWorking(w)
  }

  lemma BusySend(ring: Ring, w: State, i: nat, now: int, d: nat)
    requires Sane(ring) && 0.0 <= ring.rate && Busy(w, i, now) && now < Job.LEASE
    ensures var v := Next(ring, w, Send(0, false));
            var u := Next(ring, v, Check(0, false));
            && Can(w, Send(0, false)) && Can(v, Check(0, false)) && Can(u, Other(Job.Tick(d)))
            && Busy(Next(ring, u, Other(Job.Tick(d))), i + 1, now + d)
  {
    hide Triggers;
    var v := Next(ring, w, Send(0, false));
    AllWorkingStep(ring, w, Send(0, false));
    AllWorkingStep(ring, v, Check(0, false));
    CleanWindow(ring, v.histories[0]);
  }

  lemma TimeLeft(k: nat, d: nat)
    requires 0 < d
    ensures Times(k + 1, d) == Times(k, d) + d && 0 < Times(k + 1, d) && Times(0, d) == 0
  {
    TimesProduct(k, d);
    assert 0 <= k * d;
  }

  lemma {:induction false} BusyRun(ring: Ring, w: State, i: nat, n: nat, d: nat) returns (r: State)
    requires Sane(ring) && 0.0 <= ring.rate && 0 < d && i <= n && Busy(w, i, Job.LEASE - Times(n - i, d))
    ensures CanGo(ring, true, w, r) && Busy(r, n, Job.LEASE)
    decreases n - i
  {
    hide *;
    if i == n {
      r := w;
      GoNowhere(ring, true, w);
      TimeLeft(0, d);
    } else {
      TimeLeft(n - i - 1, d);
      BusySend(ring, w, i, Job.LEASE - Times(n - i, d), d);
      var v := Next(ring, w, Send(0, false));
      var u := Next(ring, v, Check(0, false));
      r := BusyRun(ring, Next(ring, u, Other(Job.Tick(d))), i + 1, n, d);
      GoFirst(ring, true, u, Other(Job.Tick(d)), r);
      GoFirst(ring, true, v, Check(0, false), r);
      GoFirst(ring, true, w, Send(0, false), r);
    }
  }

  lemma BusyStart(ring: Ring)
    ensures var w := Start([1, 1], 1);
            var v := Next(ring, w, Other(Job.Acquire(0)));
            var u := Next(ring, v, Other(Job.LockGranted(0)));
            && Can(w, Other(Job.Acquire(0))) && Can(v, Other(Job.LockGranted(0))) && Can(u, Other(Job.Acquire(1)))
            && Busy(Next(ring, u, Other(Job.Acquire(1))), 0, 0)
  {
    var none: seq<seq<bool>> := [[], []];
    Job.LongWorkStart();
    Job.LongWorkStep(0, Job.LEASE);
    Job.LongWorkStep(1, Job.LEASE);
    Job.LongWorkStep(2, Job.LEASE);
    assert Start([1, 1], 1) == State(Job.LongWork(0), none, []);
  }

  lemma BusyEnd(ring: Ring, w: State, n: nat)
    requires Busy(w, n, Job.LEASE)
    ensures Can(w, Other(Job.LockGranted(1)))
    ensures var r := Next(ring, w, Other(Job.LockGranted(1)));
            Job.Clash(r.job, 0, 1) && |r.histories| == 2 && |r.histories[0]| == n
  {
    Job.LongWorkStep(4, Job.LEASE);
    Job.LongWorkStart();
    assert w.job == Job.LongWork(4);
  }

  /** Such a clash in full: process 0 makes n sends in its minute, one every d milliseconds, all with
      success and all tested, and then process 1 is let in. */
  lemma BusyClash(ring: Ring, n: nat, d: nat) returns (acts: seq<Act>, w: State)
    requires Sane(ring) && 0.0 <= ring.rate && n * d == Job.BIZ_TIMEOUT
    ensures NoFailure(acts) && Leads(ring, Start([1, 1], 1), acts, w)
    ensures |w.histories| == 2 && |w.histories[0]| == n && Job.Clash(w.job, 0, 1)
  {
    TimesProduct(n, d);
    assert 0 < d;
    hide *;
    var start := Start([1, 1], 1);
    var v := Next(ring, start, Other(Job.Acquire(0)));
    var u := Next(ring, v, Other(Job.LockGranted(0)));
    var ready := Next(ring, u, Other(Job.Acquire(1)));
    BusyStart(ring);
    var r := BusyRun(ring, ready, 0, n, d);
    w := Next(ring, r, Other(Job.LockGranted(1)));
    BusyEnd(ring, r, n);
    GoNowhere(ring, true, w);
    GoFirst(ring, true, r, Other(Job.LockGranted(1)), w);
    GoOn(ring, true, ready, r, w);
    GoFirst(ring, true, u, Other(Job.Acquire(1)), w);
    GoFirst(ring, true, v, Other(Job.LockGranted(0)), w);
    GoFirst(ring, true, start, Other(Job.Acquire(0)), w);
    acts := Way(ring, true, start, w);
  }

  // ---------------------------------------------------------------- after the context has ended

  /** A call of process p in progress. */
  predicate InCall(w: Job.World, l: nat, p: nat) {
    l < |w.loops| && w.loops[l].phase == Job.InBiz && w.loops[l].proc == p
  }

  /** No call in progress for process p has made a send past its context. */
  ghost predicate NoneLate(w: State, p: nat) {
    |w.calls| == |w.job.loops| && forall l: nat | InCall(w.job, l, p) :: w.calls[l].late == 0
  }

  ghost predicate MadeFor(w: State, a: Act, p: nat)
    requires Can(w, a)
  {
    a.Send? && w.job.loops[a.l].proc == p
  }

  /** Along the run no send for process p succeeds while one of its calls has sent past its context. */
  ghost predicate NoRelief(ring: Ring, w: State, p: nat, acts: seq<Act>)
    decreases |acts|
  {
    acts == [] ||
    (&& Can(w, acts[0]) && (MadeFor(w, acts[0], p) ==> acts[0].failed || NoneLate(w, p))
     && NoRelief(ring, Do(ring, w, acts[0]), p, acts[1..]))
  }

  ghost predicate LateBounded(ring: Ring, w: State, p: nat) {
    && |w.calls| == |w.job.loops|
    && (p < |w.histories| ==>
          forall l: nat | InCall(w.job, l, p) ::
            && LastAll(w.histories[p], w.calls[l].late)
            && w.calls[l].late <= ring.consecutive
            && (!w.calls[l].added ==> w.calls[l].late < ring.consecutive))
  }

  lemma LateBoundedSend(ring: Ring, w: State, l: nat, failed: bool)
    requires Sane(ring) && Can(w, Send(l, failed)) && LateBounded(ring, w, w.job.loops[l].proc)
    requires failed || NoneLate(w, w.job.loops[l].proc)
    ensures LateBounded(ring, Do(ring, w, Send(l, failed)), w.job.loops[l].proc)
  {
    hide LastAll, Triggers;
    var p := w.job.loops[l].proc;
    if failed {
      forall m | 0 <= m < |w.calls|
        ensures LastAll(w.histories[p], w.calls[m].late) ==>
                  && LastAll(w.histories[p] + [true], w.calls[m].late)
                  && LastAll(w.histories[p] + [true], w.calls[m].late + 1)
      {
        if LastAll(w.histories[p], w.calls[m].late) {
          LastAllPush(w.histories[p], w.calls[m].late);
        }
      }
    } else {
      NoTail(w.histories[p] + [false]);
    }
  }

  lemma LateBoundedStep(ring: Ring, w: State, a: Act, p: nat)
    requires Sane(ring) && Can(w, a) && LateBounded(ring, w, p)
    requires MadeFor(w, a, p) ==> a.failed || NoneLate(w, p)
    ensures LateBounded(ring, Do(ring, w, a), p)
  {
    hide LastAll, Triggers;
    match a {
      case Send(l, failed) =>
        if w.job.loops[l].proc == p {
          LateBoundedSend(ring, w, l, failed);
        }
      case Check(l, _) =>
        if w.job.loops[l].proc == p && w.calls[l].late == ring.consecutive {
          LongTailTriggers(ring, w.histories[w.job.loops[l].proc]);
          TriggersIs(ring, w.histories[w.job.loops[l].proc]);
        }
      case Other(e) => NoTails(w.histories);
    }
  }

  lemma TriggersIs(ring: Ring, history: seq<bool>)
    ensures Triggers(ring, history) == Triggering(history, ring.size, ring.consecutive, ring.rate)
  {
  }

  lemma NoTails(histories: seq<seq<bool>>)
    ensures forall p | 0 <= p < |histories| :: LastAll(histories[p], 0)
  {
  }

  lemma {:induction false} LateBoundedRun(ring: Ring, w: State, acts: seq<Act>, r: State, p: nat)
    requires Sane(ring) && LateBounded(ring, w, p) && NoRelief(ring, w, p, acts) && Leads(ring, w, acts, r)
    ensures LateBounded(ring, r, p)
    decreases |acts|
  {
    hide LateBounded, Do, Can, MadeFor, NoneLate;
    if acts != [] {
      LateBoundedStep(ring, w, acts[0], p);
      LateBoundedRun(ring, Do(ring, w, acts[0]), acts[1..], r, p);
    }
  }

  /** A call makes at most consecutiveThreshold sends after its context has ended, as long as no other
      loop of its process succeeds meanwhile; having made them it returns at its next test. */
  lemma ExpiredCallEnds(ring: Ring, w: State, acts: seq<Act>, r: State, l: nat, added: bool)
    requires Sane(ring) && Leads(ring, w, acts, r) && Sending(r, l, added)
    requires NoneLate(w, r.job.loops[l].proc) && NoRelief(ring, w, r.job.loops[l].proc, acts)
    ensures r.calls[l].late <= ring.consecutive
    ensures r.calls[l].late == ring.consecutive ==>
              added && Do(ring, r, Check(l, false)).job.loops[l].phase != Job.InBiz
  {
    NoTails(w.histories);
    hide Leads, LastAll, Triggers, NoRelief;
    var p := r.job.loops[l].proc;
    LateBoundedRun(ring, w, acts, r, p);
    assert InCall(r.job, l, p);
    if r.calls[l].late == ring.consecutive {
      LongTailTriggers(ring, r.histories[p]);
      TriggersIs(ring, r.histories[p]);
    }
  }

  // ---------------------------------------------------------------- a process with one loop

  /** Process p never had a limit above one; its calls have sent late only past their context. */
  ghost predicate Single(w: State, p: nat) {
    && |w.calls| == |w.job.loops| && Job.Accounted(w.job, p)
    && (p < |w.job.procs| ==> w.job.procs[p].highest <= 1)
    && forall l: nat | InCall(w.job, l, p) && 0 < w.calls[l].late :: ContextOver(w.job, l)
  }

  /** A permit is a live loop, so there is only one. */
  lemma OnlyCall(w: State, p: nat, l: nat, m: nat)
    requires Single(w, p) && p < |w.job.procs| && InCall(w.job, l, p) && InCall(w.job, m, p)
    ensures l == m
  {
    if l != m {
      var loops := w.job.loops;
      var fewer := loops[l := loops[l].(phase := Job.Gone)];
      hide Job.Live;
      Job.LiveUpdate(loops, l, loops[l].(phase := Job.Gone), p);
      Job.LiveUpdate(fewer, m, loops[m].(phase := Job.Gone), p);
    }
  }

  lemma SingleStep(ring: Ring, w: State, a: Act, p: nat)
    requires Can(w, a) && Single(w, p) && !RaisesLimit(a)
    ensures Single(Do(ring, w, a), p)
  {
    hide Triggers, Job.Live;
    var r := Do(ring, w, a);
    if r.job != w.job {
      var e := if a.Other? then a.e else Job.BizReturned(a.l, a.cancelled);
      Job.AccountedStep(w.job, e, p);
    }
  }

  lemma SingleSender(w: State, a: Act, p: nat)
    requires Can(w, a) && Single(w, p)
    ensures MadeFor(w, a, p) ==> a.failed || NoneLate(w, p)
  {
    if MadeFor(w, a, p) && !a.failed {
      forall m: nat | InCall(w.job, m, p)
        ensures w.calls[m].late == 0
      {
        OnlyCall(w, p, a.l, m);
      }
    }
  }

  lemma {:induction false} SingleHasNoRelief(ring: Ring, w: State, acts: seq<Act>, r: State, p: nat)
    requires Single(w, p) && Steady(acts) && Leads(ring, w, acts, r)
    ensures NoRelief(ring, w, p, acts)
    decreases |acts|
  {
    hide Single, Can, Do, MadeFor, NoneLate, RaisesLimit;
    if acts != [] {
      assert acts[0] in acts;
      SingleStep(ring, w, acts[0], p);
      SingleSender(w, acts[0], p);
      SingleHasNoRelief(ring, Do(ring, w, acts[0]), acts[1..], r, p);
    }
  }

  lemma SingleStart(limits: seq<int>, tables: nat, p: nat)
    requires p < |limits| ==> limits[p] <= 1
    ensures Single(Start(limits, tables), p) && NoneLate(Start(limits, tables), p)
  {
  }

  // ---------------------------------------------------------------- and when others do succeed

  /** One bound on what the calls of a deployment do after their contexts ended, in all its runs. */
  ghost predicate CallsEnd(ring: Ring, limits: seq<int>, tables: nat) {
    exists bound: nat :: BoundsLate(ring, limits, tables, bound)
  }

  ghost predicate BoundsLate(ring: Ring, limits: seq<int>, tables: nat, bound: nat) {
    forall acts: seq<Act>, w: State, l: nat, added: bool |
      Steady(acts) && Leads(ring, Start(limits, tables), acts, w) && Sending(w, l, added) ::
        w.calls[l].late <= bound
  }

  /** No process can have two loops. */
  ghost predicate LoopsAlone(limits: seq<int>, tables: nat) {
    tables == 0 || forall p | 0 <= p < |limits| :: limits[p] <= 1
  }

  /** Under a negative rate threshold a test ends every call. */
  ghost predicate OneLate(w: State) {
    && |w.calls| == |w.job.loops|
    && forall l | 0 <= l < |w.calls| ::
         && w.calls[l].late <= 1
         && (w.job.loops[l].phase == Job.InBiz && !w.calls[l].added ==> w.calls[l].late == 0)
         && (w.calls[l].added && w.job.loops[l].proc < |w.histories| ==> w.histories[w.job.loops[l].proc] != [])
  }

  lemma NegativeTriggers(ring: Ring, history: seq<bool>)
    requires Sane(ring) && ring.rate < 0.0 && history != []
    ensures Triggers(ring, history)
  {
    var window := Window(history, ring.size);
    ShareNotNegative(Count(window) as real, |window| as real);
  }

  lemma ShareNotNegative(a: real, b: real)
    requires 0.0 <= a && 0.0 < b
    ensures 0.0 <= a / b
  {
  }

  lemma OneLateStep(ring: Ring, w: State, a: Act)
    requires Sane(ring) && ring.rate < 0.0 && Can(w, a) && OneLate(w)
    ensures OneLate(Do(ring, w, a))
  {
    hide Triggers;
    if a.Check? {
      NegativeTriggers(ring, w.histories[w.job.loops[a.l].proc]);
    }
  }

  lemma {:induction false} OneLateRun(ring: Ring, w: State, acts: seq<Act>, r: State)
    requires Sane(ring) && ring.rate < 0.0 && OneLate(w) && Leads(ring, w, acts, r)
    ensures OneLate(r)
    decreases |acts|
  {
    hide OneLate, Do, Can;
    if acts != [] {
      OneLateStep(ring, w, acts[0]);
      OneLateRun(ring, Do(ring, w, acts[0]), acts[1..], r);
    }
  }

  /** Two loops of process p. Loop 0 is n sends past its context, the last of them still untested if
      `added`; loop 1 is within its lease and between its sends; the last m outcomes are successes. */
  ghost predicate Pair(w: State, p: nat, n: nat, added: bool, m: nat) {
    && p < |w.job.procs| && p < |w.histories| && |w.calls| == |w.job.loops| == 2
    && (forall l: nat | l < 2 ::
          InCall(w.job, l, p) && w.job.loops[l].table < |w.job.locks| && (ContextOver(w.job, l) <==> l == 0))
    && w.job.locks[w.job.loops[1].table] == Job.Held(1, w.job.loops[1].since + Job.LEASE)
    && w.calls == [Work(added, n), Work(false, 0)]
    && m <= |w.histories[p]| && forall i | |w.histories[p]| - m <= i < |w.histories[p]| :: !w.histories[p][i]
  }

  /** Loop 0 sends once more. */
  lemma PairSink(ring: Ring, w: State, p: nat, n: nat, m: nat)
    requires Pair(w, p, n, false, m)
    ensures Can(w, Send(0, true)) && Pair(Next(ring, w, Send(0, true)), p, n + 1, true, 0)
  {
    hide Triggers;
    assert InCall(w.job, 0, p);
  }

  /** Loop 1 sends with success and tests; if that ends its call, its lease is extended. */
  lemma PairSend(ring: Ring, w: State, p: nat, n: nat, m: nat)
    requires Pair(w, p, n, true, m)
    ensures var v := Next(ring, w, Send(1, false));
            var u := Next(ring, v, Check(1, false));
            && Can(w, Send(1, false)) && Can(v, Check(1, false))
            && (|| Pair(u, p, n, true, m + 1)
                || (&& Can(u, Other(Job.Refreshed(1)))
                    && Pair(Next(ring, u, Other(Job.Refreshed(1))), p, n, true, m + 1)))
  {
    hide Triggers;
    assert InCall(w.job, 0, p) && InCall(w.job, 1, p);
  }

  /** Loop 0 tests in vain. */
  lemma PairSurface(ring: Ring, w: State, p: nat, n: nat)
    requires Sane(ring) && 0.0 <= ring.rate && Pair(w, p, n, true, ring.size)
    ensures Can(w, Check(0, false)) && Pair(Next(ring, w, Check(0, false)), p, n, false, ring.size)
  {
    hide Triggers;
    assert InCall(w.job, 0, p);
    CleanWindow(ring, w.histories[p]);
  }

  /** Successes of loop 1 until they fill the window. */
  lemma {:induction false} PairDrown(ring: Ring, w: State, p: nat, n: nat, m: nat) returns (r: State)
    requires Pair(w, p, n, true, m) && m <= ring.size
    ensures CanGo(ring, false, w, r) && Pair(r, p, n, true, ring.size)
    decreases ring.size - m
  {
    hide *;
    if m == ring.size {
      r := w;
      GoNowhere(ring, false, w);
    } else {
      var v := Next(ring, w, Send(1, false));
      var u := Next(ring, v, Check(1, false));
      PairSend(ring, w, p, n, m);
      if Pair(u, p, n, true, m + 1) {
        r := PairDrown(ring, u, p, n, m + 1);
      } else {
        r := PairDrown(ring, Next(ring, u, Other(Job.Refreshed(1))), p, n, m + 1);
        GoFirst(ring, false, u, Other(Job.Refreshed(1)), r);
      }
      GoFirst(ring, false, v, Check(1, false), r);
      GoFirst(ring, false, w, Send(1, false), r);
    }
  }

  /** Another send past its context, drowned in the successes of loop 1 before it is tested. */
  lemma {:induction false} PairRounds(ring: Ring, w: State, p: nat, n: nat, m: nat, goal: nat)
      returns (r: State, last: nat)
    requires Sane(ring) && 0.0 <= ring.rate && Pair(w, p, n, false, m) && n <= goal
    ensures CanGo(ring, false, w, r) && Pair(r, p, goal, false, last)
    decreases goal - n
  {
    hide *;
    if n == goal {
      r, last := w, m;
      GoNowhere(ring, false, w);
    } else {
      PairSink(ring, w, p, n, m);
      var sunk := Next(ring, w, Send(0, true));
      var drowned := PairDrown(ring, sunk, p, n + 1, 0);
      PairSurface(ring, drowned, p, n + 1);
      r, last := PairRounds(ring, Next(ring, drowned, Check(0, false)), p, n + 1, ring.size, goal);
      GoFirst(ring, false, drowned, Check(0, false), r);
      GoOn(ring, false, sunk, drowned, r);
      GoFirst(ring, false, w, Send(0, true), r);
    }
  }

  /** Process p has one loop, on its first table, whose context and lease are over. */
  ghost predicate First(w: State, p: nat) {
    && p < |w.job.procs| && p < |w.histories| && |w.calls| == |w.job.loops| == 1 && w.calls[0] == Work(false, 0)
    && InCall(w.job, 0, p) && ContextOver(w.job, 0) && w.job.loops[0].table < |w.job.locks|
    && w.job.procs[p].permits.Available() && Job.ProcAt(w.job, p, false)
    && forall t | 0 <= t < |w.job.locks| :: Job.Expired(w.job, w.job.locks[t])
  }

  lemma FirstLoop(ring: Ring, limits: seq<int>, tables: nat, p: nat)
    requires p < |limits| && 2 <= limits[p] && 0 < tables
    ensures var w := Start(limits, tables);
            var v := Next(ring, w, Other(Job.Acquire(p)));
            var u := Next(ring, v, Other(Job.LockGranted(p)));
            && Can(w, Other(Job.Acquire(p))) && Can(v, Other(Job.LockGranted(p)))
            && Can(u, Other(Job.Tick(Job.LEASE))) && First(Next(ring, u, Other(Job.Tick(Job.LEASE))), p)
  {
    hide Triggers;
  }

  /** It takes up another table, or the same one again. */
  lemma SecondLoop(ring: Ring, w: State, p: nat)
    requires First(w, p)
    ensures var v := Next(ring, w, Other(Job.Acquire(p)));
            && Can(w, Other(Job.Acquire(p))) && Can(v, Other(Job.LockGranted(p)))
            && Pair(Next(ring, v, Other(Job.LockGranted(p))), p, 0, false, 0)
  {
    hide Triggers;
  }

  /** A process that can have two loops: with no negative rate threshold there is for every n a run in
      which a call makes n sends past its context and is still about to send. */
  lemma ExpiredCallGoesOn(ring: Ring, limits: seq<int>, tables: nat, p: nat, n: nat)
      returns (acts: seq<Act>, w: State)
    requires Sane(ring) && 0.0 <= ring.rate && p < |limits| && 2 <= limits[p] && 0 < tables
    ensures Steady(acts) && Leads(ring, Start(limits, tables), acts, w)
    ensures Sending(w, 0, false) && w.calls[0].late == n && ContextOver(w.job, 0)
  {
    hide *;
    var start := Start(limits, tables);
    var v := Next(ring, start, Other(Job.Acquire(p)));
    var u := Next(ring, v, Other(Job.LockGranted(p)));
    var first := Next(ring, u, Other(Job.Tick(Job.LEASE)));
    FirstLoop(ring, limits, tables, p);
    SecondLoop(ring, first, p);
    var second := Next(ring, first, Other(Job.Acquire(p)));
    var pair, last := Next(ring, second, Other(Job.LockGranted(p))), 0;
    w, last := PairRounds(ring, pair, p, 0, 0, n);
    GoFirst(ring, false, second, Other(Job.LockGranted(p)), w);
    GoFirst(ring, false, first, Other(Job.Acquire(p)), w);
    GoFirst(ring, false, u, Other(Job.Tick(Job.LEASE)), w);
    GoFirst(ring, false, v, Other(Job.LockGranted(p)), w);
    GoFirst(ring, false, start, Other(Job.Acquire(p)), w);
    acts := Way(ring, false, start, w);
    PairGoesOn(w, p, n, last);
  }

  lemma PairGoesOn(w: State, p: nat, n: nat, m: nat)
    requires Pair(w, p, n, false, m)
    ensures Sending(w, 0, false) && w.calls[0].late == n && ContextOver(w.job, 0)
  {
    assert InCall(w.job, 0, p);
  }

  // ---------------------------------------------------------------- exactly when they end

  lemma NegativeBounds(ring: Ring, limits: seq<int>, tables: nat)
    requires Sane(ring) && ring.rate < 0.0
    ensures BoundsLate(ring, limits, tables, ring.consecutive)
  {
    hide Start, Leads, Steady;
    forall acts: seq<Act>, w: State, l: nat, added: bool |
      Steady(acts) && Leads(ring, Start(limits, tables), acts, w) && Sending(w, l, added)
      ensures w.calls[l].late <= ring.consecutive
    {
      StartOneLate(limits, tables);
      OneLateRun(ring, Start(limits, tables), acts, w);
    }
  }

  lemma StartOneLate(limits: seq<int>, tables: nat)
    ensures OneLate(Start(limits, tables))
  {
  }

  lemma AloneBounds(ring: Ring, limits: seq<int>, tables: nat)
    requires Sane(ring) && LoopsAlone(limits, tables)
    ensures BoundsLate(ring, limits, tables, ring.consecutive)
  {
    forall acts: seq<Act>, w: State, l: nat, added: bool |
      Steady(acts) && Leads(ring, Start(limits, tables), acts, w) && Sending(w, l, added)
      ensures w.calls[l].late <= ring.consecutive
    {
      var start, p := Start(limits, tables), w.job.loops[l].proc;
      assert |start.job.locks| == tables && |start.job.procs| == |limits|;
      hide Leads, Steady, Start, Do, NoRelief, NoneLate, Single;
      var events := IsJobRun(ring, start, acts, w);
      Job.Sizes(start.job, events, w.job);
      SingleStart(limits, tables, p);
      SingleHasNoRelief(ring, start, acts, w, p);
      ExpiredCallEnds(ring, start, acts, w, l, added);
    }
  }

  /** Exactly when the end of its context bounds what a call of the deployment still does: when no
      process can have two loops, or the rate threshold is negative, so that every test ends a call. If
      there is a bound at all, consecutiveThreshold is one. */
  lemma CallsEndIff(ring: Ring, limits: seq<int>, tables: nat)
    requires Sane(ring)
    ensures CallsEnd(ring, limits, tables) <==> ring.rate < 0.0 || LoopsAlone(limits, tables)
    ensures CallsEnd(ring, limits, tables) <==> BoundsLate(ring, limits, tables, ring.consecutive)
  {
    hide Leads, Start, Can, Do, Sending, Steady, BoundsLate;
    if ring.rate < 0.0 {
      NegativeBounds(ring, limits, tables);
    } else if LoopsAlone(limits, tables) {
      AloneBounds(ring, limits, tables);
    } else {
      var p :| 0 <= p < |limits| && 1 < limits[p];
      forall bound: nat
        ensures !BoundsLate(ring, limits, tables, bound)
      {
        Unbounded(ring, limits, tables, p, bound);
      }
    }
  }

  lemma Unbounded(ring: Ring, limits: seq<int>, tables: nat, p: nat, bound: nat)
    requires Sane(ring) && 0.0 <= ring.rate && p < |limits| && 2 <= limits[p] && 0 < tables
    ensures !BoundsLate(ring, limits, tables, bound)
  {
    hide Leads, Start, Steady;
    var acts, w := ExpiredCallGoesOn(ring, limits, tables, p, bound + 1);
    assert Sending(w, 0, false);
  }
}
