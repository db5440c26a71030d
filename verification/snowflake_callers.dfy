/**
 Concurrent callers of one id generator (internal/pkg/snowflake/id_generator.go): NextId reads the
 clock and then steps the counter, and nothing keeps another caller out in between. So the readings
 need not come in counter order.
 */
module SnowflakeCallers {
  import opened Words
  import opened Snowflake

  /** A call before its reading, between reading and counter step, and when it has its id. `began` is
      how many steps had been made when it read the clock, `place` how many before its own. */
  datatype Caller =
    | Waiting(hash: u64)
    | HasRead(hash: u64, millis: int, began: nat)
    | Done(id: nat, place: nat)

  /** One counter step: the reading and hash it was made for, and when. */
  datatype Entry = Entry(call: Call, began: nat, at: int)

  datatype World = World(now: int, sequence: u64, callers: seq<Caller>, log: seq<Entry>)

  datatype Event = Tick(to: int) | Begin(hash: u64) | Read(c: nat) | Increment(c: nat)

  predicate Enabled(w: World, e: Event) {
    match e
    case Tick(to) => w.now <= to
    case Begin(_) => true
    case Read(c) => c < |w.callers| && w.callers[c].Waiting?
    case Increment(c) => c < |w.callers| && w.callers[c].HasRead?
  }

  function Step(w: World, e: Event): World
    requires Enabled(w, e)
  {
    match e
    case Tick(to) => w.(now := to)
    case Begin(hash) => w.(callers := w.callers + [Waiting(hash)])
    case Read(c) => w.(callers := w.callers[c := HasRead(w.callers[c].hash, w.now, |w.log|)])
    case Increment(c) =>
      var caller := w.callers[c];
      var id := Pack(Timestamp(caller.millis), caller.hash, w.sequence);
      World(w.now, Wrap64(w.sequence + 1), w.callers[c := Done(id, |w.log|)],
            w.log + [Entry(Call(caller.millis, caller.hash), caller.began, w.now)])
  }

  ghost predicate Reaches(w: World, events: seq<Event>, r: World)
    decreases |events|
  {
    if events == [] then r == w
    else Enabled(w, events[0]) && Reaches(Step(w, events[0]), events[1..], r)
  }

  /** A generator at any count, nobody calling. */
  ghost predicate Fresh(w: World) {
    w.callers == [] && w.log == []
  }

  function Calls(log: seq<Entry>): (r: seq<Call>) {
    seq(|log|, i requires 0 <= i < |log| => log[i].call)
  }

  // ---------------------------------------------------------------- ids follow the counter

  ghost predicate IdsFollow(first: u64, w: World) {
    && w.sequence == Wrap64(first + |w.log|)
    && (forall c | 0 <= c < |w.callers| && w.callers[c].Done? ::
          w.callers[c].place < |w.log| && w.callers[c].id == IdOf(first, Calls(w.log), w.callers[c].place))
    && (forall c, e | 0 <= c < e < |w.callers| && w.callers[c].Done? && w.callers[e].Done? ::
          w.callers[c].place != w.callers[e].place)
  }

  lemma IdsFollowStep(first: u64, w: World, e: Event)
    requires Enabled(w, e) && IdsFollow(first, w)
    ensures IdsFollow(first, Step(w, e))
  {
    hide Pack, Timestamp;
    if e.Increment? {
      CounterStep(first, |w.log|);
    }
    hide Wrap64;
  }

  lemma CounterStep(first: u64, n: nat)
    ensures Wrap64(Wrap64(first + n) + 1) == Wrap64(first + (n + 1))
  {
  }

  lemma {:induction false} IdsFollowRun(first: u64, w: World, events: seq<Event>, r: World)
    requires IdsFollow(first, w) && Reaches(w, events, r)
    ensures IdsFollow(first, r)
    decreases |events|
  {
    hide IdsFollow, Step, Enabled;
    if events != [] {
      IdsFollowStep(first, w, events[0]);
      IdsFollowRun(first, Step(w, events[0]), events[1..], r);
    }
  }

  lemma FreshFollows(w: World)
    requires Fresh(w)
    ensures IdsFollow(w.sequence, w)
  {
  }

  lemma PlacesDistinct(first: u64, w: World, c: nat, e: nat)
    requires IdsFollow(first, w) && Close(Calls(w.log))
    requires c < |w.callers| && e < |w.callers| && c != e && w.callers[c].Done? && w.callers[e].Done?
    ensures w.callers[c].id != w.callers[e].id
  {
    hide Close, IdOf, Wrap64;
    var p, q := w.callers[c].place, w.callers[e].place;
    if p < q {
      CloseIdsDistinct(first, Calls(w.log), p, q);
    } else {
      CloseIdsDistinct(first, Calls(w.log), q, p);
    }
  }

  /** However callers interleave, their ids are pairwise distinct when no two equal readings lie 4096
      or more counter steps apart. */
  lemma ConcurrentIdsDistinct(w: World, events: seq<Event>, r: World, c: nat, e: nat)
    requires Fresh(w) && Reaches(w, events, r) && Close(Calls(r.log))
    requires c < |r.callers| && e < |r.callers| && c != e && r.callers[c].Done? && r.callers[e].Done?
    ensures r.callers[c].id != r.callers[e].id
  {
    hide *;
    FreshFollows(w);
    IdsFollowRun(w.sequence, w, events, r);
    PlacesDistinct(w.sequence, r, c, e);
  }

  // ---------------------------------------------------------------- when readings stay close

  /** The clock runs on through the log, and a call reads no earlier than the steps it found made. */
  ghost predicate Timed(w: World) {
    && (forall p | 0 <= p < |w.log| ::
          w.log[p].began <= p && w.log[p].call.millis <= w.log[p].at <= w.now)
    && (forall p, q | 0 <= p < q < |w.log| :: w.log[p].at <= w.log[q].at)
    && (forall p, q | 0 <= q < |w.log| && 0 <= p < w.log[q].began :: w.log[p].at <= w.log[q].call.millis)
    && (forall c | 0 <= c < |w.callers| && w.callers[c].HasRead? :: w.callers[c].began <= |w.log|)
    && (forall c | 0 <= c < |w.callers| && w.callers[c].HasRead? :: w.callers[c].millis <= w.now)
    && (forall c, p | 0 <= c < |w.callers| && w.callers[c].HasRead? && 0 <= p < w.callers[c].began ::
          w.log[p].at <= w.callers[c].millis)
  }

  lemma TimedStep(w: World, e: Event)
    requires Enabled(w, e) && Timed(w)
    ensures Timed(Step(w, e))
  {
    hide Pack, Timestamp, Wrap64;
  }

  lemma {:induction false} TimedRun(w: World, events: seq<Event>, r: World)
    requires Timed(w) && Reaches(w, events, r)
    ensures Timed(r)
    decreases |events|
  {
    hide Timed, Step, Enabled;
    if events != [] {
      TimedStep(w, events[0]);
      TimedRun(Step(w, events[0]), events[1..], r);
    }
  }

  /** At most n counter steps in one millisecond, and at most k between a call's reading and its step. */
  ghost predicate Steady(log: seq<Entry>, n: nat, k: nat) {
    && (forall p, q | 0 <= p < q < |log| && log[p].at == log[q].at :: q - p < n)
    && (forall p | 0 <= p < |log| :: p - log[p].began <= k)
  }

  lemma SteadyDistance(w: World, n: nat, k: nat, i: nat, j: nat)
    requires Timed(w) && Steady(w.log, n, k) && 0 < n
    requires i < j < |w.log| && w.log[i].call.millis == w.log[j].call.millis
    ensures j - i <= n + k
  {
    var began := w.log[j].began;
    if i < began {
      assert w.log[began - 1].at <= w.log[j].call.millis;
      assert w.log[i].at <= w.log[began - 1].at;
    }
  }

  /** Ids are pairwise distinct when the steps of one millisecond and those that may overtake a call
      number at most 4095 together. */
  lemma SteadyIdsDistinct(w: World, events: seq<Event>, r: World, n: nat, k: nat, c: nat, e: nat)
    requires Fresh(w) && Reaches(w, events, r) && Steady(r.log, n, k) && 0 < n && n + k < 0x1000
    requires forall p | 0 <= p < |r.log| :: InEra(r.log[p].call.millis)
    requires c < |r.callers| && e < |r.callers| && c != e && r.callers[c].Done? && r.callers[e].Done?
    ensures r.callers[c].id != r.callers[e].id
  {
    TimedRun(w, events, r);
    forall i, j | 0 <= i < j < |r.log| && r.log[i].call.millis == r.log[j].call.millis
      ensures j - i < 0x1000
    {
      SteadyDistance(r, n, k, i, j);
    }
    hide Timed, Steady;
    ConcurrentIdsDistinct(w, events, r, c, e);
  }

  /** Callers nobody overtakes read in counter order, whatever else they do: with at most 4096 readings
      in one millisecond they are serial callers. */
  lemma SerialReadings(w: World, events: seq<Event>, r: World)
    requires Fresh(w) && Reaches(w, events, r) && forall p | 0 <= p < |r.log| :: r.log[p].began == p
    ensures forall p, q | 0 <= p <= q < |r.log| :: Calls(r.log)[p].millis <= Calls(r.log)[q].millis
  {
    TimedRun(w, events, r);
    hide Reaches;
    forall p, q | 0 <= p < q < |r.log|
      ensures r.log[p].call.millis <= r.log[q].call.millis
    {
      assert r.log[p].at <= r.log[q].call.millis;
    }
  }

  // ---------------------------------------------------------------- a caller overtaken 4096 times

  lemma Then(w: World, e: Event, rest: seq<Event>, r: World)
    requires Enabled(w, e) && Reaches(Step(w, e), rest, r)
    ensures Reaches(w, [e] + rest, r)
  {
    assert ([e] + rest)[1..] == rest;
  }

  /** Caller 0 has its id, caller 1 has read the same millisecond, and k - 1 others have come and gone
      in the next. */
  ghost predicate Overtaken(t: int, hash: u64, k: nat, w: World) {
    && 0 < k == |w.log| && |w.callers| == k + 1 && w.now == t + 1
    && w.callers[0].Done? && w.callers[0].place == 0 && w.callers[1] == HasRead(hash, t, 0)
    && (forall p | 0 <= p < k :: w.log[p].call == Call(if p == 0 then t else t + 1, hash))
  }

  /** Both have read, the clock has moved on, and caller 0 has stepped the counter. */
  function Ahead(first: u64, t: int, hash: u64): World {
    World(t + 1, Wrap64(first + 1), [Done(Pack(Timestamp(t), hash, first), 0), HasRead(hash, t, 0)],
          [Entry(Call(t, hash), 0, t + 1)])
  }

  function Prelude(hash: u64, t: int, rest: seq<Event>): seq<Event> {
    [Begin(hash)] + ([Begin(hash)] + ([Read(0)] + ([Read(1)] + ([Tick(t + 1)] + ([Increment(0)] + rest)))))
  }

  lemma OvertakenFirst(first: u64, t: int, hash: u64, w: World, events: seq<Event>, last: World)
    requires w == World(t, first, [], []) && Reaches(Ahead(first, t, hash), events, last)
    ensures Overtaken(t, hash, 1, Ahead(first, t, hash))
    ensures Reaches(w, Prelude(hash, t, events), last)
  {
    hide Pack, Timestamp, Reaches;
    var w1 := Step(w, Begin(hash));
    var w2 := Step(w1, Begin(hash));
    var w3 := Step(w2, Read(0));
    var w4 := Step(w3, Read(1));
    var w5 := Step(w4, Tick(t + 1));
    assert Step(w5, Increment(0)) == Ahead(first, t, hash);
    var rest := [Increment(0)] + events;
    Then(w5, Increment(0), events, last);
    Then(w4, Tick(t + 1), rest, last);
    Then(w3, Read(1), [Tick(t + 1)] + rest, last);
    Then(w2, Read(0), [Read(1)] + ([Tick(t + 1)] + rest), last);
    Then(w1, Begin(hash), [Read(0)] + ([Read(1)] + ([Tick(t + 1)] + rest)), last);
    Then(w, Begin(hash), [Begin(hash)] + ([Read(0)] + ([Read(1)] + ([Tick(t + 1)] + rest))), last);
  }

  lemma OvertakenNext(t: int, hash: u64, k: nat, w: World, r: World, events: seq<Event>, last: World)
    requires Overtaken(t, hash, k, w)
    requires r == Step(Step(Step(w, Begin(hash)), Read(k + 1)), Increment(k + 1)) && Reaches(r, events, last)
    ensures Overtaken(t, hash, k + 1, r)
    ensures Reaches(w, [Begin(hash)] + ([Read(k + 1)] + ([Increment(k + 1)] + events)), last)
  {
    hide Pack, Timestamp, Reaches, Wrap64;
    var w1 := Step(w, Begin(hash));
    var w2 := Step(w1, Read(k + 1));
    Then(w2, Increment(k + 1), events, last);
    Then(w1, Read(k + 1), [Increment(k + 1)] + events, last);
    Then(w, Begin(hash), [Read(k + 1)] + ([Increment(k + 1)] + events), last);
  }

  lemma {:induction false} OvertakenRun(t: int, hash: u64, k: nat, n: nat, w: World)
      returns (events: seq<Event>, r: World)
    requires Overtaken(t, hash, k, w) && k <= n
    ensures Reaches(w, events, r) && Overtaken(t, hash, n, r)
    decreases n - k
  {
    if k == n {
      events, r := [], w;
    } else {
      hide Pack, Timestamp, Reaches, Wrap64;
      var v := Step(Step(Step(w, Begin(hash)), Read(k + 1)), Increment(k + 1));
      SelfReaches(v);
      OvertakenNext(t, hash, k, w, v, [], v);
      hide Overtaken;
      events, r := OvertakenRun(t, hash, k + 1, n, v);
      OvertakenNext(t, hash, k, w, v, events, r);
      events := [Begin(hash)] + ([Read(k + 1)] + ([Increment(k + 1)] + events));
    }
  }

  lemma SelfReaches(w: World)
    ensures Reaches(w, [], w)
  {
  }

  lemma {:induction false} ReachesLast(w: World, events: seq<Event>, v: World, e: Event)
    requires Reaches(w, events, v) && Enabled(v, e)
    ensures Reaches(w, events + [e], Step(v, e))
    decreases |events|
  {
    hide Enabled, Step;
    if events == [] {
      assert events + [e] == [e] + [];
      SelfReaches(Step(v, e));
      Then(w, e, [], Step(v, e));
    } else {
      ReachesLast(Step(w, events[0]), events[1..], v, e);
      assert (events + [e])[1..] == events[1..] + [e];
    }
  }

  /** Two calls with one business key read one millisecond, alone in it; the slower is overtaken 4096
      times and gets the id of the faster. */
  lemma OvertakenCollide(first: u64, t: int, hash: u64) returns (w: World, events: seq<Event>, r: World)
    ensures Fresh(w) && w.sequence == first && Reaches(w, events, r)
    ensures 2 <= |r.callers| && r.callers[0].Done? && r.callers[1].Done? && r.callers[0].id == r.callers[1].id
    ensures forall p | 0 < p < |r.log| - 1 :: r.log[p].call.millis == t + 1
    ensures |r.log| == 0x1001 && r.log[0].call.millis == r.log[0x1000].call.millis == t
  {
    w := World(t, first, [], []);
    var start := Ahead(first, t, hash);
    hide Pack, Timestamp, Reaches, Wrap64, Ahead, IdOf;
    SelfReaches(start);
    OvertakenFirst(first, t, hash, w, [], start);
    var rest, v := OvertakenRun(t, hash, 1, 0x1000, start);
    r := Step(v, Increment(1));
    ReachesLast(start, rest, v, Increment(1));
    OvertakenFirst(first, t, hash, w, rest + [Increment(1)], r);
    events := Prelude(hash, t, rest + [Increment(1)]);
    FreshFollows(w);
    IdsFollowRun(first, w, events, r);
    SameIdIff(first, Calls(r.log), 0, 0x1000);
  }
}
