/**
 Any number of clients sharing the quota counters, interleaved between redis and database calls
 (internal/repository/notification.go). A create first takes its units, then the database answers;
 on failure the units are given back by a later call. Marking a notification failed is a database
 call followed by a refund. Nothing in the code stops a kept notification from being marked again, nor
 one from being marked that was never kept: the database answers such a mark without an error. And a batch
 insert that failed may have kept some of its rows all the same, those of its other databases, but never
 all: the database that failed keeps none (NotificationDao.NotifShardingDAO.BatchCreate).
 */
module QuotaProtocol {
  import opened Words
  import opened Sums
  import opened Quota

  /** A create between its calls: units taken, or taken and due back after a failed insert. */
  datatype Flight = Held(units: seq<string>) | Failed(units: seq<string>) | Over

  /** A kept notification, how often it was marked failed and how many of the refunds were made. */
  datatype Note = Note(key: string, marks: nat, refunds: nat)

  /** A mark of a notification that is not in the database, and whether its refund has been made. */
  datatype Stray = Stray(key: string, refunded: bool)

  /** unpaid: rows that stayed in the database although their create failed and was refunded. */
  datatype World = World(store: map<string, int>, flights: seq<Flight>, notes: seq<Note>, strays: seq<Stray>,
                         unpaid: multiset<string>)

  datatype Event =
    | DecrOne(key: string)
    | DecrBatch(units: seq<string>, keys: seq<string>, args: seq<int>)
    | Kept(f: nat)
    | NotKept(f: nat, left: seq<string>)
    | GiveBack(f: nat, keys: seq<string>, args: seq<int>)
    | Mark(n: nat)
    | RefundMark(n: nat)
    | MarkStray(key: string)
    | RefundStray(s: nat)

  ghost predicate Enabled(w: World, e: Event) {
    match e
    case DecrOne(_) => true
    case DecrBatch(units, keys, args) => units != [] && Charges(keys, args, units)
    case Kept(f) => f < |w.flights| && w.flights[f].Held?
    case NotKept(f, left) =>
      f < |w.flights| && w.flights[f].Held? && multiset(left) < multiset(w.flights[f].units)
    case GiveBack(f, keys, args) =>
      f < |w.flights| && w.flights[f].Failed? && Charges(keys, args, w.flights[f].units)
    case Mark(n) => n < |w.notes|
    case RefundMark(n) => n < |w.notes| && w.notes[n].refunds < w.notes[n].marks
    case MarkStray(_) => true
    case RefundStray(s) => s < |w.strays| && !w.strays[s].refunded
  }

  ghost function Accept(units: seq<string>): seq<Note> {
    seq(|units|, i requires 0 <= i < |units| => Note(units[i], 0, 0))
  }

  ghost function Step(w: World, e: Event): World
    requires Enabled(w, e)
  {
    match e
    case DecrOne(key) =>
      var store := w.store[key := Raw(w.store, key) - 1];
      w.(store := store, flights := w.flights + [if 0 <= Raw(store, key) then Held([key]) else Over])
    case DecrBatch(units, keys, args) =>
      if Covered(w.store, keys, args) then
        w.(store := DecrAll(w.store, keys, args), flights := w.flights + [Held(units)])
      else w.(flights := w.flights + [Over])
    case Kept(f) => w.(flights := w.flights[f := Over], notes := w.notes + Accept(w.flights[f].units))
    case NotKept(f, left) =>
      w.(flights := w.flights[f := Failed(w.flights[f].units)], notes := w.notes + Accept(left),
         unpaid := w.unpaid + multiset(left))
    case GiveBack(f, keys, args) =>
      w.(store := RefundAll(w.store, keys, args), flights := w.flights[f := Over])
    case Mark(n) => w.(notes := w.notes[n := w.notes[n].(marks := w.notes[n].marks + 1)])
    case RefundMark(n) =>
      var note := w.notes[n];
      w.(store := RefundAll(w.store, [note.key], [1]),
         notes := w.notes[n := note.(refunds := note.refunds + 1)])
    case MarkStray(key) => w.(strays := w.strays + [Stray(key, false)])
    case RefundStray(s) =>
      w.(store := RefundAll(w.store, [w.strays[s].key], [1]),
         strays := w.strays[s := w.strays[s].(refunded := true)])
  }

  ghost predicate Reaches(w: World, events: seq<Event>, r: World)
    decreases |events|
  {
    if events == [] then r == w
    else Enabled(w, events[0]) && Reaches(Step(w, events[0]), events[1..], r)
  }

  // ---------------------------------------------------------------- conservation

  ghost function UnitsHeld(f: Flight, key: string): int {
    if f.Over? then 0 else multiset(f.units)[key]
  }

  ghost function UnitsKept(n: Note, key: string): int {
    if n.key == key then 1 - n.refunds else 0
  }

  ghost function Helds(flights: seq<Flight>, key: string): (r: seq<int>) {
    seq(|flights|, i requires 0 <= i < |flights| => UnitsHeld(flights[i], key))
  }

  ghost function Kepts(notes: seq<Note>, key: string): (r: seq<int>) {
    seq(|notes|, i requires 0 <= i < |notes| => UnitsKept(notes[i], key))
  }

  ghost function InFlight(w: World, key: string): int {
    Sum(Helds(w.flights, key))
  }

  /** Kept notifications less refunds made for them. */
  ghost function Outstanding(w: World, key: string): int {
    Sum(Kepts(w.notes, key))
  }

  ghost function StrayUnit(s: Stray, key: string): int {
    if s.key == key && s.refunded then 1 else 0
  }

  ghost function StrayUnits(strays: seq<Stray>, key: string): (r: seq<int>) {
    seq(|strays|, i requires 0 <= i < |strays| => StrayUnit(strays[i], key))
  }

  /** Refunds for notifications that were never kept. */
  ghost function StrayRefunds(w: World, key: string): int {
    Sum(StrayUnits(w.strays, key))
  }

  ghost function Ledger(w: World, key: string): int {
    Avail(w.store, key) + InFlight(w, key) + Outstanding(w, key) - StrayRefunds(w, key) - w.unpaid[key]
  }

  lemma AddFlight(flights: seq<Flight>, f: Flight, key: string)
    ensures Sum(Helds(flights + [f], key)) == Sum(Helds(flights, key)) + UnitsHeld(f, key)
  {
    assert Helds(flights + [f], key) == Helds(flights, key) + [UnitsHeld(f, key)];
    SumPush(Helds(flights, key), UnitsHeld(f, key));
  }

  lemma SetFlight(flights: seq<Flight>, i: nat, f: Flight, key: string)
    requires i < |flights|
    ensures Sum(Helds(flights[i := f], key)) ==
            Sum(Helds(flights, key)) - UnitsHeld(flights[i], key) + UnitsHeld(f, key)
  {
    assert Helds(flights[i := f], key) == Helds(flights, key)[i := UnitsHeld(f, key)];
    SumUpdate(Helds(flights, key), i, UnitsHeld(f, key));
  }

  lemma SetNote(notes: seq<Note>, i: nat, n: Note, key: string)
    requires i < |notes|
    ensures Sum(Kepts(notes[i := n], key)) == Sum(Kepts(notes, key)) - UnitsKept(notes[i], key) + UnitsKept(n, key)
  {
    assert Kepts(notes[i := n], key) == Kepts(notes, key)[i := UnitsKept(n, key)];
    SumUpdate(Kepts(notes, key), i, UnitsKept(n, key));
  }

  lemma AddStray(strays: seq<Stray>, s: Stray, key: string)
    ensures Sum(StrayUnits(strays + [s], key)) == Sum(StrayUnits(strays, key)) + StrayUnit(s, key)
  {
    assert StrayUnits(strays + [s], key) == StrayUnits(strays, key) + [StrayUnit(s, key)];
    SumPush(StrayUnits(strays, key), StrayUnit(s, key));
  }

  lemma SetStray(strays: seq<Stray>, i: nat, s: Stray, key: string)
    requires i < |strays|
    ensures Sum(StrayUnits(strays[i := s], key)) ==
            Sum(StrayUnits(strays, key)) - StrayUnit(strays[i], key) + StrayUnit(s, key)
  {
    assert StrayUnits(strays[i := s], key) == StrayUnits(strays, key)[i := StrayUnit(s, key)];
    SumUpdate(StrayUnits(strays, key), i, StrayUnit(s, key));
  }

  lemma {:induction false} AcceptedUnits(units: seq<string>, key: string)
    ensures Sum(Kepts(Accept(units), key)) == multiset(units)[key]
  {
    if units != [] {
      var n := |units| - 1;
      AcceptedUnits(units[..n], key);
      assert units == units[..n] + [units[n]];
      var last := UnitsKept(Note(units[n], 0, 0), key);
      assert Kepts(Accept(units), key) == Kepts(Accept(units[..n]), key) + [last];
      SumPush(Kepts(Accept(units[..n]), key), last);
    }
  }

  lemma AddNotes(notes: seq<Note>, units: seq<string>, key: string)
    ensures Sum(Kepts(notes + Accept(units), key)) == Sum(Kepts(notes, key)) + multiset(units)[key]
  {
    AcceptedUnits(units, key);
    assert Kepts(notes + Accept(units), key) == Kepts(notes, key) + Kepts(Accept(units), key);
    SumAppend(Kepts(notes, key), Kepts(Accept(units), key));
  }

  lemma RefundUnit(store: map<string, int>, unit: string, key: string)
    ensures Avail(RefundAll(store, [unit], [1]), key) == Avail(store, key) + (if unit == key then 1 else 0)
  {
    RefundOne(store, unit, 1);
  }

  /** The database answers a create. */
  lemma LedgerAnswer(w: World, e: Event, key: string)
    requires Enabled(w, e) && (e.Kept? || e.NotKept?)
    ensures Ledger(Step(w, e), key) == Ledger(w, key)
  {
    hide Sum, Charges, Avail, Raw, Accept;
    match e {
      case Kept(f) =>
        SetFlight(w.flights, f, Over, key);
        AddNotes(w.notes, w.flights[f].units, key);
      case NotKept(f, left) =>
        SetFlight(w.flights, f, Failed(w.flights[f].units), key);
        AddNotes(w.notes, left, key);
    }
  }

  lemma LedgerStep(w: World, e: Event, key: string)
    requires Enabled(w, e)
    ensures Ledger(Step(w, e), key) == Ledger(w, key)
  {
    hide Sum, DecrAll, RefundAll, Demand, Charges, Avail, Covered, Raw, Accept;
    match e {
      case DecrOne(k) =>
        var r := Step(w, e);
        UnitTakes(w.store, k);
        assert Taken(w.store, if r.flights[|w.flights|].Held? then multiset{k} else multiset{}, r.store);
        AddFlight(w.flights, r.flights[|w.flights|], key);
      case DecrBatch(units, keys, args) =>
        var r := Step(w, e);
        ChargeTakes(w.store, keys, args, units);
        AddFlight(w.flights, r.flights[|w.flights|], key);
      case Kept(f) => LedgerAnswer(w, e, key);
      case NotKept(f, left) => LedgerAnswer(w, e, key);
      case GiveBack(f, keys, args) =>
        SetFlight(w.flights, f, Over, key);
        ChargeRefunds(w.store, keys, args, w.flights[f].units);
      case Mark(n) =>
        SetNote(w.notes, n, w.notes[n].(marks := w.notes[n].marks + 1), key);
      case RefundMark(n) =>
        var note := w.notes[n];
        SetNote(w.notes, n, note.(refunds := note.refunds + 1), key);
        RefundUnit(w.store, note.key, key);
      case MarkStray(k) =>
        AddStray(w.strays, Stray(k, false), key);
      case RefundStray(i) =>
        SetStray(w.strays, i, w.strays[i].(refunded := true), key);
        RefundUnit(w.store, w.strays[i].key, key);
    }
  }

  /** For every key and every interleaving this never changes: available + in flight + kept, less the
      refunds of marks and the rows kept by failed creates. */
  lemma {:induction false} Conservation(w: World, events: seq<Event>, r: World, key: string)
    requires Reaches(w, events, r)
    ensures Ledger(r, key) == Ledger(w, key)
    decreases |events|
  {
    hide Ledger, Step, Enabled;
    if events != [] {
      LedgerStep(w, events[0], key);
      Conservation(Step(w, events[0]), events[1..], r, key);
    }
  }

  /** Nothing in flight, nothing kept; the counters hold what was granted. */
  predicate Fresh(w: World) {
    w.flights == [] && w.notes == [] && w.strays == [] && w.unpaid == multiset{}
  }

  /** What callers and the database must see to: each kept notification of the key is marked at most
      once, no other notification of the key is marked at all, and no failed create leaves rows. */
  ghost predicate Proper(w: World, key: string) {
    && (forall n | 0 <= n < |w.notes| && w.notes[n].key == key :: w.notes[n].marks <= 1)
    && (forall s | 0 <= s < |w.strays| :: w.strays[s].key != key)
    && key !in w.unpaid
  }

  ghost predicate RefundsFollowMarks(w: World) {
    forall n | 0 <= n < |w.notes| :: w.notes[n].refunds <= w.notes[n].marks
  }

  lemma {:induction false} RefundsFollow(w: World, events: seq<Event>, r: World)
    requires RefundsFollowMarks(w) && Reaches(w, events, r)
    ensures RefundsFollowMarks(r)
    decreases |events|
  {
    hide Raw, DecrAll, RefundAll, Demand, Charges, Covered;
    if events != [] {
      RefundsFollow(Step(w, events[0]), events[1..], r);
    }
  }

  /** Kept notifications with that key whose refund has not been made. */
  function Live(notes: seq<Note>, key: string): nat {
    if notes == [] then 0
    else Live(notes[1..], key) + (if notes[0].key == key && notes[0].refunds == 0 then 1 else 0)
  }

  ghost predicate RefundedOnce(notes: seq<Note>, key: string) {
    forall n | 0 <= n < |notes| && notes[n].key == key :: notes[n].refunds <= 1
  }

  lemma {:induction false} LiveOutstanding(notes: seq<Note>, key: string)
    ensures Sum(Kepts(notes, key)) <= Live(notes, key)
    ensures Sum(Kepts(notes, key)) == Live(notes, key) <==> RefundedOnce(notes, key)
  {
    if notes != [] {
      LiveOutstanding(notes[1..], key);
      assert Kepts(notes, key)[1..] == Kepts(notes[1..], key);
      assert notes == [notes[0]] + notes[1..];
    }
  }

  ghost predicate NoStrayRefund(strays: seq<Stray>, key: string) {
    forall s | 0 <= s < |strays| && strays[s].key == key :: !strays[s].refunded
  }

  lemma {:induction false} StrayRefundsIff(strays: seq<Stray>, key: string)
    ensures 0 <= Sum(StrayUnits(strays, key))
    ensures Sum(StrayUnits(strays, key)) == 0 <==> NoStrayRefund(strays, key)
  {
    if strays != [] {
      StrayRefundsIff(strays[1..], key);
      assert StrayUnits(strays, key)[1..] == StrayUnits(strays[1..], key);
      assert strays == [strays[0]] + strays[1..];
    }
  }

  /** For every key and every interleaving, available + in flight + kept and not refunded is what was
      granted exactly when no notification of that key has been refunded twice, none that was never
      kept has been refunded, and no failed create has left a row of that key. */
  lemma BalancesIff(w: World, events: seq<Event>, r: World, key: string)
    requires Fresh(w) && Reaches(w, events, r)
    ensures Avail(r.store, key) + InFlight(r, key) + Live(r.notes, key) == Avail(w.store, key)
            <==> RefundedOnce(r.notes, key) && NoStrayRefund(r.strays, key) && key !in r.unpaid
    ensures Avail(w.store, key) <= Avail(r.store, key) + InFlight(r, key) + Live(r.notes, key)
  {
    hide Reaches, Live, RefundedOnce, NoStrayRefund, Avail;
    Conservation(w, events, r, key);
    LiveOutstanding(r.notes, key);
    StrayRefundsIff(r.strays, key);
  }

  /** When all is proper with a key its books balance, and it is not oversold. */
  lemma NeverOversold(w: World, events: seq<Event>, r: World, key: string)
    requires Fresh(w) && Reaches(w, events, r) && Proper(r, key)
    ensures Avail(r.store, key) + InFlight(r, key) + Live(r.notes, key) == Avail(w.store, key)
    ensures InFlight(r, key) + Live(r.notes, key) <= Avail(w.store, key)
  {
    hide Reaches, Live, Avail;
    RefundsFollow(w, events, r);
    BalancesIff(w, events, r, key);
  }

  // ---------------------------------------------------------------- calls made alone

  /** The counters after a create of one notification whose insert was answered so. */
  function AfterCreate(store: map<string, int>, key: string, stored: bool): map<string, int> {
    var lowered := store[key := Raw(store, key) - 1];
    if 0 <= Raw(lowered, key) && !stored then RefundAll(lowered, [key], [1]) else lowered
  }

  /** The counters after a batch create. */
  function AfterBatch(store: map<string, int>, keys: seq<string>, args: seq<int>, stored: bool): map<string, int>
    requires |keys| == |args|
  {
    if !Covered(store, keys, args) then store
    else if stored then DecrAll(store, keys, args)
    else RefundAll(DecrAll(store, keys, args), keys, args)
  }

  lemma UnitAlone(key: string)
    ensures Charges([key], [1], [key]) && multiset([]) < multiset([key])
    ensures Accept([]) == [] && Accept([key]) == [Note(key, 0, 0)]
  {
    assert [key][..0] == [] && [1][..0] == [];
    assert multiset([key]) == multiset{key};
  }

  /** The units are taken, the insert fails and leaves some rows, and the units come back. */
  lemma GivenBackAlone(w: World, first: Event, taken: World, units: seq<string>, keys: seq<string>, args: seq<int>,
                       left: seq<string>)
      returns (events: seq<Event>, r: World)
    requires Enabled(w, first) && Step(w, first) == taken
    requires taken == w.(store := taken.store, flights := w.flights + [Held(units)])
    requires Charges(keys, args, units) && multiset(left) < multiset(units)
    ensures Reaches(w, events, r)
    ensures r == w.(store := RefundAll(taken.store, keys, args), flights := w.flights + [Over],
                    notes := w.notes + Accept(left), unpaid := w.unpaid + multiset(left))
  {
    hide Charges, RefundAll, Accept;
    var f := |w.flights|;
    var failed := Step(taken, NotKept(f, left));
    assert failed.flights[f] == Failed(units);
    r := Step(failed, GiveBack(f, keys, args));
    assert r.flights == w.flights + [Over];
    hide Enabled, Step;
    Then(failed, GiveBack(f, keys, args), r, [], r);
    Then(taken, NotKept(f, left), failed, [GiveBack(f, keys, args)] + [], r);
    events := [NotKept(f, left)] + ([GiveBack(f, keys, args)] + []);
    Then(w, first, taken, events, r);
    events := [first] + events;
  }

  /** A create nobody interrupts: refused, kept, or given back. */
  lemma SoloCreate(w: World, key: string, stored: bool) returns (events: seq<Event>, r: World)
    requires stored ==> 0 < Avail(w.store, key)
    ensures Reaches(w, events, r)
    ensures r == w.(store := AfterCreate(w.store, key, stored), flights := w.flights + [Over],
                    notes := w.notes + if stored then [Note(key, 0, 0)] else [])
  {
    var f, taken := |w.flights|, Step(w, DecrOne(key));
    UnitAlone(key);
    if taken.flights[f].Over? {
      events, r := [DecrOne(key)], taken;
      Then(w, DecrOne(key), taken, [], r);
    } else if stored {
      r := Step(taken, Kept(f));
      assert taken.flights[f := Over] == w.flights + [Over];
      Then(taken, Kept(f), r, [], r);
      Then(w, DecrOne(key), taken, [Kept(f)] + [], r);
      events := [DecrOne(key)] + ([Kept(f)] + []);
    } else {
      events, r := GivenBackAlone(w, DecrOne(key), taken, [key], [key], [1], []);
    }
  }

  /** A batch create nobody interrupts, of whose rows `left` are in the database afterwards. */
  lemma SoloBatch(w: World, units: seq<string>, keys: seq<string>, args: seq<int>, left: seq<string>)
      returns (events: seq<Event>, r: World)
    requires units != [] && Charges(keys, args, units) && (left == units || multiset(left) < multiset(units))
    requires !Covered(w.store, keys, args) ==> left == []
    ensures Reaches(w, events, r)
    ensures r == w.(store := AfterBatch(w.store, keys, args, left == units), flights := w.flights + [Over],
                    notes := w.notes + Accept(left),
                    unpaid := w.unpaid + if left == units then multiset{} else multiset(left))
  {
    hide Demand, Distinct, Positive, RefundAll, DecrAll, Covered, Accept;
    var first := DecrBatch(units, keys, args);
    var f, taken := |w.flights|, Step(w, first);
    if !Covered(w.store, keys, args) {
      NothingAccepted();
      events, r := [first], taken;
      Then(w, first, taken, [], r);
    } else if left == units {
      r := Step(taken, Kept(f));
      assert taken.flights[f := Over] == w.flights + [Over];
      hide Enabled, Step;
      Then(taken, Kept(f), r, [], r);
      Then(w, first, taken, [Kept(f)] + [], r);
      events := [first] + ([Kept(f)] + []);
    } else {
      events, r := GivenBackAlone(w, first, taken, units, keys, args, left);
    }
  }

  lemma NothingAccepted()
    ensures Accept([]) == []
  {
  }

  /** A mark nobody interrupts, of the note n if the notification is kept, else a stray one. */
  lemma SoloMark(w: World, key: string, n: Option<nat>) returns (events: seq<Event>, r: World)
    requires n.Some? ==> n.value < |w.notes| && w.notes[n.value].key == key
                         && w.notes[n.value].refunds <= w.notes[n.value].marks
    ensures Reaches(w, events, r)
    ensures r == w.(store := RefundAll(w.store, [key], [1]), notes := r.notes, strays := r.strays)
    ensures match n
            case None => r.notes == w.notes && r.strays == w.strays + [Stray(key, true)]
            case Some(i) =>
              && r.strays == w.strays
              && r.notes == w.notes[i := Note(key, w.notes[i].marks + 1, w.notes[i].refunds + 1)]
  {
    hide RefundAll;
    var mark := if n.Some? then Mark(n.value) else MarkStray(key);
    var refund := if n.Some? then RefundMark(n.value) else RefundStray(|w.strays|);
    var marked := Step(w, mark);
    r := Step(marked, refund);
    Then(marked, refund, r, [], r);
    Then(w, mark, marked, [refund] + [], r);
    events := [mark] + ([refund] + []);
  }

  // ---------------------------------------------------------------- the books can go wrong

  /** A world of one counter. */
  ghost function At(key: string, raw: int, flights: seq<Flight>, notes: seq<Note>): World {
    World(map[key := raw], flights, notes, [], multiset{})
  }

  lemma Then(w: World, e: Event, v: World, rest: seq<Event>, r: World)
    requires Enabled(w, e) && Step(w, e) == v && Reaches(v, rest, r)
    ensures Reaches(w, [e] + rest, r)
  {
    assert ([e] + rest)[1..] == rest;
  }

  lemma MarkedTwice(key: string, marked: World)
    requires marked == At(key, 0, [Over], [Note(key, 2, 0)])
    ensures Reaches(At(key, 0, [Over], [Note(key, 0, 0)]), [Mark(0)] + [Mark(0)], marked)
  {
    var once := At(key, 0, [Over], [Note(key, 1, 0)]);
    assert Step(once, Mark(0)) == marked;
    Then(once, Mark(0), marked, [], marked);
    Then(At(key, 0, [Over], [Note(key, 0, 0)]), Mark(0), once, [Mark(0)], marked);
  }

  lemma RefundedTwice(key: string, r: World)
    requires r == At(key, 2, [Over], [Note(key, 2, 2)])
    ensures Reaches(At(key, 0, [Over], [Note(key, 2, 0)]), [RefundMark(0)] + [RefundMark(0)], r)
  {
    var marked, once := At(key, 0, [Over], [Note(key, 2, 0)]), At(key, 1, [Over], [Note(key, 2, 1)]);
    RefundOne(marked.store, key, 1);
    RefundOne(once.store, key, 1);
    assert Step(once, RefundMark(0)) == r;
    assert Step(marked, RefundMark(0)) == once;
    hide Enabled, Step;
    Then(once, RefundMark(0), r, [], r);
    Then(marked, RefundMark(0), once, [RefundMark(0)], r);
  }

  lemma KeptOne(key: string, w: World, kept: World)
    requires w == At(key, 1, [], []) && kept == At(key, 0, [Over], [Note(key, 0, 0)])
    ensures Reaches(w, [DecrOne(key)] + [Kept(0)], kept)
  {
    var held := At(key, 0, [Held([key])], []);
    assert Step(w, DecrOne(key)) == held;
    assert Accept([key]) == [Note(key, 0, 0)];
    assert Step(held, Kept(0)) == kept;
    hide Enabled, Step;
    Then(held, Kept(0), kept, [], kept);
    Then(w, DecrOne(key), held, [Kept(0)], kept);
  }

  lemma {:induction false} ReachesAppend(w: World, first: seq<Event>, v: World, rest: seq<Event>, r: World)
    requires Reaches(w, first, v) && Reaches(v, rest, r)
    ensures Reaches(w, first + rest, r)
    decreases |first|
  {
    hide Enabled, Step;
    if first == [] {
      assert first + rest == rest;
    } else {
      ReachesAppend(Step(w, first[0]), first[1..], v, rest, r);
      assert (first + rest)[1..] == first[1..] + rest;
    }
  }

  /** Marked twice, one notification gives back two units: more becomes available than was granted. */
  lemma DoubleMarkOverpays(key: string) returns (w: World, events: seq<Event>, r: World)
    ensures Fresh(w) && Reaches(w, events, r)
    ensures Avail(w.store, key) == 1 && Avail(r.store, key) == 2
  {
    hide Reaches, Step, Enabled;
    w, r := At(key, 1, [], []), At(key, 2, [Over], [Note(key, 2, 2)]);
    var kept := At(key, 0, [Over], [Note(key, 0, 0)]);
    var marked := At(key, 0, [Over], [Note(key, 2, 0)]);
    KeptOne(key, w, kept);
    MarkedTwice(key, marked);
    RefundedTwice(key, r);
    events := [DecrOne(key)] + [Kept(0)] + ([Mark(0)] + [Mark(0)]);
    ReachesAppend(w, [DecrOne(key)] + [Kept(0)], kept, [Mark(0)] + [Mark(0)], marked);
    ReachesAppend(w, events, marked, [RefundMark(0)] + [RefundMark(0)], r);
    events := events + ([RefundMark(0)] + [RefundMark(0)]);
  }

  /** A notification refused for want of quota and then marked failed makes a unit out of nothing. */
  lemma StrayMarkOverpays(key: string) returns (w: World, events: seq<Event>, r: World)
    ensures Fresh(w) && Reaches(w, events, r) && RefundedOnce(r.notes, key)
    ensures Avail(w.store, key) == 0 && Avail(r.store, key) == 1 && r.notes == []
  {
    w, r := World(map[], [], [], [], multiset{}), World(map[key := 1], [Over], [], [Stray(key, true)], multiset{});
    var refused := At(key, -1, [Over], []);
    var marked := refused.(strays := [Stray(key, false)]);
    RefundOne(marked.store, key, 1);
    assert Step(w, DecrOne(key)) == refused;
    assert Step(refused, MarkStray(key)) == marked;
    assert Step(marked, RefundStray(0)) == r;
    hide Enabled, Step;
    Then(marked, RefundStray(0), r, [], r);
    Then(refused, MarkStray(key), marked, [RefundStray(0)] + [], r);
    events := [MarkStray(key)] + ([RefundStray(0)] + []);
    Then(w, DecrOne(key), refused, events, r);
    events := [DecrOne(key)] + events;
  }

  ghost predicate Pair(key: string, keys: seq<string>, args: seq<int>, units: seq<string>) {
    && |keys| == |args| == 1 && keys[0] == key && args[0] == 2
    && |units| == 2 && units[0] == units[1] == key
  }

  lemma PairEffect(store: map<string, int>, key: string, keys: seq<string>, args: seq<int>, units: seq<string>)
    requires Pair(key, keys, args, units)
    ensures Charges(keys, args, units) && units != []
    ensures RefundAll(store, keys, args) == store[key := Refund(Raw(store, key), 2)]
    ensures DecrAll(store, keys, args) == store[key := Raw(store, key) - 2]
    ensures Covered(store, keys, args) <==> 2 <= Raw(store, key)
  {
    var n := |keys| - 1;
    assert keys[..n] == [] && args[..n] == [];
    assert units == [key, key];
    assert Demand(keys, args) == multiset(units);
  }

  lemma HeldTwo(key: string, keys: seq<string>, args: seq<int>, units: seq<string>, w: World, held: World)
    requires Pair(key, keys, args, units) && w == At(key, 2, [], []) && held == At(key, 0, [Held(units)], [])
    ensures Enabled(w, DecrBatch(units, keys, args)) && Step(w, DecrBatch(units, keys, args)) == held
  {
    hide DecrAll, Charges, RefundAll, Pair, Covered;
    PairEffect(w.store, key, keys, args, units);
    assert w.store[key := 0] == held.store;
  }

  lemma LeftRow(key: string, keys: seq<string>, args: seq<int>, units: seq<string>, held: World, failed: World)
    requires Pair(key, keys, args, units) && held == At(key, 0, [Held(units)], [])
    requires failed == At(key, 0, [Failed(units)], [Note(key, 0, 0)]).(unpaid := multiset{key})
    ensures Enabled(held, NotKept(0, [key])) && Step(held, NotKept(0, [key])) == failed
  {
    assert Accept([key]) == [Note(key, 0, 0)];
    assert units == [key, key];
    assert multiset([key]) + multiset{key} == multiset(units);
  }

  lemma GivenBack(key: string, keys: seq<string>, args: seq<int>, units: seq<string>, failed: World, r: World)
    requires Pair(key, keys, args, units)
    requires failed == At(key, 0, [Failed(units)], [Note(key, 0, 0)]).(unpaid := multiset{key})
    requires r == At(key, 2, [Over], [Note(key, 0, 0)]).(unpaid := multiset{key})
    ensures Enabled(failed, GiveBack(0, keys, args)) && Step(failed, GiveBack(0, keys, args)) == r
  {
    hide DecrAll, Charges, RefundAll, Pair, Covered;
    PairEffect(failed.store, key, keys, args, units);
    assert failed.store[key := 2] == r.store;
  }

  /** A batch of two over two databases, one of which fails: the other row is kept without using a
      unit. */
  lemma LeftRowOversells(key: string) returns (w: World, events: seq<Event>, r: World)
    ensures Fresh(w) && Reaches(w, events, r) && RefundedOnce(r.notes, key) && r.strays == []
    ensures Avail(w.store, key) == Avail(r.store, key) == 2 && Live(r.notes, key) == 1
  {
    hide Enabled, Step;
    var keys, args, units := [key], [2], [key, key];
    w := At(key, 2, [], []);
    var held := At(key, 0, [Held(units)], []);
    var failed := At(key, 0, [Failed(units)], [Note(key, 0, 0)]).(unpaid := multiset{key});
    r := At(key, 2, [Over], [Note(key, 0, 0)]).(unpaid := multiset{key});
    HeldTwo(key, keys, args, units, w, held);
    LeftRow(key, keys, args, units, held, failed);
    GivenBack(key, keys, args, units, failed, r);
    Then(failed, GiveBack(0, keys, args), r, [], r);
    Then(held, NotKept(0, [key]), failed, [GiveBack(0, keys, args)] + [], r);
    events := [NotKept(0, [key])] + ([GiveBack(0, keys, args)] + []);
    Then(w, DecrBatch(units, keys, args), held, events, r);
    events := [DecrBatch(units, keys, args)] + events;
  }
}
