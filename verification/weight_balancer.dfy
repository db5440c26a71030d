/**
 The plain weighted picker (internal/pkg/client/balancer/weight_balancer.go) under concurrency.
 A pick takes one node lock at a time: it visits every node in turn, then lowers the one it chose;
 a completion changes an efficient weight under that node's lock. Any number of picks and
 completions interleave at those points. The current weight of the candidate is read without its
 lock, so it is whatever other picks have made of it.
 */
module WeightBalancer {
  import opened Words
  import opened Sums
  import opened SmoothWeighted
  import opened Uint32Picker

  datatype Node = Node(weight: u32, current: u32, efficient: u32)

  /** Raising: `next` nodes visited so far. Chosen: handed to the caller, completion still to come. */
  datatype Progress =
    | Raising(next: nat, total: u32, selected: nat)
    | Chosen(node: nat)
    | Completed

  /** The error a completion reports. */
  datatype Outcome = NoError | DeadlineOrEof | OtherError

  datatype System = System(nodes: seq<Node>, picks: seq<Progress>)

  datatype Event = Begin | Visit(p: nat) | Lower(p: nat) | Done(p: nat, outcome: Outcome)

  function Build(weights: seq<u32>): System {
    System(seq(|weights|, i requires 0 <= i < |weights| => Node(weights[i], weights[i], 0)), [])
  }

  predicate Enabled(s: System, e: Event) {
    match e
    case Begin => s.nodes != []
    case Visit(p) => p < |s.picks| && s.picks[p].Raising? && s.picks[p].next < |s.nodes|
    case Lower(p) =>
      && p < |s.picks| && s.picks[p].Raising? && s.picks[p].next == |s.nodes|
      && s.picks[p].selected < |s.nodes|
    case Done(p, _) => p < |s.picks| && s.picks[p].Chosen? && s.picks[p].node < |s.nodes|
  }

  function Efficiency(n: Node, outcome: Outcome): u32 {
    match outcome
    case NoError =>
      var raised := Wrap32(n.efficient + 1);
      var twice := Wrap32(n.weight * 2);
      if raised < twice then twice else raised
    case DeadlineOrEof => if 1 < n.efficient then n.efficient - 1 else n.efficient
    case OtherError => n.efficient
  }

  function Visited(n: Node): Node {
    n.(current := Wrap32(n.current + n.efficient))
  }

  /** The first node visited is taken; a later one replaces it only when strictly greater. */
  function Prefer(nodes: seq<Node>, next: nat, selected: nat): nat
    requires next < |nodes|
  {
    if next == 0 then 0
    else if selected < |nodes| && nodes[selected].current < nodes[next].current then next
    else selected
  }

  function Step(s: System, e: Event): System
    requires Enabled(s, e)
  {
    match e
    case Begin => s.(picks := s.picks + [Raising(0, 0, 0)])
    case Visit(p) =>
      var i := s.picks[p].next;
      var nodes := s.nodes[i := Visited(s.nodes[i])];
      var total := Wrap32(s.picks[p].total + s.nodes[i].efficient);
      System(nodes, s.picks[p := Raising(i + 1, total, Prefer(nodes, i, s.picks[p].selected))])
    case Lower(p) =>
      var k := s.picks[p].selected;
      var lowered := s.nodes[k].(current := Wrap32(s.nodes[k].current - s.picks[p].total));
      System(s.nodes[k := lowered], s.picks[p := Chosen(k)])
    case Done(p, outcome) =>
      var k := s.picks[p].node;
      System(s.nodes[k := s.nodes[k].(efficient := Efficiency(s.nodes[k], outcome))], s.picks[p := Completed])
  }

  /** Every state an interleaving can reach. */
  ghost predicate Reaches(s: System, events: seq<Event>, r: System)
    decreases |events|
  {
    if events == [] then r == s
    else Enabled(s, events[0]) && Reaches(Step(s, events[0]), events[1..], r)
  }

  ghost predicate WellFormed(s: System) {
    forall p | 0 <= p < |s.picks| ::
      match s.picks[p]
      case Raising(next, _, selected) => s.nodes != [] && next <= |s.nodes| && selected < |s.nodes|
      case Chosen(node) => node < |s.nodes|
      case Completed => true
  }

  lemma WellFormedStep(s: System, e: Event)
    requires Enabled(s, e) && WellFormed(s)
    ensures WellFormed(Step(s, e)) && |Step(s, e).nodes| == |s.nodes|
  {
    hide Visited, Efficiency, Wrap32;
  }

  /** The range tests in Enabled hold back no event of any reachable state: a pick in progress can
      always visit its next node or lower the selected one, a chosen node can always complete. */
  lemma {:induction false} RangesHold(s: System, events: seq<Event>, r: System)
    requires WellFormed(s) && Reaches(s, events, r)
    ensures WellFormed(r) && |r.nodes| == |s.nodes|
    ensures forall p: nat | p < |r.picks| && r.picks[p].Raising? ::
              if r.picks[p].next < |r.nodes| then Enabled(r, Visit(p)) else Enabled(r, Lower(p))
    ensures forall p: nat, outcome | p < |r.picks| && r.picks[p].Chosen? :: Enabled(r, Done(p, outcome))
    decreases |events|
  {
    hide Step;
    if events != [] {
      WellFormedStep(s, events[0]);
      RangesHold(Step(s, events[0]), events[1..], r);
    }
  }

  // ---------------------------------------------------------------- conservation

  function Currents(nodes: seq<Node>): (r: seq<int>) {
    seq(|nodes|, i requires 0 <= i < |nodes| => nodes[i].current)
  }

  function Efficients(nodes: seq<Node>): (r: seq<u32>) {
    seq(|nodes|, i requires 0 <= i < |nodes| => nodes[i].efficient)
  }

  function Partial(p: Progress): u32 {
    if p.Raising? then p.total else 0
  }

  /** What each pick in flight has added to the nodes and not yet taken back. */
  function Partials(picks: seq<Progress>): (r: seq<int>) {
    seq(|picks|, i requires 0 <= i < |picks| => Partial(picks[i]))
  }

  ghost predicate Conserved(s: System, total: int) {
    Wrap32(Sum(Currents(s.nodes))) == Wrap32(total + Sum(Partials(s.picks)))
  }

  lemma SetNode(nodes: seq<Node>, k: nat, n: Node)
    requires k < |nodes|
    ensures Sum(Currents(nodes[k := n])) == Sum(Currents(nodes)) - nodes[k].current + n.current
  {
    SumUpdate(Currents(nodes), k, n.current);
    assert Currents(nodes[k := n]) == Currents(nodes)[k := n.current];
  }

  lemma SetPick(picks: seq<Progress>, p: nat, q: Progress)
    requires p < |picks|
    ensures Sum(Partials(picks[p := q])) == Sum(Partials(picks)) - Partial(picks[p]) + Partial(q)
  {
    SumUpdate(Partials(picks), p, Partial(q));
    assert Partials(picks[p := q]) == Partials(picks)[p := Partial(q)];
  }

  lemma AddPick(picks: seq<Progress>, q: Progress)
    ensures Sum(Partials(picks + [q])) == Sum(Partials(picks)) + Partial(q)
  {
    SumPush(Partials(picks), Partial(q));
    assert Partials(picks + [q]) == Partials(picks) + [Partial(q)];
  }

  lemma WrapBoth(a: int, b: int, x: int, ax: int, bx: int)
    requires Wrap32(a) == Wrap32(b) && Wrap32(ax) == Wrap32(a + x) && Wrap32(bx) == Wrap32(b + x)
    ensures Wrap32(ax) == Wrap32(bx)
  {
  }

  lemma WrapShift(a: int, was: int, delta: int)
    ensures Wrap32(a - was + Wrap32(was + delta)) == Wrap32(a + delta)
  {
  }

  lemma ConservedStep(s: System, e: Event, total: int)
    requires Enabled(s, e) && Conserved(s, total)
    ensures Conserved(Step(s, e), total)
  {
    hide Sum, Wrap32;
    var r := Step(s, e);
    var before, parts := Sum(Currents(s.nodes)), Sum(Partials(s.picks));
    match e {
      case Begin =>
        AddPick(s.picks, Raising(0, 0, 0));
      case Visit(p) =>
        var i := s.picks[p].next;
        var x := s.nodes[i].efficient;
        SetNode(s.nodes, i, Visited(s.nodes[i]));
        SetPick(s.picks, p, r.picks[p]);
        WrapShift(before, s.nodes[i].current, x);
        WrapShift(total + parts, s.picks[p].total, x);
        WrapBoth(before, total + parts, x, Sum(Currents(r.nodes)), total + Sum(Partials(r.picks)));
      case Lower(p) =>
        var k := s.picks[p].selected;
        var x: int := s.picks[p].total;
        SetNode(s.nodes, k, r.nodes[k]);
        SetPick(s.picks, p, r.picks[p]);
        WrapShift(before, s.nodes[k].current, -x);
        WrapBoth(before, total + parts, -x, Sum(Currents(r.nodes)), total + Sum(Partials(r.picks)));
      case Done(p, outcome) =>
        SetNode(s.nodes, s.picks[p].node, r.nodes[s.picks[p].node]);
        SetPick(s.picks, p, r.picks[p]);
    }
  }

  lemma {:induction false} ConservedRun(s: System, events: seq<Event>, r: System, total: int)
    requires Conserved(s, total) && Reaches(s, events, r)
    ensures Conserved(r, total)
    decreases |events|
  {
    hide Conserved;
    if events != [] {
      ConservedStep(s, events[0], total);
      ConservedRun(Step(s, events[0]), events[1..], r, total);
    }
  }

  /** In every state any interleaving reaches, and whatever the completions reported, the current
      weights sum to the configured weights plus the partial totals in flight, modulo 2^32. */
  lemma WeightConservation(weights: seq<u32>, events: seq<Event>, r: System)
    requires Reaches(Build(weights), events, r)
    ensures Wrap32(Sum(Currents(r.nodes))) == Wrap32(Sum(weights) + Sum(Partials(r.picks)))
  {
    var s := Build(weights);
    assert Currents(s.nodes) == weights;
    ConservedRun(s, events, r, Sum(weights));
  }

  /** Once no pick is between its first visit and its lowering, nothing is left over. */
  lemma QuiescentConservation(weights: seq<u32>, events: seq<Event>, r: System)
    requires Reaches(Build(weights), events, r)
    requires forall i | 0 <= i < |r.picks| :: !r.picks[i].Raising?
    ensures Wrap32(Sum(Currents(r.nodes))) == Wrap32(Sum(weights))
  {
    WeightConservation(weights, events, r);
    AllZero(Partials(r.picks));
  }

  // ---------------------------------------------------------------- an undisturbed pick

  /** k visits of pick p in a row. */
  function Visits(s: System, p: nat, k: nat): (r: System)
    requires s.nodes != [] && p < |s.picks| && s.picks[p] == Raising(0, 0, 0) && k <= |s.nodes|
    ensures |r.nodes| == |s.nodes| && p < |r.picks| && r.picks[p].Raising? && r.picks[p].next == k
    ensures r.picks[p].selected < |s.nodes|
  {
    if k == 0 then s else Step(Visits(s, p, k - 1), Visit(p))
  }

  /** After k visits: the first k nodes are raised and the first greatest of them is selected. */
  ghost predicate HalfRaised(s: System, p: nat, k: nat, r: System) {
    && |r.nodes| == |s.nodes| && p < |r.picks| && k <= |s.nodes|
    && (forall i | k <= i < |s.nodes| :: r.nodes[i] == s.nodes[i])
    && (forall i | 0 <= i < k :: r.nodes[i] == Visited(s.nodes[i]))
    && r.picks[p].Raising? && r.picks[p].next == k
    && r.picks[p].total == Wrap32(Sum(Efficients(s.nodes)[..k]))
    && Leads(r.nodes, k, r.picks[p].selected)
  }

  ghost predicate Leads(nodes: seq<Node>, k: nat, selected: nat) {
    && k <= |nodes|
    && (if k == 0 then selected == 0 else selected < k)
    && (forall i | 0 <= i < k :: nodes[i].current <= nodes[selected].current)
    && (forall i | 0 <= i < selected :: nodes[i].current < nodes[selected].current)
  }

  lemma HalfStep(s: System, p: nat, k: nat, v: System)
    requires k < |s.nodes| && HalfRaised(s, p, k, v)
    ensures Enabled(v, Visit(p)) && HalfRaised(s, p, k + 1, Step(v, Visit(p)))
  {
    hide Sum, Efficients, Wrap32;
    var r := Step(v, Visit(p));
    TotalStep(s.nodes, k);
    LeadsStep(v.nodes, k, v.picks[p].selected);
  }

  lemma TotalStep(nodes: seq<Node>, k: nat)
    requires k < |nodes|
    ensures |Efficients(nodes)| == |nodes|
    ensures Wrap32(Sum(Efficients(nodes)[..k + 1]))
         == Wrap32(Wrap32(Sum(Efficients(nodes)[..k])) + nodes[k].efficient)
  {
    var w := Efficients(nodes);
    assert w[..k + 1] == w[..k] + [w[k]];
    SumPush(w[..k], w[k]);
  }

  lemma LeadsStep(nodes: seq<Node>, k: nat, selected: nat)
    requires k < |nodes| && Leads(nodes, k, selected)
    ensures var r := nodes[k := Visited(nodes[k])]; Leads(r, k + 1, Prefer(r, k, selected))
  {
    hide Visited;
  }

  lemma {:induction false} VisitsRaise(s: System, p: nat, k: nat)
    requires s.nodes != [] && p < |s.picks| && s.picks[p] == Raising(0, 0, 0) && k <= |s.nodes|
    ensures HalfRaised(s, p, k, Visits(s, p, k))
  {
    hide HalfRaised, Step, Enabled;
    if k == 0 {
      NoneRaised(s, p);
    } else {
      VisitsRaise(s, p, k - 1);
      HalfStep(s, p, k - 1, Visits(s, p, k - 1));
    }
  }

  lemma NoneRaised(s: System, p: nat)
    requires s.nodes != [] && p < |s.picks| && s.picks[p] == Raising(0, 0, 0)
    ensures HalfRaised(s, p, 0, s)
  {
  }

  /** A pick nobody interrupts is one step of the uint32 algorithm: same choice, same weights. */
  lemma SoloPick(s: System, p: nat)
    requires s.nodes != [] && p < |s.picks| && s.picks[p] == Raising(0, 0, 0)
    ensures var r := Step(Visits(s, p, |s.nodes|), Lower(p));
            && r.picks[p] == Chosen(Choice32(Efficients(s.nodes), Currents(s.nodes)))
            && Currents(r.nodes) == After32(Efficients(s.nodes), Currents(s.nodes))
  {
    var n, w, cur := |s.nodes|, Efficients(s.nodes), Currents(s.nodes);
    hide Visits, FirstGreatest, Sum, Wrap32;
    VisitsRaise(s, p, n);
    assert w[..n] == w;
    LowerEffect(s, p, Visits(s, p, n));
  }

  lemma LowerEffect(s: System, p: nat, v: System)
    requires s.nodes != [] && HalfRaised(s, p, |s.nodes|, v)
    ensures Enabled(v, Lower(p))
    ensures var r := Step(v, Lower(p));
            && r.picks[p] == Chosen(Choice32(Efficients(s.nodes), Currents(s.nodes)))
            && Currents(r.nodes) == After32(Efficients(s.nodes), Currents(s.nodes))
  {
    hide FirstGreatest, Sum, Wrap32;
    var n, w, cur := |s.nodes|, Efficients(s.nodes), Currents(s.nodes);
    assert w[..n] == w;
    var raised := Raised32(w, cur);
    var k := v.picks[p].selected;
    assert forall i | 0 <= i < n :: raised[i] == v.nodes[i].current;
    assert k == FirstGreatest(raised);
    var r := Step(v, Lower(p));
    assert Currents(r.nodes) == raised[k := Wrap32(raised[k] - Wrap32(Sum(w)))];
  }

  lemma Then(s: System, e: Event, rest: seq<Event>, r: System)
    requires Enabled(s, e) && Reaches(Step(s, e), rest, r)
    ensures Reaches(s, [e] + rest, r)
  {
    assert ([e] + rest)[1..] == rest;
  }

  lemma {:induction false} VisitsRun(s: System, p: nat, k: nat, rest: seq<Event>, r: System)
      returns (events: seq<Event>)
    requires s.nodes != [] && p < |s.picks| && s.picks[p] == Raising(0, 0, 0) && k <= |s.nodes|
    requires Reaches(Visits(s, p, k), rest, r)
    ensures Reaches(s, events, r)
  {
    hide Step, Enabled, Reaches;
    if k == 0 {
      events := rest;
    } else {
      VisitsRaise(s, p, k - 1);
      HalfStep(s, p, k - 1, Visits(s, p, k - 1));
      Then(Visits(s, p, k - 1), Visit(p), rest, r);
      events := VisitsRun(s, p, k - 1, [Visit(p)] + rest, r);
    }
  }

  /** As a run: a pick that begins and is not interrupted hands out the uint32 choice, adds itself to the
      picks and leaves the uint32 weights; all other picks stay as they were. */
  lemma SoloRun(s: System) returns (events: seq<Event>, r: System)
    requires s.nodes != []
    ensures Reaches(s, events, r)
    ensures r.picks == s.picks + [Chosen(Choice32(Efficients(s.nodes), Currents(s.nodes)))]
    ensures Currents(r.nodes) == After32(Efficients(s.nodes), Currents(s.nodes))
  {
    hide Choice32, After32, Currents, Efficients, Visited, Prefer, Wrap32;
    var p, begun := |s.picks|, Step(s, Begin);
    var raised := Visits(begun, p, |s.nodes|);
    VisitsRaise(begun, p, |s.nodes|);
    VisitsOthers(begun, p, |s.nodes|);
    LowerEffect(begun, p, raised);
    SoloPick(begun, p);
    r := Step(raised, Lower(p));
    Then(raised, Lower(p), [], r);
    events := VisitsRun(begun, p, |s.nodes|, [Lower(p)] + [], r);
    Then(s, Begin, events, r);
    events := [Begin] + events;
  }

  lemma {:induction false} VisitsOthers(s: System, p: nat, k: nat)
    requires s.nodes != [] && p < |s.picks| && s.picks[p] == Raising(0, 0, 0) && k <= |s.nodes|
    ensures |Visits(s, p, k).picks| == |s.picks|
    ensures forall q | 0 <= q < |s.picks| && q != p :: Visits(s, p, k).picks[q] == s.picks[q]
  {
    hide Visited, Prefer;
    if k != 0 {
      VisitsOthers(s, p, k - 1);
    }
  }

  // ---------------------------------------------------------------- what completions do

  /** A node after completions of its picks with these outcomes. */
  function Reported(n: Node, outcomes: seq<Outcome>): Node {
    if outcomes == [] then n
    else
      var before := Reported(n, outcomes[..|outcomes| - 1]);
      before.(efficient := Efficiency(before, outcomes[|outcomes| - 1]))
  }

  /** m successes in a row raise a node by m, but to no less than twice its weight after the first. */
  lemma {:induction false} SuccessesRaise(n: Node, outcomes: seq<Outcome>)
    requires outcomes != [] && forall i | 0 <= i < |outcomes| :: outcomes[i] == NoError
    requires n.efficient + |outcomes| < TWO_32 && 2 * n.weight + |outcomes| <= TWO_32
    ensures Reported(n, outcomes).weight == n.weight && Reported(n, outcomes).current == n.current
    ensures n.efficient + |outcomes| <= Reported(n, outcomes).efficient
    ensures 2 * n.weight + |outcomes| - 1 <= Reported(n, outcomes).efficient
    ensures Reported(n, outcomes).efficient == n.efficient + |outcomes|
            || Reported(n, outcomes).efficient == 2 * n.weight + |outcomes| - 1
  {
    var k := |outcomes| - 1;
    var before := Reported(n, outcomes[..k]);
    ReportedLast(n, outcomes);
    hide Efficiency, Reported;
    if k == 0 {
      ReportedNone(n, outcomes[..k]);
    } else {
      SuccessesRaise(n, outcomes[..k]);
    }
    SuccessRaises(before);
  }

  lemma ReportedNone(n: Node, outcomes: seq<Outcome>)
    requires outcomes == []
    ensures Reported(n, outcomes) == n
  {
  }

  lemma ReportedLast(n: Node, outcomes: seq<Outcome>)
    requires outcomes != []
    ensures var before := Reported(n, outcomes[..|outcomes| - 1]);
            Reported(n, outcomes) == before.(efficient := Efficiency(before, outcomes[|outcomes| - 1]))
  {
    hide Efficiency;
  }

  lemma SuccessRaises(n: Node)
    requires n.efficient + 1 < TWO_32 && 2 * n.weight < TWO_32
    ensures Efficiency(n, NoError) == if n.efficient + 1 < 2 * n.weight then 2 * n.weight else n.efficient + 1
  {
  }

  /** m timeouts lower a node by m, but never below one and never from zero; other errors leave it. */
  lemma {:induction false} ErrorsLower(n: Node, outcomes: seq<Outcome>, m: nat)
    requires forall i | 0 <= i < |outcomes| :: outcomes[i] == if i < m then DeadlineOrEof else OtherError
    requires m <= |outcomes|
    ensures Reported(n, outcomes).weight == n.weight && Reported(n, outcomes).current == n.current
    ensures n.efficient == 0 ==> Reported(n, outcomes).efficient == 0
    ensures 0 < n.efficient <= m ==> Reported(n, outcomes).efficient == 1
    ensures m < n.efficient ==> Reported(n, outcomes).efficient == n.efficient - m
  {
    if outcomes != [] {
      var k := |outcomes| - 1;
      ErrorsLower(n, outcomes[..k], if m <= k then m else k);
    }
  }

  /** A completion reports to the node of its pick and to no other. */
  lemma DoneReports(s: System, p: nat, outcome: Outcome)
    requires Enabled(s, Done(p, outcome))
    ensures var r, k := Step(s, Done(p, outcome)), s.picks[p].node;
            && r.nodes[k] == Reported(s.nodes[k], [outcome]) && r.picks == s.picks[p := Completed]
            && |r.nodes| == |s.nodes| && forall i | 0 <= i < |s.nodes| && i != k :: r.nodes[i] == s.nodes[i]
  {
    assert [outcome][..0] == [];
    hide Efficiency;
  }

  // ---------------------------------------------------------------- before the first success

  /** Nodes as built: with no efficient weight yet. Picks in progress follow the greatest weight. */
  ghost predicate Quiet(weights: seq<u32>, s: System) {
    && |s.nodes| == |weights|
    && (forall i | 0 <= i < |weights| :: s.nodes[i] == Node(weights[i], weights[i], 0))
    && (forall p | 0 <= p < |s.picks| ::
          match s.picks[p]
          case Raising(next, total, selected) => s.nodes != [] && total == 0 && Leads(s.nodes, next, selected)
          case Chosen(k) => FirstHeaviest(weights, k)
          case Completed => true)
  }

  ghost predicate FirstHeaviest(weights: seq<u32>, k: nat) {
    && k < |weights| && (forall i | 0 <= i < |weights| :: weights[i] <= weights[k])
    && (forall i | 0 <= i < k :: weights[i] < weights[k])
  }

  lemma QuietStep(weights: seq<u32>, s: System, e: Event)
    requires Quiet(weights, s) && Enabled(s, e) && !(e.Done? && e.outcome.NoError?)
    ensures Quiet(weights, Step(s, e))
  {
    hide Visited, Efficiency, Wrap32;
    match e {
      case Begin =>
      case Visit(p) =>
        var i := s.picks[p].next;
        IdleNode(s.nodes[i], OtherError);
        assert s.nodes[i := s.nodes[i]] == s.nodes;
        LeadsStep(s.nodes, i, s.picks[p].selected);
      case Lower(p) =>
        var k := s.picks[p].selected;
        IdleNode(s.nodes[k], OtherError);
        assert s.nodes[k := s.nodes[k]] == s.nodes;
      case Done(p, outcome) =>
        var k := s.picks[p].node;
        IdleNode(s.nodes[k], outcome);
        assert s.nodes[k := s.nodes[k]] == s.nodes;
    }
  }

  lemma IdleNode(n: Node, outcome: Outcome)
    requires n.efficient == 0 && outcome != NoError
    ensures Visited(n) == n && Efficiency(n, outcome) == 0
    ensures Wrap32(0 + n.efficient) == 0 && Wrap32(n.current - 0) == n.current
  {
  }

  lemma {:induction false} QuietRun(weights: seq<u32>, s: System, events: seq<Event>, r: System)
    requires Quiet(weights, s) && Reaches(s, events, r)
    requires forall e | e in events :: !(e.Done? && e.outcome.NoError?)
    ensures Quiet(weights, r)
    decreases |events|
  {
    hide Quiet, Step, Enabled;
    if events != [] {
      assert events[0] in events;
      QuietStep(weights, s, events[0]);
      QuietRun(weights, Step(s, events[0]), events[1..], r);
    }
  }

  /** Nodes are built without an efficient weight. So until a first pick completes without an error
      nothing rotates: every pick goes to the first node of greatest weight, and no node changes. */
  lemma NoRotationBeforeSuccess(weights: seq<u32>, events: seq<Event>, r: System)
    requires Reaches(Build(weights), events, r)
    requires forall e | e in events :: !(e.Done? && e.outcome.NoError?)
    ensures |r.nodes| == |weights|
    ensures forall i | 0 <= i < |weights| :: r.nodes[i] == Node(weights[i], weights[i], 0)
    ensures forall p | 0 <= p < |r.picks| && r.picks[p].Chosen? ::
              && r.picks[p].node < |weights|
              && (forall i | 0 <= i < |weights| :: weights[i] <= weights[r.picks[p].node])
              && (forall i | 0 <= i < r.picks[p].node :: weights[i] < weights[r.picks[p].node])
  {
    hide Reaches;
    QuietRun(weights, Build(weights), events, r);
  }
}
