/**
 The read/write weighted picker (internal/pkg/client/balancer/rw_weight_balancer.go): nodes are
 updated in place, on uint32 fields, and each group and request kind has weights of its own.
 Pick is proved to be one step of Uint32Picker.Run32 for its group and kind, and to leave every
 other group and the other kind alone.
 */
module RwWeightBalancer {
  import opened Words
  import opened Sums
  import opened SmoothWeighted
  import opened Uint32Picker

  class ServiceNode {
    const readWeight: u32
    var currentReadWeight: u32
    var efficientReadWeight: u32

    const writeWeight: u32
    var currentWriteWeight: u32
    var efficientWriteWeight: u32

    var group: string

    constructor (readWeight: u32, writeWeight: u32, group: string)
      ensures this.readWeight == readWeight && this.writeWeight == writeWeight && this.group == group
      ensures Current(false) == Efficient(false) == readWeight
      ensures Current(true) == Efficient(true) == writeWeight
    {
      this.readWeight, this.currentReadWeight, this.efficientReadWeight := readWeight, readWeight, readWeight;
      this.writeWeight, this.currentWriteWeight, this.efficientWriteWeight := writeWeight, writeWeight, writeWeight;
      this.group := group;
    }

    function Current(write: bool): u32
      reads this
    {
      if write then currentWriteWeight else currentReadWeight
    }

    function Efficient(write: bool): u32
      reads this
    {
      if write then efficientWriteWeight else efficientReadWeight
    }

    /** What a pick for one request kind may not touch. */
    ghost function Rest(write: bool): (u32, u32, u32, string)
      reads this
    {
      (Current(!write), efficientReadWeight, efficientWriteWeight, group)
    }

    /** Adds to the current weight of one request kind, wrapping. */
    method Shift(write: bool, delta: int)
      modifies this
      ensures Rest(write) == old(Rest(write))
      ensures Efficient(write) == old(Efficient(write))
      ensures Current(write) == Wrap32(old(Current(write)) + delta)
    {
      if write {
        currentWriteWeight := Wrap32(currentWriteWeight + delta);
      } else {
        currentReadWeight := Wrap32(currentReadWeight + delta);
      }
    }
  }

  ghost function Currents(ns: seq<ServiceNode>, write: bool): (r: seq<u32>)
    reads ns
    ensures |r| == |ns|
  {
    seq(|ns|, i requires 0 <= i < |ns| reads ns => ns[i].Current(write))
  }

  ghost function Efficients(ns: seq<ServiceNode>, write: bool): (r: seq<u32>)
    reads ns
    ensures |r| == |ns|
  {
    seq(|ns|, i requires 0 <= i < |ns| reads ns => ns[i].Efficient(write))
  }

  ghost function Groups(ns: seq<ServiceNode>): (r: seq<string>)
    reads ns
  {
    seq(|ns|, i requires 0 <= i < |ns| reads ns => ns[i].group)
  }

  /** The nodes listed with that group, in order. */
  ghost function Listed(ns: seq<ServiceNode>, groups: seq<string>, group: Option<string>): (r: seq<ServiceNode>)
    requires |ns| == |groups|
    ensures forall i | 0 <= i < |ns| && group == Some(groups[i]) :: ns[i] in r
    ensures forall n | n in r :: exists i :: 0 <= i < |ns| && ns[i] == n && group == Some(groups[i])
  {
    if ns == [] then []
    else
      var k := |ns| - 1;
      var rest := Listed(ns[..k], groups[..k], group);
      if group == Some(groups[k]) then rest + [ns[k]] else rest
  }

  lemma ListedNone(ns: seq<ServiceNode>, groups: seq<string>, group: Option<string>)
    requires |ns| == |groups|
    ensures Listed(ns[..0], groups[..0], group) == []
  {
  }

  lemma ListedNext(ns: seq<ServiceNode>, groups: seq<string>, group: Option<string>, i: nat)
    requires |ns| == |groups| && i < |ns|
    ensures Listed(ns[..i + 1], groups[..i + 1], group)
         == Listed(ns[..i], groups[..i], group) + (if group == Some(groups[i]) then [ns[i]] else [])
  {
    assert ns[..i + 1][..i] == ns[..i] && groups[..i + 1][..i] == groups[..i];
  }

  /** The nodes of the caller's group, in order; none when the caller named no group. */
  ghost function Candidates(ns: seq<ServiceNode>, group: Option<string>): (r: seq<ServiceNode>)
    reads ns
    ensures forall n | n in ns :: n in r <==> group == Some(n.group)
    ensures forall i | 0 <= i < |r| :: r[i] in ns
  {
    var r := Listed(ns, Groups(ns), group);
    assert forall i | 0 <= i < |r| :: r[i] in r;
    r
  }

  ghost predicate Distinct(ns: seq<ServiceNode>) {
    forall i, j | 0 <= i < j < |ns| :: ns[i] != ns[j]
  }

  // ---------------------------------------------------------------- the loop, node by node

  ghost function EfficientOf(ns: seq<ServiceNode>, write: bool): map<ServiceNode, u32>
    reads ns
  {
    map n | n in ns :: n.Efficient(write)
  }

  ghost function CurrentOf(ns: seq<ServiceNode>, write: bool): map<ServiceNode, u32>
    reads ns
  {
    map n | n in ns :: n.Current(write)
  }

  ghost predicate Covers(cs: seq<ServiceNode>, w: map<ServiceNode, u32>, cur: map<ServiceNode, u32>) {
    forall n | n in cs :: n in w && n in cur
  }

  datatype Visit = Visit(cur: map<ServiceNode, u32>, total: u32, selected: nat)

  function Add32(a: u32, b: u32): (r: u32)
    ensures r == Wrap32(a as int + b as int)
  {
    if a as int + b as int < 0x1_0000_0000 then a as int + b as int else a as int + b as int - 0x1_0000_0000
  }

  function Sub32(a: u32, b: u32): (r: u32)
    ensures r == Wrap32(a as int - b as int)
  {
    if b <= a then a as int - b as int else a as int - b as int + 0x1_0000_0000
  }

  /** After the first i list entries, repeated nodes included. */
  ghost function Visited(cs: seq<ServiceNode>, w: map<ServiceNode, u32>, cur: map<ServiceNode, u32>, i: nat): (v: Visit)
    requires cs != [] && Covers(cs, w, cur) && i <= |cs|
    ensures Covers(cs, w, v.cur) && v.selected < |cs|
  {
    if i == 0 then Visit(cur, 0, 0)
    else
      var v, n := Visited(cs, w, cur, i - 1), cs[i - 1];
      var raised := v.cur[n := Add32(v.cur[n], w[n])];
      Visit(raised, Add32(v.total, w[n]), if raised[cs[v.selected]] < raised[n] then i - 1 else v.selected)
  }

  /** All visited and the selected node lowered. */
  ghost function Lowered(cs: seq<ServiceNode>, w: map<ServiceNode, u32>, cur: map<ServiceNode, u32>)
    : (r: map<ServiceNode, u32>)
    requires cs != [] && Covers(cs, w, cur)
    ensures Covers(cs, w, r)
  {
    var v := Visited(cs, w, cur, |cs|);
    v.cur[cs[v.selected] := Sub32(v.cur[cs[v.selected]], v.total)]
  }

  /** One visit: entry i of the list, from v to r. */
  ghost predicate Follows(cs: seq<ServiceNode>, w: map<ServiceNode, u32>, i: nat, v: Visit, r: Visit) {
    && i < |cs| && v.selected < |cs| && r.selected < |cs| && Covers(cs, w, v.cur) && Covers(cs, w, r.cur)
    && var n := cs[i];
       && r.cur[n] == Add32(v.cur[n], w[n]) && r.total == Add32(v.total, w[n])
       && (forall m | m in cs && m != n :: r.cur[m] == v.cur[m])
       && r.selected == if r.cur[cs[v.selected]] < r.cur[n] then i else v.selected
  }

  lemma VisitNone(cs: seq<ServiceNode>, w: map<ServiceNode, u32>, cur: map<ServiceNode, u32>)
    requires cs != [] && Covers(cs, w, cur)
    ensures Visited(cs, w, cur, 0) == Visit(cur, 0, 0) && forall n | n in cs :: n in cur
  {
  }

  lemma VisitNext(cs: seq<ServiceNode>, w: map<ServiceNode, u32>, cur: map<ServiceNode, u32>, i: nat)
    requires cs != [] && Covers(cs, w, cur) && i < |cs|
    ensures Follows(cs, w, i, Visited(cs, w, cur, i), Visited(cs, w, cur, i + 1))
  {
    hide Add32;
  }

  /** The first i nodes are raised. */
  ghost predicate NodesRaised(cs: seq<ServiceNode>, v: Visit, w: seq<u32>, cur: seq<u32>, i: nat) {
    && |cs| == |w| == |cur| && i <= |cs|
    && (forall j | 0 <= j < |cs| :: cs[j] in v.cur && v.cur[cs[j]] == if j < i then Add32(cur[j], w[j]) else cur[j])
  }

  /** Without repetition: the first i nodes are raised and the first greatest of them is selected. */
  ghost predicate HalfRaised(cs: seq<ServiceNode>, v: Visit, w: seq<u32>, cur: seq<u32>, i: nat) {
    && NodesRaised(cs, v, w, cur, i)
    && v.total == Wrap32(Sum(w[..i]))
    && LeadsUpTo(Raised32(w, cur), i, v.selected)
  }

  lemma TotalNext(w: seq<u32>, i: nat)
    requires i < |w|
    ensures Wrap32(Sum(w[..i + 1])) == Add32(Wrap32(Sum(w[..i])), w[i])
  {
    SumPrefix(w, i);
  }

  lemma RaisedAre(w: seq<u32>, cur: seq<u32>)
    requires |w| == |cur|
    ensures |Raised32(w, cur)| == |w| && forall j | 0 <= j < |w| :: Raised32(w, cur)[j] == Add32(cur[j], w[j])
  {
  }

  lemma NodesRaisedNext(cs: seq<ServiceNode>, wm: map<ServiceNode, u32>, w: seq<u32>, cur: seq<u32>, i: nat,
                        v: Visit, r: Visit)
    requires i < |cs| == |w| && NodesRaised(cs, v, w, cur, i) && Follows(cs, wm, i, v, r)
    requires Distinct(cs) && wm[cs[i]] == w[i]
    ensures NodesRaised(cs, r, w, cur, i + 1)
  {
    hide Add32;
    forall j | 0 <= j < |cs|
      ensures cs[j] in r.cur && r.cur[cs[j]] == if j < i + 1 then Add32(cur[j], w[j]) else cur[j]
    {
      assert cs[j] in cs;
    }
  }

  lemma HalfRaisedNone(cs: seq<ServiceNode>, v: Visit, w: seq<u32>, cur: seq<u32>)
    requires |cs| == |w| == |cur| && v.total == 0 && v.selected == 0
    requires forall j | 0 <= j < |cs| :: cs[j] in v.cur && v.cur[cs[j]] == cur[j]
    ensures HalfRaised(cs, v, w, cur, 0)
  {
    SumPrefix(w, 0);
    LeadStart(Raised32(w, cur));
  }

  lemma {:induction false} VisitedHalfRaised(cs: seq<ServiceNode>, wm: map<ServiceNode, u32>,
                                             curm: map<ServiceNode, u32>, w: seq<u32>, cur: seq<u32>, i: nat)
    requires cs != [] && Distinct(cs) && Covers(cs, wm, curm) && |cs| == |w| == |cur| && i <= |cs|
    requires forall j | 0 <= j < |cs| :: wm[cs[j]] == w[j] && curm[cs[j]] == cur[j]
    ensures HalfRaised(cs, Visited(cs, wm, curm, i), w, cur, i)
  {
    hide Visited, Distinct, Wrap32, Sum, Add32, Raised32;
    VisitNone(cs, wm, curm);
    if i == 0 {
      HalfRaisedNone(cs, Visited(cs, wm, curm, i), w, cur);
    } else {
      var v := Visited(cs, wm, curm, i - 1);
      VisitedHalfRaised(cs, wm, curm, w, cur, i - 1);
      VisitNext(cs, wm, curm, i - 1);
      NodesRaisedNext(cs, wm, w, cur, i - 1, v, Visited(cs, wm, curm, i));
      TotalNext(w, i - 1);
      RaisedAre(w, cur);
      LeadStep(Raised32(w, cur), i - 1, v.selected);
    }
  }

  /** Without repetition the loop and the lowering are one step of the uint32 algorithm. */
  lemma DistinctIsOneStep(cs: seq<ServiceNode>, wm: map<ServiceNode, u32>, curm: map<ServiceNode, u32>,
                          w: seq<u32>, cur: seq<u32>)
    requires cs != [] && Distinct(cs) && Covers(cs, wm, curm) && |cs| == |w| == |cur|
    requires forall j | 0 <= j < |cs| :: wm[cs[j]] == w[j] && curm[cs[j]] == cur[j]
    ensures Visited(cs, wm, curm, |cs|).selected == Choice32(w, cur)
    ensures forall j | 0 <= j < |cs| ::
              cs[j] in Lowered(cs, wm, curm) && Lowered(cs, wm, curm)[cs[j]] == After32(w, cur)[j]
  {
    VisitedHalfRaised(cs, wm, curm, w, cur, |cs|);
    LoweredIsAfter(cs, Visited(cs, wm, curm, |cs|), w, cur, Lowered(cs, wm, curm));
    hide HalfRaised, Visited, Lowered;
    assert forall j | 0 <= j < |cs| :: cs[j] in cs;
  }

  lemma LoweredIsAfter(cs: seq<ServiceNode>, v: Visit, w: seq<u32>, cur: seq<u32>, r: map<ServiceNode, u32>)
    requires cs != [] && Distinct(cs) && HalfRaised(cs, v, w, cur, |cs|) && v.selected < |cs|
    requires r == v.cur[cs[v.selected] := Sub32(v.cur[cs[v.selected]], v.total)]
    ensures v.selected == Choice32(w, cur)
    ensures forall j | 0 <= j < |cs| :: cs[j] in r && r[cs[j]] == After32(w, cur)[j]
  {
    assert w[..|w|] == w;
    hide Wrap32, Sum, FirstGreatest, Add32, Raised32;
    RaisedAre(w, cur);
    LeaderIsChoice(w, cur, v.selected);
  }

  // ---------------------------------------------------------------- many picks

  /** How often each node was picked. */
  ghost predicate Served(cs: seq<ServiceNode>, log: seq<ServiceNode>, picks: seq<nat>) {
    |picks| == |cs| && forall i | 0 <= i < |cs| :: multiset(log)[cs[i]] == picks[i]
  }

  lemma NoPicksYet(cs: seq<ServiceNode>, w: seq<u32>)
    requires cs != [] && |w| == |cs|
    ensures Served(cs, [], Run32(w, 0).picks) && Run32(w, 0).cur == w
  {
  }

  lemma OneMoreServed(cs: seq<ServiceNode>, log: seq<ServiceNode>, w: seq<u32>, s: State, picked: ServiceNode)
    requires cs != [] && Distinct(cs) && |w| == |cs| && Fits(w, s) && Served(cs, log, s.picks)
    requires picked == cs[Choice32(w, s.cur)]
    ensures Served(cs, log + [picked], Pick32(w, s).picks) && Pick32(w, s).cur == After32(w, s.cur)
  {
    hide FirstGreatest, Raised32, Sum, Choice32, After32;
    assert multiset(log + [picked]) == multiset(log) + multiset{picked};
  }

  class Balancer {
    const nodes: seq<ServiceNode>

    constructor (nodes: seq<ServiceNode>)
      ensures this.nodes == nodes
    {
      this.nodes := nodes;
    }

    /** A request without a type counts as a read. */
    static function IsWriteReq(reqType: Option<int>): bool {
      reqType == Some(1)
    }

    /** idx says where in the node list each entry stands: exactly the places of the caller's group, in
        order, each once. */
    ghost predicate Placed(group: Option<string>, found: seq<ServiceNode>, idx: seq<nat>)
      reads nodes
    {
      && |idx| == |found|
      && (forall k | 0 <= k < |idx| :: idx[k] < |nodes| && found[k] == nodes[idx[k]])
      && (forall k, m | 0 <= k < m < |idx| :: idx[k] < idx[m])
      && (forall i: nat | i < |nodes| :: i in idx <==> group == Some(nodes[i].group))
    }

    method FindCandidates(group: Option<string>) returns (found: seq<ServiceNode>, ghost idx: seq<nat>)
      ensures found == Candidates(nodes, group)
      ensures Placed(group, found, idx)
      ensures Distinct(nodes) ==> Distinct(found)
    {
      hide Listed;
      found, idx := [], [];
      ListedNone(nodes, Groups(nodes), group);
      for i := 0 to |nodes|
        invariant found == Listed(nodes[..i], Groups(nodes)[..i], group)
        invariant |idx| == |found| && forall k | 0 <= k < |idx| :: idx[k] < i && found[k] == nodes[idx[k]]
        invariant forall k, m | 0 <= k < m < |idx| :: idx[k] < idx[m]
        invariant forall j: nat | j < i :: j in idx <==> group == Some(nodes[j].group)
      {
        ListedNext(nodes, Groups(nodes), group, i);
        if group == Some(nodes[i].group) {
          found, idx := found + [nodes[i]], idx + [i];
        }
      }
      assert nodes[..|nodes|] == nodes && Groups(nodes)[..|nodes|] == Groups(nodes);
    }

    /** The loop over the candidates: raises every one, adds up the total, keeps the first greatest. */
    static method Accumulate(cs: seq<ServiceNode>, write: bool, ghost w: map<ServiceNode, u32>,
                             ghost cur: map<ServiceNode, u32>)
      returns (totalWeight: u32, selected: nat)
      requires cs != [] && Covers(cs, w, cur)
      requires forall n | n in cs :: n.Efficient(write) == w[n] && n.Current(write) == cur[n]
      modifies cs
      ensures totalWeight == Visited(cs, w, cur, |cs|).total && selected == Visited(cs, w, cur, |cs|).selected
      ensures forall n | n in cs ::
                n.Rest(write) == old(n.Rest(write)) && n.Current(write) == Visited(cs, w, cur, |cs|).cur[n]
    {
      hide Visited, Wrap32;
      totalWeight, selected := 0, 0;
      VisitNone(cs, w, cur);
      for i := 0 to |cs|
        invariant totalWeight == Visited(cs, w, cur, i).total && selected == Visited(cs, w, cur, i).selected
        invariant forall n | n in cs :: n.Rest(write) == old(n.Rest(write)) && n.Efficient(write) == w[n]
        invariant forall n | n in cs ::
                    n in Visited(cs, w, cur, i).cur && n.Current(write) == Visited(cs, w, cur, i).cur[n]
      {
        hide Visited, Wrap32;
        VisitNext(cs, w, cur, i);
        var node := cs[i];
        var weight := node.Efficient(write);
        totalWeight := Wrap32(totalWeight + weight);
        node.Shift(write, weight);
        // The first node meets itself here and stays selected.
        if cs[selected].Current(write) < node.Current(write) {
          selected := i;
        }
      }
    }

    /** Raises every candidate and lowers the selected one by the total. */
    static method Lower(cs: seq<ServiceNode>, write: bool, ghost w: map<ServiceNode, u32>,
                        ghost cur: map<ServiceNode, u32>) returns (selected: nat)
      requires cs != [] && Covers(cs, w, cur)
      requires forall n | n in cs :: n.Efficient(write) == w[n] && n.Current(write) == cur[n]
      modifies cs
      ensures selected == Visited(cs, w, cur, |cs|).selected
      ensures forall n | n in cs :: n.Rest(write) == old(n.Rest(write)) && n.Current(write) == Lowered(cs, w, cur)[n]
    {
      hide Visited, Wrap32;
      var totalWeight;
      totalWeight, selected := Accumulate(cs, write, w, cur);
      var lower: int := totalWeight;
      cs[selected].Shift(write, -lower);
    }

    static method Select(cs: seq<ServiceNode>, write: bool) returns (selected: nat)
      requires cs != []
      modifies cs
      ensures var w, cur := old(EfficientOf(cs, write)), old(CurrentOf(cs, write));
              && selected == Visited(cs, w, cur, |cs|).selected
              && forall n | n in cs :: n.Current(write) == Lowered(cs, w, cur)[n]
      ensures Distinct(cs) ==>
                && selected == Choice32(old(Efficients(cs, write)), old(Currents(cs, write)))
                && Currents(cs, write) == After32(old(Efficients(cs, write)), old(Currents(cs, write)))
      ensures forall n | n in cs :: n.Rest(write) == old(n.Rest(write))
    {
      hide Visited, Lowered, Choice32, After32, Distinct;
      ghost var w, cur := EfficientOf(cs, write), CurrentOf(cs, write);
      ghost var ws, curs := Efficients(cs, write), Currents(cs, write);
      selected := Lower(cs, write, w, cur);
      if Distinct(cs) {
        DistinctIsOneStep(cs, w, cur, ws, curs);
        assert forall j | 0 <= j < |cs| :: cs[j] in cs;
        assert Currents(cs, write) == After32(ws, curs);
      }
    }

    /** Null stands for ErrNoSubConnAvailable. A node may be listed more than once: it is then visited
        as often. With no repetition a pick is one step of the uint32 algorithm. */
    method Pick(group: Option<string>, reqType: Option<int>) returns (picked: ServiceNode?)
      modifies nodes
      ensures picked == null <==> old(Candidates(nodes, group)) == []
      ensures picked != null ==>
                var cs, write := old(Candidates(nodes, group)), IsWriteReq(reqType);
                var w, cur := old(EfficientOf(cs, write)), old(CurrentOf(cs, write));
                && picked == cs[Visited(cs, w, cur, |cs|).selected]
                && forall n | n in cs :: n.Current(write) == Lowered(cs, w, cur)[n]
      ensures picked != null && old(Distinct(Candidates(nodes, group))) ==>
                var cs, write := old(Candidates(nodes, group)), IsWriteReq(reqType);
                var w, cur := old(Efficients(cs, write)), old(Currents(cs, write));
                && Currents(cs, write) == After32(w, cur)
                && picked == cs[Choice32(w, cur)]
      ensures Candidates(nodes, group) == old(Candidates(nodes, group))
      ensures var cs, write := old(Candidates(nodes, group)), IsWriteReq(reqType);
              Efficients(cs, write) == old(Efficients(cs, write))
      ensures forall n | n in nodes && n !in old(Candidates(nodes, group)) :: unchanged(n)
      ensures forall n | n in nodes :: n.Rest(IsWriteReq(reqType)) == old(n.Rest(IsWriteReq(reqType)))
      ensures reqType == Some(1) ==> forall n | n in nodes :: n.currentReadWeight == old(n.currentReadWeight)
      ensures reqType != Some(1) ==> forall n | n in nodes :: n.currentWriteWeight == old(n.currentWriteWeight)
    {
      hide After32, Choice32, Visited, Lowered, Distinct, Listed, Placed;
      picked := null;
      var cs, idx := FindCandidates(group);
      if |cs| == 0 {
        return;
      }
      ghost var write := IsWriteReq(reqType);
      ghost var groups, ws := Groups(nodes), Efficients(cs, write);
      var selected := Select(cs, IsWriteReq(reqType));
      picked := cs[selected];
      forall n | n in nodes
        ensures n.group == old(n.group) && n.Rest(write) == old(n.Rest(write))
        ensures n.Efficient(write) == old(n.Efficient(write))
      {
        assert n in cs ==> n.Rest(write) == old(n.Rest(write));
      }
      assert Groups(nodes) == groups;
      assert Efficients(cs, write) == ws;
    }

    /** The candidates and their weights as the pick times to come find them: cs are the candidates,
        w their efficient weights, and u picks have been made since the weights were set up. */
    ghost predicate Poised(cs: seq<ServiceNode>, group: Option<string>, write: bool, w: seq<u32>, u: nat)
      reads this, nodes, cs
    {
      && Candidates(nodes, group) == cs && cs != [] && Distinct(cs) && |w| == |cs|
      && Efficients(cs, write) == w && Currents(cs, write) == Run32(w, u).cur
    }

    method PickAgain(group: Option<string>, reqType: Option<int>, ghost cs: seq<ServiceNode>, ghost w: seq<u32>,
                     ghost u: nat) returns (picked: ServiceNode)
      requires Poised(cs, group, IsWriteReq(reqType), w, u)
      modifies nodes
      ensures Poised(cs, group, IsWriteReq(reqType), w, u + 1)
      ensures picked == cs[Choice32(w, Run32(w, u).cur)]
    {
      hide Candidates, Distinct, Currents, Efficients, Run32, Choice32, After32;
      var p := Pick(group, reqType);
      picked := p;
      Run32Step(w, u + 1);
      PickedCur(w, Run32(w, u));
    }

    /** t picks in a row by one kind of caller, on nodes whose current weights are as they were built. */
    method PickTimes(t: nat, group: Option<string>, reqType: Option<int>) returns (log: seq<ServiceNode>)
      requires Candidates(nodes, group) != [] && Distinct(Candidates(nodes, group))
      requires var cs, write := Candidates(nodes, group), IsWriteReq(reqType);
               Currents(cs, write) == Efficients(cs, write)
      modifies nodes
      ensures var cs, write := old(Candidates(nodes, group)), IsWriteReq(reqType);
              var w := old(Efficients(cs, write));
              && |log| == t && Candidates(nodes, group) == cs && Efficients(cs, write) == w
              && Currents(cs, write) == Run32(w, t).cur
              && forall i | 0 <= i < |cs| :: multiset(log)[cs[i]] == Run32(w, t).picks[i]
    {
      hide Candidates, Distinct, Currents, Efficients, Run32;
      ghost var cs, write := Candidates(nodes, group), IsWriteReq(reqType);
      ghost var w := Efficients(cs, write);
      log := [];
      NoPicksYet(cs, w);
      for u := 0 to t
        invariant |log| == u && Poised(cs, group, write, w, u)
        invariant Served(cs, log, Run32(w, u).picks)
      {
        hide *;
        ShapeOf(cs, group, write, w, u);
        var picked := PickAgain(group, reqType, cs, w, u);
        Run32Step(w, u + 1);
        OneMoreServed(cs, log, w, Run32(w, u), picked);
        log := log + [picked];
      }
    }

    lemma ShapeOf(cs: seq<ServiceNode>, group: Option<string>, write: bool, w: seq<u32>, u: nat)
      requires Poised(cs, group, write, w, u)
      ensures cs != [] && Distinct(cs) && |w| == |cs|
    {
    }
  }

  lemma PickedCur(w: seq<u32>, s: State)
    requires Fits(w, s)
    ensures Pick32(w, s).cur == After32(w, s.cur)
  {
  }

  lemma SumPrefix(w: seq<u32>, i: nat)
    requires i <= |w|
    ensures Wrap32(Sum(w[..0])) == 0 && w[..|w|] == w
    ensures i < |w| ==> Wrap32(Sum(w[..i + 1])) == Wrap32(Wrap32(Sum(w[..i])) + w[i])
  {
    if i < |w| {
      assert w[..i + 1] == w[..i] + [w[i]];
      SumPush(w[..i], w[i]);
    }
  }

  /** k is the first greatest of the first n elements; 0 when there is none yet. */
  ghost predicate LeadsUpTo(s: seq<int>, n: nat, k: nat) {
    && n <= |s|
    && (if n == 0 then k == 0 else k < n)
    && (forall i | 0 <= i < n :: s[i] <= s[k])
    && (forall i | 0 <= i < k :: s[i] < s[k])
  }

  lemma LeadStart(s: seq<int>)
    ensures LeadsUpTo(s, 0, 0)
  {
  }

  lemma LeadStep(s: seq<int>, n: nat, k: nat)
    requires n < |s| && k < |s| && LeadsUpTo(s, n, k)
    ensures if n == 0 then k == 0 else k < n
    ensures LeadsUpTo(s, n + 1, if s[k] < s[n] then n else k)
  {
  }

  lemma LeaderIsChoice(w: seq<u32>, cur: seq<int>, k: nat)
    requires w != [] && |cur| == |w| && LeadsUpTo(Raised32(w, cur), |w|, k)
    ensures k == Choice32(w, cur)
  {
  }
}
