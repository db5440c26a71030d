/**
 The consistent-hash picker (internal/pkg/client/balancer/consistent_hash_balancer.go): parallel
 arrays of ring hashes and node addresses, kept sorted by an unstable index sort and searched by
 bisection. Its abstract value is the list of addresses added and not removed.
 */
module ConsistentHash {
  import opened Words
  import opened Decimals
  import opened HashRing
  import Snowflake

  type SubConn = nat

  // ---------------------------------------------------------------- the library sort

  function Identity(n: nat): (s: seq<nat>) {
    seq(n, i => i)
  }

  /** sort.Slice on the index slice: some permutation that orders the keys. Callers see this
      contract only, so equal keys may come in any order. */
  method SortIndices(keys: seq<u32>) returns (indices: seq<nat>)
    ensures multiset(indices) == multiset(Identity(|keys|))
    ensures OrderedBy(keys, indices, |keys|)
  {
    indices := [];
    for n := 0 to |keys|
      invariant multiset(indices) == multiset(Identity(n))
      invariant OrderedBy(keys, indices, n)
    {
      var p := 0;
      while p < |indices| && keys[indices[p]] < keys[n]
        invariant 0 <= p <= |indices|
        invariant forall i | 0 <= i < p :: keys[indices[i]] < keys[n]
      {
        p := p + 1;
      }
      InsertedMultiset(indices, p, n);
      InsertedOrder(keys, indices, p, n);
      indices := Inserted(indices, p, n);
    }
  }

  function Inserted(indices: seq<nat>, p: nat, n: nat): (r: seq<nat>)
    requires p <= |indices|
    ensures |r| == |indices| + 1
    ensures forall i | 0 <= i < p :: r[i] == indices[i]
    ensures r[p] == n
    ensures forall i | p < i < |r| :: r[i] == indices[i - 1]
  {
    indices[..p] + [n] + indices[p..]
  }

  lemma InsertedMultiset(indices: seq<nat>, p: nat, n: nat)
    requires p <= |indices| && multiset(indices) == multiset(Identity(n))
    ensures multiset(Inserted(indices, p, n)) == multiset(Identity(n + 1))
  {
    assert indices == indices[..p] + indices[p..];
    assert Identity(n + 1) == Identity(n) + [n];
  }

  ghost predicate OrderedBy(keys: seq<u32>, indices: seq<nat>, n: nat) {
    && n <= |keys|
    && (forall i | 0 <= i < |indices| :: indices[i] < n)
    && (forall i, j | 0 <= i < j < |indices| :: keys[indices[i]] <= keys[indices[j]])
  }

  lemma InsertedOrder(keys: seq<u32>, indices: seq<nat>, p: nat, n: nat)
    requires n < |keys| && p <= |indices| && OrderedBy(keys, indices, n)
    requires forall i | 0 <= i < p :: keys[indices[i]] < keys[n]
    requires p < |indices| ==> keys[n] <= keys[indices[p]]
    ensures OrderedBy(keys, Inserted(indices, p, n), n + 1)
  {
    var r := Inserted(indices, p, n);
    hide Inserted;
    forall i, j | 0 <= i < j < |r|
      ensures keys[r[i]] <= keys[r[j]]
    {
      if p < j {
        assert p < j - 1 ==> keys[indices[p]] <= keys[indices[j - 1]];
        assert r[j] == indices[j - 1];
      }
    }
  }

  function Gather(es: seq<VNode>, indices: seq<nat>): (r: seq<VNode>)
    requires forall i | 0 <= i < |indices| :: indices[i] < |es|
  {
    seq(|indices|, i requires 0 <= i < |indices| => es[indices[i]])
  }

  lemma {:induction false} GatherSame(es: seq<VNode>, a: seq<nat>, b: seq<nat>)
    requires multiset(a) == multiset(b)
    requires forall i | 0 <= i < |a| :: a[i] < |es|
    requires forall i | 0 <= i < |b| :: b[i] < |es|
    ensures multiset(Gather(es, a)) == multiset(Gather(es, b))
    decreases |a|
  {
    hide Gather;
    if a == [] {
      assert |b| == |multiset(a)|;
    } else {
      var k := FindIndex(a, b);
      GatherSame(es, a[1..], b[..k] + b[k + 1..]);
      GatherSplit(es, a, 0);
      GatherSplit(es, b, k);
      assert a[..0] + a[1..] == a[1..];
    }
  }

  lemma FindIndex(a: seq<nat>, b: seq<nat>) returns (k: nat)
    requires a != [] && multiset(a) == multiset(b)
    ensures k < |b| && b[k] == a[0]
    ensures multiset(a[1..]) == multiset(b[..k] + b[k + 1..])
  {
    WithoutOne(a, 0);
    assert a[..0] + a[1..] == a[1..];
    assert a[0] in multiset(b);
    k :| 0 <= k < |b| && b[k] == a[0];
    WithoutOne(b, k);
  }

  lemma WithoutOne(s: seq<nat>, k: nat)
    requires k < |s|
    ensures multiset(s[..k] + s[k + 1..]) == multiset(s) - multiset{s[k]}
  {
    assert s == s[..k] + [s[k]] + s[k + 1..];
  }

  lemma GatherSplit(es: seq<VNode>, a: seq<nat>, k: nat)
    requires k < |a| && forall i | 0 <= i < |a| :: a[i] < |es|
    ensures multiset(Gather(es, a)) == multiset(Gather(es, a[..k] + a[k + 1..])) + multiset{es[a[k]]}
  {
    var g, r := Gather(es, a), Gather(es, a[..k] + a[k + 1..]);
    assert g == g[..k] + [g[k]] + g[k + 1..];
    assert r == g[..k] + g[k + 1..];
  }

  lemma GatherPermutes(es: seq<VNode>, indices: seq<nat>)
    requires multiset(indices) == multiset(Identity(|es|))
    requires forall i | 0 <= i < |indices| :: indices[i] < |es|
    ensures multiset(Gather(es, indices)) == multiset(es)
  {
    GatherSame(es, indices, Identity(|es|));
    assert Gather(es, Identity(|es|)) == es;
  }

  // ---------------------------------------------------------------- the balancer

  function Zip(ring: seq<u32>, nodes: seq<string>): (es: seq<VNode>)
    requires |ring| == |nodes|
    ensures |es| == |ring|
    ensures forall i | 0 <= i < |es| :: es[i] == VNode(ring[i], nodes[i])
  {
    seq(|ring|, i requires 0 <= i < |ring| => VNode(ring[i], nodes[i]))
  }

  /** The parallel arrays hold exactly the virtual nodes of the live addresses, in ring order. */
  ghost predicate Represents(c: Hashing, ring: seq<u32>, nodes: seq<string>, live: seq<string>) {
    && |ring| == |nodes|
    && Sorted(Zip(ring, nodes))
    && multiset(Zip(ring, nodes)) == c.Expected(live)
  }

  datatype PickResult = Conn(cc: SubConn) | NoSubConnAvailable | BizIdNotFound | BizKeyNotFound

  class CHBalancer {
    const hashing: Hashing
    var ccs: map<string, SubConn>
    var ring: seq<u32>
    var nodes: seq<string>

    /** The addresses added and not removed, oldest first. */
    ghost var live: seq<string>

    ghost predicate Valid()
      reads this
    {
      && 0 < hashing.count
      && Represents(hashing, ring, nodes, live)
      && (forall a :: a in ccs <==> a in live)
    }

    constructor (hashing: Hashing)
      requires 0 < hashing.count
      ensures Valid() && live == [] && this.hashing == hashing
    {
      this.hashing := hashing;
      this.ccs, this.ring, this.nodes, this.live := map[], [], [], [];
      new;
      NothingLive(hashing, "");
    }

    method AddNode(cc: SubConn, addr: string)
      requires Valid()
      modifies this
      ensures Valid() && live == old(live) + [addr]
      ensures ccs == old(ccs)[addr := cc]
    {
      hide Sorted, Hashing.Expected, Numeral;
      ccs := ccs[addr := cc];
      ghost var es := Zip(ring, nodes);
      for i := 0 to hashing.count
        invariant |ring| == |nodes|
        invariant Zip(ring, nodes) == es + hashing.VNodes(addr, i)
        invariant ccs == old(ccs)[addr := cc] && live == old(live)
      {
        var hash := hashing.hash(addr + "#" + Numeral(i));
        ring := ring + [hash];
        nodes := nodes + [addr];
        assert Zip(ring, nodes) == es + (hashing.VNodes(addr, i) + [hashing.VNodeAt(addr, i)]);
      }
      SortRing();
      live := live + [addr];
      ExpectedPush(hashing, old(live), addr);
    }

    method SortRing()
      requires |ring| == |nodes|
      modifies this`ring, this`nodes
      ensures |ring| == |nodes| && Sorted(Zip(ring, nodes))
      ensures multiset(Zip(ring, nodes)) == multiset(old(Zip(ring, nodes)))
    {
      var indices := SortIndices(ring);
      ghost var es := Zip(ring, nodes);
      var sortedRing, sortedNodes := [], [];
      for i := 0 to |indices|
        invariant |sortedRing| == |sortedNodes| == i
        invariant forall k | 0 <= k < i ::
                    sortedRing[k] == ring[indices[k]] && sortedNodes[k] == nodes[indices[k]]
        modifies {}
      {
        sortedRing := sortedRing + [ring[indices[i]]];
        sortedNodes := sortedNodes + [nodes[indices[i]]];
      }
      assert Zip(sortedRing, sortedNodes) == Gather(es, indices);
      GatherPermutes(es, indices);
      ring, nodes := sortedRing, sortedNodes;
    }

    /** False stands for the run-time panic of allocating a slice of negative capacity, which an
        empty ring provokes. */
    method RemoveNode(addr: string) returns (ok: bool)
      requires Valid()
      modifies this
      ensures Valid() && ok == (old(live) != [])
      ensures live == Dropped(old(live), addr)
      ensures ok ==> Zip(ring, nodes) == Without(old(Zip(ring, nodes)), addr)
      ensures ccs == old(ccs) - {addr}
    {
      hide Without, Sorted, Hashing.Expected, Dropped, Zip;
      ghost var es := Zip(ring, nodes);
      RingCapacity(hashing, ring, nodes, live);
      ccs := ccs - {addr};
      DroppedNames(live, addr);
      if |ring| - hashing.count < 0 {
        ok := false;
        return;
      }
      var newRing, newNodes := [], [];
      WithoutStep(es[..0], addr);
      for i := 0 to |nodes|
        invariant |newRing| == |newNodes|
        invariant Zip(newRing, newNodes) == Without(es[..i], addr)
        modifies {}
      {
        hide *;
        WithoutPush(es, i, addr);
        if nodes[i] != addr {
          ghost var before := Zip(newRing, newNodes);
          newRing := newRing + [ring[i]];
          newNodes := newNodes + [nodes[i]];
          assert Zip(newRing, newNodes) == before + [es[i]];
        }
      }
      assert es[..|nodes|] == es;
      WithoutRepresents(hashing, ring, nodes, live, addr, newRing, newNodes);
      ring, nodes := newRing, newNodes;
      live := Dropped(live, addr);
      ok := true;
    }

    /** "" when the ring is empty, else the clockwise owner of the hash. */
    method GetNodeAddr(hash: u32) returns (addr: string)
      requires Valid()
      ensures addr == if ring == [] then "" else Owner(Zip(ring, nodes), hash)
    {
      if |ring| == 0 {
        return "";
      }
      ghost var es := Zip(ring, nodes);
      var lo, hi := 0, |ring|;
      while lo < hi
        invariant 0 <= lo <= hi <= |ring|
        invariant forall i | 0 <= i < lo :: es[i].hash < hash
        invariant forall i | hi <= i < |ring| :: hash <= es[i].hash
      {
        var mid := (lo + hi) / 2;
        if !(ring[mid] >= hash) {
          assert forall i | 0 <= i <= mid :: es[i].hash <= es[mid].hash;
          lo := mid + 1;
        } else {
          assert forall i | mid <= i < |ring| :: es[mid].hash <= es[i].hash;
          hi := mid;
        }
      }
      SuccessorAt(es, hash, lo);
      var index := if lo >= |ring| then 0 else lo;
      return nodes[index];
    }

    method Pick(bizId: Option<nat>, bizKey: Option<string>) returns (r: PickResult)
      requires Valid()
      ensures live != [] ==> ring != [] && forall h: u32 :: Owner(Zip(ring, nodes), h) in ccs
      ensures r == if live == [] then NoSubConnAvailable
                   else if bizId.None? then BizIdNotFound
                   else if bizKey.None? then BizKeyNotFound
                   else var addr := Owner(Zip(ring, nodes), hashing.hash(Snowflake.HashKey(bizId.value, bizKey.value)));
                        if addr == "" then NoSubConnAvailable
                        else Conn(ccs[addr])
    {
      LiveRing(hashing, ring, nodes, live);
      LiveConns(ccs, live);
      forall h: u32 | ring != []
        ensures Owner(Zip(ring, nodes), h) in ccs
      {
        OwnersAreLive(hashing, ring, nodes, live, h);
      }
      if |ccs| == 0 {
        return NoSubConnAvailable;
      }
      if bizId.None? {
        return BizIdNotFound;
      }
      if bizKey.None? {
        return BizKeyNotFound;
      }
      var addr := GetNodeAddr(hashing.hash(Snowflake.HashKey(bizId.value, bizKey.value)));
      if addr == "" {
        return NoSubConnAvailable;
      }
      if addr !in ccs {
        return NoSubConnAvailable;
      }
      return Conn(ccs[addr]);
    }
  }

  function Addresses(ready: seq<(SubConn, string)>): (r: seq<string>)
    ensures |r| == |ready|
  {
    seq(|ready|, i requires 0 <= i < |ready| => ready[i].1)
  }

  /** The first n ready addresses each have the connection they came with. */
  ghost predicate Connected(ccs: map<string, SubConn>, ready: seq<(SubConn, string)>, n: nat)
    requires n <= |ready|
  {
    forall i | 0 <= i < n :: ready[i].1 in ccs && ccs[ready[i].1] == ready[i].0
  }

  lemma NoneConnected(ready: seq<(SubConn, string)>)
    ensures Connected(map[], ready, 0)
  {
  }

  lemma ConnectedNext(ccs: map<string, SubConn>, ready: seq<(SubConn, string)>, i: nat)
    requires i < |ready| && AllDifferent(Addresses(ready)) && Connected(ccs, ready, i)
    ensures Connected(ccs[ready[i].1 := ready[i].0], ready, i + 1)
  {
    forall j | 0 <= j < i
      ensures ready[j].1 != ready[i].1
    {
      assert Addresses(ready)[j] != Addresses(ready)[i];
    }
  }

  /** Null stands for an error picker: nothing ready, or no virtual nodes configured. The source
      walks a map of connections, so `ready` is in no particular order. */
  method Build(hash: string -> u32, virtualNodeCnt: int, ready: seq<(SubConn, string)>)
    returns (p: CHBalancer?)
    ensures p == null <==> ready == [] || virtualNodeCnt <= 0
    ensures p != null ==> fresh(p) && p.Valid() && p.hashing == Hashing(hash, virtualNodeCnt)
                          && p.live == Addresses(ready)
    ensures p != null ==> |p.live| == |ready| && forall i | 0 <= i < |ready| :: p.live[i] == ready[i].1
    ensures p != null && AllDifferent(Addresses(ready)) ==> Connected(p.ccs, ready, |ready|)
  {
    hide Represents, AllDifferent, Connected;
    NoneConnected(ready);
    if |ready| == 0 || virtualNodeCnt <= 0 {
      return null;
    }
    p := new CHBalancer(Hashing(hash, virtualNodeCnt));
    for i := 0 to |ready|
      invariant p != null && fresh(p) && p.Valid() && p.live == Addresses(ready)[..i]
      invariant AllDifferent(Addresses(ready)) ==> Connected(p.ccs, ready, i)
    {
      hide Represents, AllDifferent, Connected;
      if AllDifferent(Addresses(ready)) {
        ConnectedNext(p.ccs, ready, i);
      }
      p.AddNode(ready[i].0, ready[i].1);
    }
  }

  lemma LiveConns(ccs: map<string, SubConn>, live: seq<string>)
    requires forall a :: a in ccs <==> a in live
    ensures |ccs| == 0 <==> live == []
  {
    if live == [] {
      assert ccs == map[];
    } else {
      assert live[0] in ccs;
    }
  }

  lemma CapacityCovers(count: nat, n: nat)
    requires 0 < count
    ensures count * n - count < 0 <==> n == 0
  {
    if n != 0 {
      assert count * n == count * (n - 1) + count;
    }
  }

  lemma RingCapacity(c: Hashing, ring: seq<u32>, nodes: seq<string>, live: seq<string>)
    requires 0 < c.count && Represents(c, ring, nodes, live)
    ensures |ring| - c.count < 0 <==> live == []
  {
    ExpectedSize(c, live);
    CapacityCovers(c.count, |live|);
    assert |ring| == |multiset(Zip(ring, nodes))|;
  }

  lemma WithoutRepresents(c: Hashing, ring: seq<u32>, nodes: seq<string>, live: seq<string>, addr: string,
                          ring': seq<u32>, nodes': seq<string>)
    requires Represents(c, ring, nodes, live)
    requires |ring'| == |nodes'| && Zip(ring', nodes') == Without(Zip(ring, nodes), addr)
    ensures Represents(c, ring', nodes', Dropped(live, addr))
  {
    WithoutSorted(Zip(ring, nodes), addr);
    WithoutIsDropped(c, live, Zip(ring, nodes), addr);
  }

  lemma LiveRing(c: Hashing, ring: seq<u32>, nodes: seq<string>, live: seq<string>)
    requires 0 < c.count && Represents(c, ring, nodes, live)
    ensures ring == [] <==> live == []
  {
    ExpectedSize(c, live);
    CapacityCovers(c.count, |live|);
    assert |ring| == |multiset(Zip(ring, nodes))|;
  }

  function Kept(e: VNode, addr: string): seq<VNode> {
    if e.addr == addr then [] else [e]
  }

  lemma WithoutStep(es: seq<VNode>, addr: string)
    ensures Without([], addr) == []
    ensures es != [] ==> Without(es, addr) == Kept(es[0], addr) + Without(es[1..], addr)
  {
  }

  lemma {:induction false} WithoutAppend(a: seq<VNode>, b: seq<VNode>, addr: string)
    ensures Without(a + b, addr) == Without(a, addr) + Without(b, addr)
  {
    hide *;
    WithoutStep(a, addr);
    if a == [] {
      assert a + b == b;
    } else {
      WithoutAppend(a[1..], b, addr);
      assert (a + b)[1..] == a[1..] + b;
      WithoutStep(a + b, addr);
    }
  }

  lemma WithoutPush(es: seq<VNode>, i: nat, addr: string)
    requires i < |es|
    ensures Without(es[..i + 1], addr) ==
            Without(es[..i], addr) + (if es[i].addr == addr then [] else [es[i]])
  {
    assert es[..i + 1] == es[..i] + [es[i]];
    WithoutAppend(es[..i], [es[i]], addr);
    assert Without([es[i]], addr) == if es[i].addr == addr then [] else [es[i]];
  }

  // ---------------------------------------------------------------- what is on the ring

  /** The ring place of the i-th virtual node of an address. */
  function Place(c: Hashing, addr: string, i: nat): u32 {
    c.hash(addr + "#" + Numeral(i))
  }

  lemma {:induction false} VNodesHold(c: Hashing, addr: string, n: nat, e: VNode)
    ensures e in c.VNodes(addr, n) <==> e.addr == addr && exists i: nat :: i < n && e.hash == Place(c, addr, i)
  {
    if n != 0 {
      VNodesHold(c, addr, n - 1, e);
      assert c.VNodeAt(addr, n - 1) == VNode(Place(c, addr, n - 1), addr);
      if e.addr == addr && exists i: nat :: i < n && e.hash == Place(c, addr, i) {
        var i: nat :| i < n && e.hash == Place(c, addr, i);
        assert i == n - 1 || (i < n - 1 && e in c.VNodes(addr, n - 1));
      }
    }
  }

  lemma {:induction false} ExpectedHolds(c: Hashing, live: seq<string>, e: VNode)
    ensures e in c.Expected(live) <==>
            e.addr in live && exists i: nat :: i < c.count && e.hash == Place(c, e.addr, i)
  {
    if live != [] {
      var last := live[|live| - 1];
      VNodesHold(c, last, c.count, e);
      ExpectedHolds(c, live[..|live| - 1], e);
      hide Hashing.VNodes, Place;
      assert live == live[..|live| - 1] + [last];
    }
  }

  /** For every live address and every number below the configured count the arrays hold the hash of
      address, "#" and number, beside that address. */
  lemma RingHasPlace(c: Hashing, ring: seq<u32>, nodes: seq<string>, live: seq<string>, addr: string, i: nat)
      returns (k: nat)
    requires Represents(c, ring, nodes, live) && addr in live && i < c.count
    ensures k < |ring| == |nodes| && nodes[k] == addr && ring[k] == c.hash(addr + "#" + Numeral(i))
  {
    var es, e := Zip(ring, nodes), VNode(Place(c, addr, i), addr);
    ExpectedHolds(c, live, e);
    assert e in multiset(es);
    hide Hashing.Expected, Sorted;
    k :| 0 <= k < |es| && es[k] == e;
  }

  /** They hold nothing else, and as many entries as there are such names. */
  lemma RingEntryIs(c: Hashing, ring: seq<u32>, nodes: seq<string>, live: seq<string>, k: nat) returns (i: nat)
    requires Represents(c, ring, nodes, live) && k < |ring|
    ensures |ring| == |nodes| == c.count * |live| && nodes[k] in live
    ensures i < c.count && ring[k] == c.hash(nodes[k] + "#" + Numeral(i))
  {
    var es := Zip(ring, nodes);
    ExpectedSize(c, live);
    assert |es| == |multiset(es)|;
    assert es[k] in multiset(es);
    ExpectedHolds(c, live, es[k]);
    hide Hashing.Expected, Sorted;
    i :| i < c.count && es[k].hash == Place(c, es[k].addr, i);
  }

  /** Every virtual node of the live addresses has a name of its own hash. */
  ghost predicate Spread(c: Hashing, live: seq<string>) {
    forall a, b, i: nat, j: nat |
      a in live && b in live && i < c.count && j < c.count
      && c.hash(a + "#" + Numeral(i)) == c.hash(b + "#" + Numeral(j)) :: a == b && i == j
  }

  ghost predicate AllDifferent(live: seq<string>) {
    forall i, j | 0 <= i < j < |live| :: live[i] != live[j]
  }

  lemma {:induction false} VNodesOnce(c: Hashing, addr: string, n: nat, e: VNode)
    requires n <= c.count && Spread(c, [addr])
    ensures multiset(c.VNodes(addr, n))[e] <= 1
  {
    if n != 0 {
      VNodesOnce(c, addr, n - 1, e);
      var last := c.VNodeAt(addr, n - 1);
      VNodesHold(c, addr, n - 1, last);
      assert last.hash == Place(c, addr, n - 1);
      hide Spread, Place;
      forall i: nat | i < n - 1
        ensures Place(c, addr, i) != last.hash
      {
        OwnPlaces(c, addr, i, n - 1);
      }
    }
  }

  lemma OwnPlaces(c: Hashing, addr: string, i: nat, j: nat)
    requires Spread(c, [addr]) && i < c.count && j < c.count && i != j
    ensures Place(c, addr, i) != Place(c, addr, j)
  {
    assert addr in [addr];
  }

  lemma {:induction false} ExpectedOnce(c: Hashing, live: seq<string>, e: VNode)
    requires AllDifferent(live) && Spread(c, live)
    ensures c.Expected(live)[e] <= 1
  {
    if live != [] {
      var front, last := live[..|live| - 1], live[|live| - 1];
      SpreadOf(c, live);
      ExpectedOnce(c, front, e);
      VNodesOnce(c, last, c.count, e);
      VNodesHold(c, last, c.count, e);
      ExpectedHolds(c, front, e);
      hide Spread, Hashing.VNodes, Place;
      assert last !in front;
    }
  }

  lemma SpreadOf(c: Hashing, live: seq<string>)
    requires Spread(c, live) && live != []
    ensures Spread(c, live[..|live| - 1]) && Spread(c, [live[|live| - 1]])
  {
    assert forall a | a in live[..|live| - 1] || a in [live[|live| - 1]] :: a in live;
  }

  lemma SamePlaces(es: seq<VNode>, k: nat, m: nat)
    requires k < m < |es| && es[k] == es[m]
    ensures 2 <= multiset(es)[es[k]]
  {
    assert es == es[..m] + es[m..];
    assert es[k] == es[..m][k] && es[m] == es[m..][0];
    assert es[k] in multiset(es[..m]) && es[k] in multiset(es[m..]);
  }

  /** Different addresses whose virtual nodes all hash differently: every entry has a place of its own. */
  lemma RingSpread(c: Hashing, ring: seq<u32>, nodes: seq<string>, live: seq<string>, k: nat, m: nat)
    requires Represents(c, ring, nodes, live) && AllDifferent(live) && Spread(c, live) && k < m < |ring|
    ensures ring[k] != ring[m]
  {
    var es := Zip(ring, nodes);
    var i := RingEntryIs(c, ring, nodes, live, k);
    var j := RingEntryIs(c, ring, nodes, live, m);
    ExpectedOnce(c, live, es[k]);
    hide Hashing.Expected, Sorted, Numeral;
    if ring[k] == ring[m] {
      assert c.hash(nodes[k] + "#" + Numeral(i)) == c.hash(nodes[m] + "#" + Numeral(j));
      assert es[k] == es[m];
      SamePlaces(es, k, m);
    }
  }

  // ---------------------------------------------------------------- what any history promises

  /** Every live address that owns a hash has its connection. */
  lemma OwnersAreLive(c: Hashing, ring: seq<u32>, nodes: seq<string>, live: seq<string>, h: u32)
    requires Represents(c, ring, nodes, live) && ring != []
    ensures Owner(Zip(ring, nodes), h) in live
  {
    var es := Zip(ring, nodes);
    OwnerIsNearest(es, h);
    assert OwnerNode(es, h) in multiset(es);
    ExpectedAddr(c, live, OwnerNode(es, h));
  }

  lemma {:induction false} ExpectedAddr(c: Hashing, live: seq<string>, e: VNode)
    requires e in c.Expected(live)
    ensures e.addr in live
  {
    if live != [] {
      VNodesAddr(c, live[|live| - 1], c.count);
      if e !in c.VNodes(live[|live| - 1], c.count) {
        ExpectedAddr(c, live[..|live| - 1], e);
      }
    }
  }

  /** Two histories that leave the same addresses live leave the same arrays, hence the same routing,
      when no two addresses share a ring hash. */
  lemma HistoryIndependent(c: Hashing, ring: seq<u32>, nodes: seq<string>, live: seq<string>,
                           ring': seq<u32>, nodes': seq<string>, live': seq<string>)
    requires Represents(c, ring, nodes, live) && Represents(c, ring', nodes', live')
    requires multiset(live) == multiset(live') && NoTies(Zip(ring, nodes))
    ensures ring == ring' && nodes == nodes'
  {
    ExpectedPermuted(c, live, live');
    var es, es' := Zip(ring, nodes), Zip(ring', nodes');
    SortedUnique(es, es');
    assert forall i | 0 <= i < |es| :: es[i] == es'[i];
  }

  /** Adding an address moves hashes only to it. */
  lemma AddMinimal(c: Hashing, ring: seq<u32>, nodes: seq<string>, live: seq<string>,
                   addr: string, ring': seq<u32>, nodes': seq<string>, h: u32)
    requires Represents(c, ring, nodes, live) && Represents(c, ring', nodes', live + [addr])
    requires ring != [] && NoTies(Zip(ring, nodes))
    ensures ring' != [] && Owner(Zip(ring', nodes'), h) in {Owner(Zip(ring, nodes), h), addr}
  {
    ExpectedPush(c, live, addr);
    VNodesAddr(c, addr, c.count);
    hide Hashing.Expected;
    AddMovesOnlyToNew(Zip(ring, nodes), c.VNodes(addr, c.count), Zip(ring', nodes'), addr, h);
  }

  /** Removing an address that was just added gives back the very same arrays. */
  lemma AddThenRemoveRestores(c: Hashing, ring: seq<u32>, nodes: seq<string>, live: seq<string>,
                              addr: string, ring': seq<u32>, nodes': seq<string>)
    requires Represents(c, ring, nodes, live) && Represents(c, ring', nodes', live + [addr])
    requires addr !in live && NoTies(Zip(ring, nodes))
    ensures Without(Zip(ring', nodes'), addr) == Zip(ring, nodes)
  {
    var es' := Zip(ring', nodes');
    WithoutSorted(es', addr);
    WithoutIsDropped(c, live + [addr], es', addr);
    DroppedPush(live, addr, addr);
    DroppedNames(live, addr);
    SortedUnique(Zip(ring, nodes), Without(es', addr));
  }
}
