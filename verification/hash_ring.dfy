/**
 The hash ring as a value: virtual nodes sorted by hash, the clockwise owner of a hash, and what
 adding and removing an address do to ownership. The balancer object is in consistent_hash.dfy.
 */
module HashRing {
  import opened Words
  import opened Decimals

  datatype VNode = VNode(hash: u32, addr: string)

  /** The uninterpreted hash (low 32 bits of xxhash) and the number of virtual nodes per address. */
  datatype Hashing = Hashing(hash: string -> u32, count: nat) {
    function VNodeAt(addr: string, i: nat): VNode {
      VNode(hash(addr + "#" + Numeral(i)), addr)
    }

    /** The first i virtual nodes of an address. */
    function VNodes(addr: string, i: nat): seq<VNode> {
      if i == 0 then [] else VNodes(addr, i - 1) + [VNodeAt(addr, i - 1)]
    }

    /** The virtual nodes of every address added and not removed; an address added twice counts twice. */
    function Expected(live: seq<string>): multiset<VNode> {
      if live == [] then multiset{}
      else Expected(live[..|live| - 1]) + multiset(VNodes(live[|live| - 1], count))
    }
  }

  ghost predicate Sorted(es: seq<VNode>) {
    forall i, j | 0 <= i < j < |es| :: es[i].hash <= es[j].hash
  }

  /** The first virtual node at or after h. */
  function Successor(es: seq<VNode>, h: u32): Option<VNode> {
    if es == [] then None
    else if h <= es[0].hash then Some(es[0])
    else Successor(es[1..], h)
  }

  /** Linear scan with wrap-around. */
  function OwnerNode(es: seq<VNode>, h: u32): VNode
    requires es != []
  {
    match Successor(es, h)
    case Some(e) => e
    case None => es[0]
  }

  function Owner(es: seq<VNode>, h: u32): string
    requires es != []
  {
    OwnerNode(es, h).addr
  }

  function Without(es: seq<VNode>, addr: string): seq<VNode> {
    if es == [] then []
    else (if es[0].addr == addr then [] else [es[0]]) + Without(es[1..], addr)
  }

  /** No two addresses share a ring hash. */
  ghost predicate NoTies(es: seq<VNode>) {
    forall e, f | e in es && f in es && e.hash == f.hash :: e == f
  }

  // ---------------------------------------------------------------- the owner is the nearest clockwise

  /** How far clockwise, modulo 2^32, a ring position lies from h. */
  function Clockwise(h: u32, x: u32): u32 {
    Wrap32(x - h)
  }

  lemma {:induction false} SuccessorAt(es: seq<VNode>, h: u32, k: nat)
    requires k <= |es|
    requires forall i | 0 <= i < k :: es[i].hash < h
    requires k < |es| ==> h <= es[k].hash
    ensures Successor(es, h) == if k < |es| then Some(es[k]) else None
  {
    if k != 0 {
      SuccessorAt(es[1..], h, k - 1);
    }
  }

  lemma {:induction false} SuccessorIndex(es: seq<VNode>, h: u32) returns (k: nat)
    ensures k <= |es|
    ensures forall i | 0 <= i < k :: es[i].hash < h
    ensures k < |es| ==> h <= es[k].hash
    ensures Successor(es, h) == if k < |es| then Some(es[k]) else None
  {
    if es == [] || h <= es[0].hash {
      k := 0;
    } else {
      k := SuccessorIndex(es[1..], h);
      k := k + 1;
    }
  }

  /** The scan over a sorted ring finds a virtual node of least clockwise distance. */
  lemma OwnerIsNearest(es: seq<VNode>, h: u32)
    requires es != [] && Sorted(es)
    ensures OwnerNode(es, h) in es
    ensures forall e | e in es :: Clockwise(h, OwnerNode(es, h).hash) <= Clockwise(h, e.hash)
  {
    var k := SuccessorIndex(es, h);
    hide Successor;
    var o := if k < |es| then k else 0;
    assert OwnerNode(es, h) == es[o];
    forall e | e in es
      ensures Clockwise(h, es[o].hash) <= Clockwise(h, e.hash)
    {
      var i :| 0 <= i < |es| && es[i] == e;
      assert o <= i ==> es[o].hash <= es[i].hash;
    }
  }

  lemma ClockwiseInjective(h: u32, x: u32, y: u32)
    requires Clockwise(h, x) == Clockwise(h, y)
    ensures x == y
  {
  }

  // ---------------------------------------------------------------- removing an address

  lemma {:induction false} WithoutKeepsSuccessor(es: seq<VNode>, addr: string, h: u32)
    ensures Successor(es, h).None? ==> Successor(Without(es, addr), h).None?
    ensures Successor(es, h).Some? && Successor(es, h).value.addr != addr ==>
              Successor(Without(es, addr), h) == Successor(es, h)
  {
    if es != [] {
      WithoutKeepsSuccessor(es[1..], addr, h);
      if es[0].addr != addr {
        assert Without(es, addr)[1..] == Without(es[1..], addr);
      } else {
        assert Without(es, addr) == Without(es[1..], addr);
      }
    }
  }

  /** Removing an address moves only the hashes it owned, even when ring hashes collide. */
  lemma RemoveDisruptsOnlyOwn(es: seq<VNode>, addr: string, h: u32)
    requires es != [] && Owner(es, h) != addr
    ensures Without(es, addr) != [] && Owner(Without(es, addr), h) == Owner(es, h)
  {
    WithoutKeepsSuccessor(es, addr, h);
    if Successor(es, h).Some? {
      assert Successor(Without(es, addr), h).Some?;
    } else {
      assert Without(es, addr)[0] == es[0];
    }
  }

  lemma {:induction false} WithoutKeeps(es: seq<VNode>, addr: string, e: VNode)
    ensures e in Without(es, addr) <==> e in es && e.addr != addr
  {
    if es != [] {
      WithoutKeeps(es[1..], addr, e);
    }
  }

  lemma {:induction false} WithoutSorted(es: seq<VNode>, addr: string)
    requires Sorted(es)
    ensures Sorted(Without(es, addr))
    ensures forall e :: e in Without(es, addr) <==> e in es && e.addr != addr
  {
    forall e
      ensures e in Without(es, addr) <==> e in es && e.addr != addr
    {
      WithoutKeeps(es, addr, e);
    }
    if es != [] {
      var rest := es[1..];
      WithoutSorted(rest, addr);
      HeadIsLeast(es, Without(rest, addr));
    }
  }

  lemma HeadIsLeast(es: seq<VNode>, r: seq<VNode>)
    requires es != [] && Sorted(es) && Sorted(r) && forall e | e in r :: e in es[1..]
    ensures Sorted([es[0]] + r)
  {
    forall i | 0 <= i < |r|
      ensures es[0].hash <= r[i].hash
    {
      assert r[i] in r;
    }
  }

  lemma {:induction false} WithoutCounts(es: seq<VNode>, addr: string, e: VNode)
    ensures multiset(Without(es, addr))[e] == if e.addr == addr then 0 else multiset(es)[e]
  {
    if es != [] {
      WithoutCounts(es[1..], addr, e);
      assert es == [es[0]] + es[1..];
    }
  }

  // ---------------------------------------------------------------- adding an address

  /** Adding an address moves hashes only to it, when the ring had no two addresses on one hash. */
  lemma AddMovesOnlyToNew(es: seq<VNode>, added: seq<VNode>, es': seq<VNode>, addr: string, h: u32)
    requires es != [] && Sorted(es) && Sorted(es') && NoTies(es)
    requires multiset(es') == multiset(es) + multiset(added)
    requires forall e | e in added :: e.addr == addr
    ensures es' != [] && Owner(es', h) in {Owner(es, h), addr}
  {
    assert multiset(es')[es[0]] > 0;
    OwnerIsNearest(es, h);
    OwnerIsNearest(es', h);
    hide Successor, OwnerNode;
    var o, o' := OwnerNode(es, h), OwnerNode(es', h);
    assert o' in multiset(es') && o in multiset(es);
    if o' !in added {
      assert multiset(added)[o'] == 0;
      assert o' in multiset(es) && o in multiset(es');
      assert o' in es && o in es';
      ClockwiseInjective(h, o.hash, o'.hash);
    }
  }

  // ---------------------------------------------------------------- build order

  lemma SameHead(es: seq<VNode>, fs: seq<VNode>)
    requires es != [] && Sorted(es) && Sorted(fs) && NoTies(es) && multiset(es) == multiset(fs)
    ensures fs != [] && es[0] == fs[0]
  {
    assert es[0] in multiset(fs);
    var i :| 0 <= i < |fs| && fs[i] == es[0];
    assert fs[0] in multiset(es);
    var j :| 0 <= j < |es| && es[j] == fs[0];
    assert es[0].hash <= es[j].hash && fs[0].hash <= fs[i].hash;
  }

  lemma TailMultiset(es: seq<VNode>)
    requires es != []
    ensures multiset(es[1..]) == multiset(es) - multiset{es[0]}
    ensures forall e | e in es[1..] :: e in es
    ensures es == [es[0]] + es[1..]
  {
    assert es == [es[0]] + es[1..];
  }

  /** Without ties there is one sorted arrangement of a multiset of virtual nodes. */
  lemma {:induction false} SortedUnique(es: seq<VNode>, fs: seq<VNode>)
    requires Sorted(es) && Sorted(fs) && NoTies(es) && multiset(es) == multiset(fs)
    ensures es == fs
    decreases |es|
  {
    if es == [] {
      assert |fs| == |multiset(es)|;
    } else {
      SameHead(es, fs);
      TailMultiset(es);
      TailMultiset(fs);
      SortedUnique(es[1..], fs[1..]);
    }
  }

  /** Every sorted arrangement of these virtual nodes routes alike. */
  ghost predicate RoutingDetermined(es: seq<VNode>) {
    forall fs | Sorted(fs) && multiset(fs) == multiset(es) && fs != [] && es != [] ::
      forall h: u32 :: Owner(fs, h) == Owner(es, h)
  }

  lemma SwapEqualHashes(es: seq<VNode>, k: nat, m: nat) returns (fs: seq<VNode>)
    requires Sorted(es) && k < |es| && m < |es| && es[k].hash == es[m].hash
    ensures Sorted(fs) && multiset(fs) == multiset(es)
    ensures |fs| == |es| && fs[k] == es[m] && forall n | 0 <= n < |es| :: fs[n].hash == es[n].hash
  {
    fs := es[k := es[m]][m := es[k]];
    assert forall n | 0 <= n < |es| :: fs[n].hash == es[n].hash;
  }

  /** Two addresses on one hash can be laid out so that either owns it. */
  lemma TieReroutes(es: seq<VNode>, i: nat, j: nat) returns (fs: seq<VNode>)
    requires Sorted(es) && i < j < |es| && es[i].hash == es[j].hash && es[i] != es[j]
    ensures Sorted(fs) && multiset(fs) == multiset(es) && fs != []
    ensures Owner(fs, es[i].hash) != Owner(es, es[i].hash)
  {
    hide Successor;
    var h := es[i].hash;
    var k := SuccessorIndex(es, h);
    assert k <= i;
    assert es[k].hash == h;
    fs := SwapEqualHashes(es, k, if es[i] != es[k] then i else j);
    hide Sorted;
    SuccessorAt(fs, h, k);
  }

  /** Routing is independent of the order in which the ring was built exactly when no two addresses
      share a ring hash. */
  lemma RoutingDeterminedIff(es: seq<VNode>)
    requires Sorted(es)
    ensures RoutingDetermined(es) <==> NoTies(es)
  {
    if NoTies(es) {
      forall fs | Sorted(fs) && multiset(fs) == multiset(es) && fs != [] && es != []
        ensures forall h: u32 :: Owner(fs, h) == Owner(es, h)
      {
        SortedUnique(es, fs);
      }
    } else {
      var e, f :| e in es && f in es && e.hash == f.hash && e != f;
      var i :| 0 <= i < |es| && es[i] == e;
      var j :| 0 <= j < |es| && es[j] == f;
      var fs := TieReroutes(es, if i < j then i else j, if i < j then j else i);
    }
  }

  /** es' is the ring es after some nodes of one address have been added and the ring sorted again. */
  ghost predicate Addition(es: seq<VNode>, added: seq<VNode>, addr: string, es': seq<VNode>) {
    && es' != [] && Sorted(es') && multiset(es') == multiset(es) + multiset(added)
    && added != [] && forall e | e in added :: e.addr == addr
  }

  /** Whatever address is added, with whatever hashes, no hash moves between the addresses there were. */
  ghost predicate AdditionsAreMinimal(es: seq<VNode>)
    requires es != []
  {
    forall added: seq<VNode>, addr: string, es': seq<VNode>, h: u32 | Addition(es, added, addr, es') ::
      Owner(es', h) in {Owner(es, h), addr}
  }

  lemma FirstWithHash(fs: seq<VNode>, e: VNode) returns (k: nat)
    requires Sorted(fs) && e in fs
    ensures k < |fs| && fs[k].hash == e.hash && forall i | 0 <= i < k :: fs[i].hash < e.hash
    ensures Owner(fs, e.hash) == fs[k].addr
  {
    k := SuccessorIndex(fs, e.hash);
    hide Successor;
    var m :| 0 <= m < |fs| && fs[m] == e;
    assert k <= m;
  }

  lemma SqueezedSorted(fs: seq<VNode>, k: nat, e: VNode, es': seq<VNode>)
    requires Sorted(fs) && k < |fs| && fs[k].hash == e.hash && es' == fs[..k + 1] + [e] + fs[k + 1..]
    ensures Sorted(es') && |es'| == |fs| + 1 && forall i | 0 <= i <= k :: es'[i] == fs[i]
  {
    assert forall i | 0 <= i < |es'| :: es'[i] == if i <= k then fs[i] else if i == k + 1 then e else fs[i - 1];
  }

  /** A node squeezed in behind another of its hash changes no owner of that hash. */
  lemma Squeezed(fs: seq<VNode>, k: nat, e: VNode, es': seq<VNode>)
    requires Sorted(fs) && k < |fs| && fs[k].hash == e.hash && es' == fs[..k + 1] + [e] + fs[k + 1..]
    requires forall i | 0 <= i < k :: fs[i].hash < e.hash
    ensures Sorted(es') && es' != [] && multiset(es') == multiset(fs) + multiset([e])
    ensures Owner(es', e.hash) == fs[k].addr
  {
    hide Sorted, Successor;
    SqueezedSorted(fs, k, e, es');
    SuccessorAt(es', e.hash, k);
    assert fs == fs[..k + 1] + fs[k + 1..];
  }

  /** A tie laid out the other way, with one node of a further address behind it. */
  lemma TieMovesOnAddition(es: seq<VNode>, i: nat, j: nat)
    requires Sorted(es) && i < j < |es| && es[i].hash == es[j].hash && es[i] != es[j]
    ensures !AdditionsAreMinimal(es)
  {
    hide Sorted, Successor, OwnerNode, Owner;
    var h := es[i].hash;
    var fs := TieReroutes(es, i, j);
    assert es[i] in multiset(fs);
    var k := FirstWithHash(fs, es[i]);
    var addr := fs[k].addr + "+";
    var e := VNode(h, addr);
    var es' := fs[..k + 1] + [e] + fs[k + 1..];
    Squeezed(fs, k, e, es');
    assert Addition(es, [e], addr, es');
    assert |addr| == |fs[k].addr| + 1;
  }

  /** Additions move hashes only to the new address exactly when no two addresses share a ring hash. */
  lemma AdditionsAreMinimalIff(es: seq<VNode>)
    requires es != [] && Sorted(es)
    ensures AdditionsAreMinimal(es) <==> NoTies(es)
  {
    hide Sorted, Owner;
    if NoTies(es) {
      forall added: seq<VNode>, addr: string, es': seq<VNode>, h: u32 | Addition(es, added, addr, es')
        ensures Owner(es', h) in {Owner(es, h), addr}
      {
        AddMovesOnlyToNew(es, added, es', addr, h);
      }
    } else {
      var e, f :| e in es && f in es && e.hash == f.hash && e != f;
      var i :| 0 <= i < |es| && es[i] == e;
      var j :| 0 <= j < |es| && es[j] == f;
      TieMovesOnAddition(es, if i < j then i else j, if i < j then j else i);
    }
  }

  // ---------------------------------------------------------------- the multiset of a live list

  function Dropped(live: seq<string>, addr: string): seq<string> {
    if live == [] then []
    else
      var last := live[|live| - 1];
      Dropped(live[..|live| - 1], addr) + (if last == addr then [] else [last])
  }

  lemma {:induction false} VNodesAddr(c: Hashing, addr: string, i: nat)
    ensures |c.VNodes(addr, i)| == i
    ensures forall e | e in c.VNodes(addr, i) :: e.addr == addr
  {
    if i != 0 {
      VNodesAddr(c, addr, i - 1);
    }
  }

  lemma ExpectedPush(c: Hashing, live: seq<string>, addr: string)
    ensures c.Expected(live + [addr]) == c.Expected(live) + multiset(c.VNodes(addr, c.count))
  {
    assert (live + [addr])[..|live|] == live;
  }

  lemma DroppedPush(live: seq<string>, last: string, addr: string)
    ensures Dropped(live + [last], addr) == if last == addr then Dropped(live, addr) else Dropped(live, addr) + [last]
  {
    assert (live + [last])[..|live|] == live;
    assert Dropped(live, addr) + [] == Dropped(live, addr);
  }

  lemma VNodesCount(c: Hashing, addr: string, e: VNode)
    requires e.addr != addr
    ensures multiset(c.VNodes(addr, c.count))[e] == 0
  {
    VNodesAddr(c, addr, c.count);
    hide Hashing.VNodes;
    assert e !in c.VNodes(addr, c.count);
  }

  lemma NothingLive(c: Hashing, addr: string)
    ensures Dropped([], addr) == [] && c.Expected([]) == multiset{}
  {
  }

  lemma {:induction false} DroppedCounts(c: Hashing, live: seq<string>, addr: string, e: VNode)
    ensures c.Expected(Dropped(live, addr))[e] == if e.addr == addr then 0 else c.Expected(live)[e]
  {
    hide *;
    if live == [] {
      NothingLive(c, addr);
    } else {
      var rest, last := live[..|live| - 1], live[|live| - 1];
      assert live == rest + [last];
      DroppedCounts(c, rest, addr, e);
      DroppedPush(rest, last, addr);
      ExpectedPush(c, rest, last);
      ExpectedPush(c, Dropped(rest, addr), last);
      if e.addr != last {
        VNodesCount(c, last, e);
      }
    }
  }

  /** Filtering the entries is the same as never having added the address. */
  lemma WithoutIsDropped(c: Hashing, live: seq<string>, es: seq<VNode>, addr: string)
    requires multiset(es) == c.Expected(live)
    ensures multiset(Without(es, addr)) == c.Expected(Dropped(live, addr))
  {
    forall e: VNode
      ensures multiset(Without(es, addr))[e] == c.Expected(Dropped(live, addr))[e]
    {
      WithoutCounts(es, addr, e);
      DroppedCounts(c, live, addr, e);
    }
  }

  lemma {:induction false} DroppedNames(live: seq<string>, addr: string)
    ensures forall a :: a in Dropped(live, addr) <==> a in live && a != addr
    ensures addr !in live ==> Dropped(live, addr) == live
  {
    if live != [] {
      DroppedNames(live[..|live| - 1], addr);
      assert live == live[..|live| - 1] + [live[|live| - 1]];
    }
  }

  lemma {:induction false} ExpectedSize(c: Hashing, live: seq<string>)
    ensures |c.Expected(live)| == c.count * |live|
  {
    if live != [] {
      ExpectedSize(c, live[..|live| - 1]);
      VNodesAddr(c, live[|live| - 1], c.count);
      assert c.count * |live| == c.count * (|live| - 1) + c.count;
    }
  }

  lemma MultisetSwap(a: multiset<VNode>, b: multiset<VNode>, d: multiset<VNode>)
    ensures a + b + d == a + d + b
  {
  }

  lemma {:induction false} ExpectedOrder(c: Hashing, before: seq<string>, addr: string, after: seq<string>)
    ensures c.Expected(before + [addr] + after)
         == c.Expected(before + after) + multiset(c.VNodes(addr, c.count))
    decreases |after|
  {
    hide *;
    if after == [] {
      ExpectedPush(c, before, addr);
      assert before + [addr] + after == before + [addr] && before + after == before;
    } else {
      var n := |after| - 1;
      ExpectedOrder(c, before, addr, after[..n]);
      ExpectedPush(c, before + [addr] + after[..n], after[n]);
      ExpectedPush(c, before + after[..n], after[n]);
      MultisetSwap(c.Expected(before + after[..n]), multiset(c.VNodes(addr, c.count)),
                   multiset(c.VNodes(after[n], c.count)));
      assert before + [addr] + after == before + [addr] + after[..n] + [after[n]];
      assert before + after == before + after[..n] + [after[n]];
    }
  }

  /** The order of insertion does not matter to the multiset. */
  lemma {:induction false} ExpectedPermuted(c: Hashing, live: seq<string>, live': seq<string>)
    requires multiset(live) == multiset(live')
    ensures c.Expected(live) == c.Expected(live')
    decreases |live|
  {
    assert |live| == |multiset(live)| == |multiset(live')| == |live'|;
    if live != [] {
      var n := |live| - 1;
      assert live == live[..n] + [live[n]];
      assert live[n] in multiset(live');
      var k :| 0 <= k < |live'| && live'[k] == live[n];
      var rest := live'[..k] + live'[k + 1..];
      assert live' == live'[..k] + [live'[k]] + live'[k + 1..];
      assert multiset(rest) == multiset(live') - multiset{live[n]};
      assert multiset(live[..n]) == multiset(live) - multiset{live[n]};
      ExpectedPermuted(c, live[..n], rest);
      ExpectedOrder(c, live'[..k], live[n], live'[k + 1..]);
    }
  }
}
