/**
 The selection rule as the pickers of internal/pkg/client/balancer compute it, on uint32 values that
 wrap, against the rule over the integers (SmoothWeighted.Run).
 */
module Uint32Picker {
  import opened Words
  import opened Sums
  import opened SmoothWeighted

  function Raised32(w: seq<u32>, cur: seq<int>): (r: seq<int>)
    requires |w| == |cur|
  {
    seq(|w|, i requires 0 <= i < |w| => Wrap32(cur[i] + w[i]))
  }

  function Choice32(w: seq<u32>, cur: seq<int>): (k: nat)
    requires w != [] && |cur| == |w|
    ensures k < |w|
  {
    FirstGreatest(Raised32(w, cur))
  }

  /** The current weights after a uint32 pick. */
  function After32(w: seq<u32>, cur: seq<int>): (r: seq<int>)
    requires w != [] && |cur| == |w|
    ensures |r| == |w|
  {
    var raised, k := Raised32(w, cur), Choice32(w, cur);
    raised[k := Wrap32(raised[k] - Wrap32(Sum(w)))]
  }

  function Pick32(w: seq<u32>, s: State): (r: State)
    requires Fits(w, s)
    ensures Fits(w, r)
  {
    var k := Choice32(w, s.cur);
    State(After32(w, s.cur), s.picks[k := s.picks[k] + 1])
  }

  function Run32(w: seq<u32>, t: nat): (r: State)
    requires w != []
    ensures Fits(w, r)
  {
    if t == 0 then Start(w) else Pick32(w, Run32(w, t - 1))
  }

  lemma Run32Step(w: seq<u32>, t: nat)
    requires w != []
    ensures Run32(w, 0) == Start(w)
    ensures 0 < t ==> Run32(w, t) == Pick32(w, Run32(w, t - 1))
  {
    hide Pick32;
  }

  ghost predicate Balanced32(w: seq<u32>, s: State, t: nat) {
    && |s.cur| == |s.picks| == |w|
    && (forall i | 0 <= i < |w| :: s.cur[i] == Wrap32(Times(t + 1, w[i]) - Times(s.picks[i], Sum(w))))
    && Sum(s.picks) == t
  }

  lemma Wrap32Step(cur: int, x: int, wi: int, total: int)
    requires cur == Wrap32(x)
    ensures Wrap32(cur + wi) == Wrap32(x + wi)
    ensures Wrap32(Wrap32(cur + wi) - Wrap32(total)) == Wrap32(x + wi - total)
  {
  }

  lemma TimesAgain(n: nat, x: int)
    ensures Times(n + 1, x) == Times(n, x) + x
  {
  }

  lemma Balanced32Start(w: seq<u32>)
    requires w != []
    ensures Balanced32(w, Start(w), 0)
  {
    AllZero(Start(w).picks);
    forall i | 0 <= i < |w|
      ensures Start(w).cur[i] == Wrap32(Times(1, w[i]) - Times(0, Sum(w)))
    {
      assert Times(1, w[i]) == Times(0, w[i]) + w[i];
    }
  }

  /** The integer identity survives wrapping as a congruence, for any number of nodes. */
  lemma {:induction false} Run32Congruence(w: seq<u32>, t: nat)
    requires w != []
    ensures Balanced32(w, Run32(w, t), t)
  {
    hide *;
    Run32Step(w, t);
    if t == 0 {
      Balanced32Start(w);
    } else {
      Run32Congruence(w, t - 1);
      Balanced32Step(w, Run32(w, t - 1), t - 1);
    }
  }

  /** What one pick does to each node. */
  lemma Pick32At(w: seq<u32>, s: State, k: nat)
    requires Fits(w, s) && k == Choice32(w, s.cur)
    ensures var r := Pick32(w, s);
            && |r.cur| == |w| && r.picks == s.picks[k := s.picks[k] + 1]
            && forall i | 0 <= i < |w| ::
                 var raised := Wrap32(s.cur[i] + w[i]);
                 r.cur[i] == if i == k then Wrap32(raised - Wrap32(Sum(w))) else raised
  {
    hide FirstGreatest, Sum, Wrap32;
  }

  lemma Balanced32At(cur: int, t: nat, wi: int, p: nat, total: int)
    requires cur == Wrap32(Times(t + 1, wi) - Times(p, total))
    ensures Wrap32(cur + wi) == Wrap32(Times(t + 2, wi) - Times(p, total))
    ensures Wrap32(Wrap32(cur + wi) - Wrap32(total)) == Wrap32(Times(t + 2, wi) - Times(p + 1, total))
  {
    TimesAgain(t + 1, wi);
    TimesAgain(p, total);
    hide Times, Wrap32;
    Wrap32Step(cur, Times(t + 1, wi) - Times(p, total), wi, total);
  }

  lemma Balanced32Step(w: seq<u32>, s: State, t: nat)
    requires w != [] && Balanced32(w, s, t)
    ensures Balanced32(w, Pick32(w, s), t + 1)
  {
    hide Sum, FirstGreatest, Wrap32, Times, Pick32, Choice32, After32;
    var k := Choice32(w, s.cur);
    Pick32At(w, s, k);
    SumUpdate(s.picks, k, s.picks[k] + 1);
    forall i | 0 <= i < |w|
      ensures Pick32(w, s).cur[i] == Wrap32(Times(t + 2, w[i]) - Times(Pick32(w, s).picks[i], Sum(w)))
    {
      Balanced32At(s.cur[i], t, w[i], s.picks[i], Sum(w));
    }
  }

  /** The number of nodes that can ever be owed a pick. */
  function Positive(w: seq<nat>): nat {
    if w == [] then 0 else (if 0 < w[0] then 1 else 0) + Positive(w[1..])
  }

  lemma {:induction false} PositiveBound(w: seq<nat>, r: seq<int>, top: int)
    requires |r| == |w| && 0 <= top
    requires forall i | 0 <= i < |w| :: r[i] <= top && (w[i] == 0 ==> r[i] <= 0)
    ensures Sum(r) <= Positive(w) * top
  {
    if w != [] {
      PositiveBound(w[1..], r[1..], top);
      assert Positive(w) * top == (if 0 < w[0] then top else 0) + Positive(w[1..]) * top;
    }
  }

  lemma {:induction false} PositiveShort(w: seq<nat>, p: seq<int>)
    requires |p| == |w|
    requires forall i | 0 <= i < |w| :: p[i] <= w[i] - (if 0 < w[i] then 1 else 0)
    ensures Sum(p) <= Sum(w) - Positive(w)
  {
    if w != [] {
      PositiveShort(w[1..], p[1..]);
    }
  }

  lemma {:induction false} PositiveAtMostSum(w: seq<nat>)
    ensures Positive(w) <= Sum(w)
  {
    if w != [] {
      PositiveAtMostSum(w[1..]);
    }
  }

  ghost predicate NoneNegative(s: State) {
    forall i | 0 <= i < |s.cur| :: 0 <= s.cur[i]
  }

  lemma StartNotNegative(w: seq<nat>)
    ensures NoneNegative(Start(w))
  {
  }

  /** With at most two weighted nodes the greatest raised weight covers the total. */
  lemma TwoStep(w: seq<nat>, s: State, t: nat, k: nat, r: State)
    requires Positive(w) <= 2 && Balanced(w, s, t) && NoneNegative(s) && Picked(w, s, k, r)
    ensures NoneNegative(r)
  {
    var raised := Raised(w, s.cur);
    SumLinear(raised, 1, s.cur, 1, w);
    SumNonNegative(w);
    forall i | 0 <= i < |w| && w[i] == 0
      ensures raised[i] <= 0
    {
      TimesGrows(t + 1, w[i]);
      TimesGrows(s.picks[i], Sum(w));
    }
    PositiveBound(w, raised, raised[k]);
    MulMonotone(raised[k], Positive(w), 2);
  }

  lemma {:induction false} TwoNeverNegative(w: seq<nat>, t: nat)
    requires w != [] && Positive(w) <= 2
    ensures NoneNegative(Run(w, t))
  {
    hide *;
    RunStep(w, t);
    if t == 0 {
      StartNotNegative(w);
    } else {
      TwoNeverNegative(w, t - 1);
      RunIdentity(w, t - 1);
      var k := PickEffect(w, Run(w, t - 1));
      TwoStep(w, Run(w, t - 1), t - 1, k, Run(w, t));
    }
  }

  lemma PicksBelowWeight(wi: nat, total: int, p: nat)
    requires 0 < total && 0 <= Times(total - 1, wi) - Times(p, total)
    ensures p <= wi - (if 0 < wi then 1 else 0)
  {
    TimesProduct(total - 1, wi);
    TimesProduct(p, total);
    assert (total - 1) * wi == total * wi - wi;
    if 0 < wi {
      CancelFactor(total, p, wi - 1);
    } else {
      assert total * p < total * (0 + 1);
      CancelFactor(total, p, 0);
    }
  }

  ghost predicate SomeNegative(w: seq<nat>, t: nat)
    requires w != []
  {
    exists i :: 0 <= i < |w| && Run(w, t).cur[i] < 0
  }

  /** With three weighted nodes some integer current weight is negative after W - 2 picks. */
  lemma ThreeGoNegative(w: seq<nat>, t: nat)
    requires w != [] && 3 <= Positive(w) && t + 2 == Sum(w)
    ensures SomeNegative(w, t)
  {
    var s := Run(w, t);
    RunIdentity(w, t);
    if !SomeNegative(w, t) {
      forall i | 0 <= i < |w|
        ensures s.picks[i] <= w[i] - (if 0 < w[i] then 1 else 0)
      {
        PicksBelowWeight(w[i], Sum(w), s.picks[i]);
      }
      PositiveShort(w, s.picks);
    }
  }

  // ---------------------------------------------------------------- when wrapping does no harm

  /** No node is raised to less than zero in this pick. */
  predicate Lifted(w: seq<nat>, s: State) {
    |s.cur| == |w| && forall i | 0 <= i < |w| :: 0 <= s.cur[i] + w[i]
  }

  /** ... in any pick of the first period, which a deployment can compute from its weights. */
  predicate AlwaysLifted(w: seq<nat>)
    requires w != []
  {
    forall t | 0 <= t < Sum(w) :: Lifted(w, Run(w, t))
  }

  /** Same picks so far, and current weights that differ at most by a wrap. */
  ghost predicate Alike(s32: State, s: State) {
    && s32.picks == s.picks && |s32.cur| == |s.cur|
    && forall i | 0 <= i < |s.cur| :: s32.cur[i] == Wrap32(s.cur[i])
  }

  lemma LiftedFits(w: seq<nat>, s: State, raised: seq<int>)
    requires Fits(w, s) && raised == Raised(w, s.cur) && Lifted(w, s)
    requires 2 * Sum(w) < TWO_32 && Sum(s.cur) == Sum(w)
    ensures forall i | 0 <= i < |w| :: 0 <= raised[i] < TWO_32
  {
    hide Sum;
    SumLinear(raised, 1, s.cur, 1, w);
    forall i | 0 <= i < |w|
      ensures 0 <= raised[i] < TWO_32
    {
      SumCovers(raised, i);
    }
  }

  lemma WrapRaised(cur: int, wi: int)
    ensures Wrap32(Wrap32(cur) + wi) == Wrap32(cur + wi)
  {
  }

  lemma WrapFits(x: int)
    ensures 0 <= x < TWO_32 ==> Wrap32(x) == x
    ensures -TWO_32 <= x < 0 ==> Wrap32(x) == x + TWO_32
  {
  }

  /** The uint32 picker compares the raised weights themselves when none is negative. */
  lemma AlikeRaised(w: seq<u32>, s32: State, s: State)
    requires Fits(w, s) && Fits(w, s32) && Alike(s32, s) && Lifted(w, s)
    requires 2 * Sum(w) < TWO_32 && Sum(s.cur) == Sum(w)
    ensures Raised32(w, s32.cur) == Raised(w, s.cur)
  {
    hide Sum, Wrap32;
    var raised := Raised(w, s.cur);
    LiftedFits(w, s, raised);
    forall i | 0 <= i < |w|
      ensures Raised32(w, s32.cur)[i] == raised[i]
    {
      WrapRaised(s.cur[i], w[i]);
      WrapFits(raised[i]);
    }
  }

  lemma AlikeStep(w: seq<u32>, s32: State, s: State)
    requires Fits(w, s) && Fits(w, s32) && Alike(s32, s) && Lifted(w, s)
    requires 2 * Sum(w) < TWO_32 && Sum(s.cur) == Sum(w)
    ensures Alike(Pick32(w, s32), Pick(w, s))
  {
    AlikeRaised(w, s32, s);
    LiftedFits(w, s, Raised(w, s.cur));
    SumNonNegative(w);
    WrapFits(Sum(w));
    hide Sum, Wrap32, FirstGreatest, Raised32, Raised;
    var raised, k := Raised(w, s.cur), FirstGreatest(Raised(w, s.cur));
    forall i | 0 <= i < |w|
      ensures After32(w, s32.cur)[i] == Wrap32(Pick(w, s).cur[i])
    {
      WrapFits(raised[i]);
    }
  }

  lemma {:induction false} AlikeRun(w: seq<u32>, t: nat)
    requires w != [] && 2 * Sum(w) < TWO_32
    requires forall u: nat | u < t :: Lifted(w, Run(w, u))
    ensures Alike(Run32(w, t), Run(w, t))
  {
    hide *;
    RunStep(w, t);
    Run32Step(w, t);
    if t == 0 {
      AlikeStart(w);
    } else {
      AlikeRun(w, t - 1);
      RunSum(w, t - 1);
      AlikeStep(w, Run32(w, t - 1), Run(w, t - 1));
    }
  }

  lemma AlikeStart(w: seq<u32>)
    requires w != []
    ensures Alike(Start(w), Start(w)) && Lifted(w, Start(w))
  {
  }

  lemma AlikePicks(s32: State, s: State)
    requires Alike(s32, s)
    ensures s32.picks == s.picks
  {
  }

  lemma {:induction false} SumZero(w: seq<nat>)
    requires Sum(w) == 0
    ensures forall i | 0 <= i < |w| :: w[i] == 0
  {
    forall i | 0 <= i < |w|
      ensures w[i] == 0
    {
      SumCovers(w, i);
    }
  }

  lemma {:induction false} IdleRun(w: seq<nat>, t: nat)
    requires w != [] && forall i | 0 <= i < |w| :: w[i] == 0
    ensures forall i | 0 <= i < |w| :: Run(w, t).cur[i] == 0
  {
    if t != 0 {
      IdleRun(w, t - 1);
      AllZero(w);
    }
  }

  /** What holds of the first period holds for ever. */
  lemma LiftedForEver(w: seq<nat>, t: nat)
    requires w != [] && AlwaysLifted(w)
    ensures Lifted(w, Run(w, t))
  {
    hide Run, Sum;
    SumNonNegative(w);
    if Sum(w) == 0 {
      SumZero(w);
      IdleRun(w, t);
    } else {
      var m, u := t / Sum(w), t % Sum(w);
      assert t == Sum(w) * m + u;
      assert m * Sum(w) == Sum(w) * m;
      PicksRepeat(w, m, m * Sum(w), u);
      assert Lifted(w, Run(w, u));
    }
  }

  /** The first pick in which a node is raised to less than zero. */
  lemma {:induction false} FirstSunk(w: seq<nat>, t: nat) returns (u: nat)
    requires w != [] && !Lifted(w, Run(w, t))
    ensures 0 < u <= t && !Lifted(w, Run(w, u)) && forall v: nat | v < u :: Lifted(w, Run(w, v))
  {
    hide Run, Lifted, Pick, FirstGreatest;
    if v: nat :| v < t && !Lifted(w, Run(w, v)) {
      u := FirstSunk(w, v);
    } else {
      u := t;
      StartLifted(w);
      RunStep(w, 0);
    }
  }

  lemma StartLifted(w: seq<nat>)
    ensures Lifted(w, Start(w))
  {
  }

  /** In that pick only the node picked just before is below zero, and no other is far above. */
  lemma OnlyPickedSinks(w: seq<u32>, s: State, k: nat, r: State)
    requires Fits(w, s) && Picked(w, s, k, r) && Lifted(w, s) && !Lifted(w, r)
    ensures r.cur[k] + w[k] < 0
    ensures forall j | 0 <= j < |w| && j != k :: 0 <= r.cur[j] + w[j] <= r.cur[k] + Sum(w) + w[j]
  {
    hide Sum;
    var i :| 0 <= i < |w| && r.cur[i] + w[i] < 0;
    assert i == k;
  }

  lemma SunkWraps(w: seq<u32>, r: State, k: nat, r32: State, j: nat)
    requires Fits(w, r) && Alike(r32, r) && k < |w| && j < |w| && j != k
    requires 2 * Sum(w) < TWO_32 && -Sum(w) < r.cur[k]
    requires r.cur[k] + w[k] < 0 && 0 <= r.cur[j] + w[j] <= r.cur[k] + Sum(w) + w[j]
    ensures Raised32(w, r32.cur)[j] < Raised32(w, r32.cur)[k]
  {
    hide Sum, Wrap32;
    SumCovers(w, j);
    WrapRaised(r.cur[j], w[j]);
    WrapFits(r.cur[j] + w[j]);
    WrapRaised(r.cur[k], w[k]);
    WrapFits(r.cur[k] + w[k]);
  }

  /** The integers pass that node over; over uint32 it wraps above every other and is picked again. */
  lemma SunkIsPickedAgain(w: seq<u32>, s: State, k: nat, r: State, r32: State)
    requires Fits(w, s) && Picked(w, s, k, r) && Lifted(w, s) && !Lifted(w, r) && Sum(s.cur) == Sum(w)
    requires 0 < Sum(w) && 2 * Sum(w) < TWO_32 && AboveFloor(w, r) && Alike(r32, r)
    ensures FirstGreatest(Raised(w, r.cur)) != k && Choice32(w, r32.cur) == k
  {
    OnlyPickedSinks(w, s, k, r);
    SumLinear(Raised(w, r.cur), 1, r.cur, 1, w);
    SomePositive(Raised(w, r.cur));
    hide Sum, Wrap32, FirstGreatest, Lifted, Alike, Raised32;
    forall j | 0 <= j < |w| && j != k
      ensures Raised32(w, r32.cur)[j] < Raised32(w, r32.cur)[k]
    {
      SunkWraps(w, r, k, r32, j);
    }
  }

  lemma SomePositive(s: seq<int>)
    requires s != [] && 0 < Sum(s)
    ensures 0 < s[FirstGreatest(s)]
  {
    hide FirstGreatest;
    var top := s[FirstGreatest(s)];
    if top <= 0 {
      SumAtMost(s, top);
      MulMonotone(|s|, top, 0);
    }
  }

  lemma PicksPart(w: seq<u32>, s: State, s32: State)
    requires Fits(w, s) && Fits(w, s32) && s.picks == s32.picks
    requires FirstGreatest(Raised(w, s.cur)) != Choice32(w, s32.cur)
    ensures Pick(w, s).picks != Pick32(w, s32).picks
  {
    hide FirstGreatest;
    var k := Choice32(w, s32.cur);
    assert Pick(w, s).picks[k] == s.picks[k] && Pick32(w, s32).picks[k] == s.picks[k] + 1;
  }

  /** One node below zero is enough to part the two pickers, at once. */
  lemma SunkParts(w: seq<u32>, t: nat)
    requires w != [] && 0 < Sum(w) && 2 * Sum(w) < TWO_32
    requires 0 < t && !Lifted(w, Run(w, t)) && forall u: nat | u < t :: Lifted(w, Run(w, u))
    ensures Run32(w, t + 1).picks != Run(w, t + 1).picks
  {
    hide *;
    AlikeRun(w, t);
    AlikePicks(Run32(w, t), Run(w, t));
    RunFloor(w, t);
    RunSum(w, t - 1);
    RunStep(w, t);
    RunStep(w, t + 1);
    Run32Step(w, t + 1);
    var k := PickEffect(w, Run(w, t - 1));
    SunkIsPickedAgain(w, Run(w, t - 1), k, Run(w, t), Run32(w, t));
    PicksPart(w, Run(w, t), Run32(w, t));
  }

  /** The uint32 picker serves what the integer one serves, for ever, exactly when no node is raised
      to less than zero within the first period. */
  lemma PicksAgreeIff(w: seq<u32>)
    requires w != [] && 2 * Sum(w) < TWO_32
    ensures (forall t: nat :: Run32(w, t).picks == Run(w, t).picks) <==> AlwaysLifted(w)
  {
    hide Run, Run32, Lifted, Sum;
    if AlwaysLifted(w) {
      forall t: nat
        ensures Run32(w, t).picks == Run(w, t).picks
      {
        forall u: nat | u < t
          ensures Lifted(w, Run(w, u))
        {
          LiftedForEver(w, u);
        }
        AlikeRun(w, t);
        AlikePicks(Run32(w, t), Run(w, t));
      }
    } else {
      var t :| 0 <= t < Sum(w) && !Lifted(w, Run(w, t));
      var u := FirstSunk(w, t);
      SunkParts(w, u);
      assert Run32(w, u + 1).picks != Run(w, u + 1).picks;
    }
  }

  /** At most two weighted nodes always agree ... */
  lemma TwoPickAlike(w: seq<u32>)
    requires w != [] && 2 * Sum(w) < TWO_32 && Positive(w) <= 2
    ensures AlwaysLifted(w)
  {
    hide Run, Sum;
    forall t | 0 <= t < Sum(w)
      ensures Lifted(w, Run(w, t))
    {
      TwoNeverNegative(w, t);
    }
  }

  /** ... four or more never do, and the condition tells which triples do. */
  lemma FourPartWays(w: seq<u32>)
    requires w != [] && 2 * Sum(w) < TWO_32 && 4 <= Positive(w)
    ensures exists t: nat :: Run32(w, t).picks != Run(w, t).picks
  {
    hide Run, Run32, Sum;
    PositiveAtMostSum(w);
    var t: nat := Sum(w) - 3;
    FourSink(w, t);
    assert !AlwaysLifted(w);
    PicksAgreeIff(w);
  }

  lemma FourSink(w: seq<nat>, t: nat)
    requires w != [] && 4 <= Positive(w) && t + 3 == Sum(w)
    ensures !Lifted(w, Run(w, t))
  {
    var s := Run(w, t);
    RunIdentity(w, t);
    hide Run, Sum, Positive;
    if Lifted(w, s) {
      forall i | 0 <= i < |w|
        ensures s.picks[i] <= w[i] - (if 0 < w[i] then 1 else 0)
      {
        LiftedShare(w, s, t, i);
      }
      PositiveShort(w, s.picks);
    }
  }

  lemma LiftedShare(w: seq<nat>, s: State, t: nat, i: nat)
    requires Balanced(w, s, t) && Lifted(w, s) && i < |w| && t + 3 == Sum(w)
    ensures s.picks[i] <= w[i] - (if 0 < w[i] then 1 else 0)
  {
    var n := t + 2;
    hide Sum;
    assert Times(n, w[i]) == Times(t + 1, w[i]) + w[i];
    hide Times;
    PicksBelowWeight(w[i], Sum(w), s.picks[i]);
  }

  lemma TwoAgree(w: seq<u32>, t: nat)
    requires w != [] && Positive(w) <= 2 && 2 * Sum(w) < TWO_32
    ensures Run32(w, t) == Run(w, t)
  {
    hide Run, Run32, Sum, Wrap32;
    forall u: nat | u <= t
      ensures NoneNegative(Run(w, u))
    {
      TwoNeverNegative(w, u);
    }
    AlikeRun(w, t);
    RunSum(w, t);
    SumNonNegative(w);
    forall i | 0 <= i < |w|
      ensures Run32(w, t).cur[i] == Run(w, t).cur[i]
    {
      SumCovers(Run(w, t).cur, i);
      WrapFits(Run(w, t).cur[i]);
    }
  }

  /** Exactly when no current weight of the uint32 picker ever differs from the integer one, so that
      nothing ever wraps: when at most two of the candidates carry a weight. */
  lemma NeverWrapsIff(w: seq<u32>)
    requires w != [] && 2 * Sum(w) < TWO_32
    ensures (forall t: nat :: Run32(w, t) == Run(w, t)) <==> Positive(w) <= 2
  {
    if Positive(w) <= 2 {
      forall t: nat
        ensures Run32(w, t) == Run(w, t)
      {
        TwoAgree(w, t);
      }
    } else {
      PositiveAtMostSum(w);
      var t: nat := Sum(w) - 2;
      ThreeGoNegative(w, t);
      U32State(w, t);
      assert Run32(w, t) != Run(w, t);
    }
  }

  /** The picked node named by hand. */
  lemma PickIs(w: seq<nat>, s: State, raised: seq<int>, k: nat, total: int)
    requires Fits(w, s) && raised == Raised(w, s.cur) && total == Sum(w) && raised != []
    requires k == FirstGreatest(raised)
    ensures Pick(w, s).cur == raised[k := raised[k] - total]
  {
    hide FirstGreatest, Sum;
  }

  lemma OnlyGreatest(s: seq<int>, k: nat)
    requires k < |s| && (forall i | 0 <= i < |s| :: s[i] <= s[k]) && (forall i | 0 <= i < k :: s[i] < s[k])
    ensures FirstGreatest(s) == k
  {
    var found := FirstGreatest(s);
    hide FirstGreatest;
    assert s[found] <= s[k] <= s[found];
  }

  lemma ThreeOnesRun(w: seq<nat>)
    requires w == [1, 1, 1] && Sum(w) == 3
    ensures Run(w, 0).cur == [1, 1, 1] && Run(w, 1).cur == [-1, 2, 2] && Run(w, 2).cur == [0, 0, 3]
  {
    hide Run, Pick, Sum, FirstGreatest;
    RunStep(w, 0);
    OnlyGreatest([2, 2, 2], 0);
    PickIs(w, Run(w, 0), [2, 2, 2], 0, 3);
    RunStep(w, 1);
    OnlyGreatest([0, 3, 3], 1);
    PickIs(w, Run(w, 1), [0, 3, 3], 1, 3);
    RunStep(w, 2);
  }

  /** Three nodes of weight 1 wrap on the first pick and agree all the same. */
  lemma ThreeOnesAgree(w: seq<u32>)
    requires w == [1, 1, 1]
    ensures AlwaysLifted(w) && Run32(w, 1) != Run(w, 1)
  {
    hide Run, Run32, Sum;
    SumOfThree(w);
    ThreeOnesRun(w);
    assert Run(w, 1).cur[0] == -1;
    U32State(w, 1);
    forall t | 0 <= t < Sum(w)
      ensures Lifted(w, Run(w, t))
    {
      assert t == 0 || t == 1 || t == 2;
    }
  }

  lemma U32State(w: seq<u32>, t: nat)
    requires w != []
    ensures NoneNegative(Run32(w, t))
  {
    hide Run32;
    Run32Congruence(w, t);
  }

  lemma SumOfThree(w: seq<nat>)
    requires w == [1, 1, 1]
    ensures Sum(w) == 3
  {
    var none: seq<int> := [];
    hide Sum;
    SumNothing();
    SumPush(none, 1);
    SumPush(none + [1], 1);
    SumPush(none + [1] + [1], 1);
    assert w == none + [1] + [1] + [1];
  }

  lemma SumNothing()
    ensures Sum([]) == 0
  {
  }

  /** One uint32 pick among four nodes of weight 1 when the first one leads. */
  lemma LeaderPick(w: seq<u32>, s: State, c0: u32, c: u32, p: nat)
    requires w == [1, 1, 1, 1] && Sum(w) == 4
    requires s == State([c0, c, c, c], [p, 0, 0, 0])
    requires c <= c0 < TWO_32 - 1
    ensures Pick32(w, s) == State([Wrap32(c0 - 3), c + 1, c + 1, c + 1], [p + 1, 0, 0, 0])
  {
    hide FirstGreatest, Sum;
    var raised := Raised32(w, s.cur);
    assert raised == [c0 + 1, c + 1, c + 1, c + 1];
    var k := FirstGreatest(raised);
    assert k == 0 by {
      assert raised[0] == c0 + 1;
      assert forall i | 0 < i < 4 :: raised[i] == c + 1;
    }
  }

  lemma SumOfFour(w: seq<nat>)
    requires w == [1, 1, 1, 1]
    ensures Sum(w) == 4
  {
    var none: seq<int> := [];
    hide Sum;
    SumNothing();
    SumPush(none, 1);
    SumPush(none + [1], 1);
    SumPush(none + [1] + [1], 1);
    SumPush(none + [1] + [1] + [1], 1);
    assert w == none + [1] + [1] + [1] + [1];
  }

  /** Four nodes of weight 1. The integer picker serves each once in every four picks. */
  lemma IntegerServesEach(w: seq<nat>, m: nat)
    requires w == [1, 1, 1, 1]
    ensures Run(w, 4 * m).picks == [m, m, m, m]
  {
    SumOfFour(w);
    TimesProduct(m, 4);
    TimesProduct(m, 1);
    hide Run;
    Periodic(w, m, 4 * m);
  }

  /** The state in which the first of four has been picked t times and the others never. */
  ghost predicate Starved(s: State, t: nat) {
    s == State([Wrap32(1 - 3 * t), 1 + t, 1 + t, 1 + t], [t, 0, 0, 0])
  }

  lemma StarveStart(w: seq<u32>)
    requires w == [1, 1, 1, 1]
    ensures Starved(Start(w), 0)
  {
  }

  lemma StarveStep(w: seq<u32>, s: State, t: nat)
    requires w == [1, 1, 1, 1] && Sum(w) == 4 && t < 0x4000_0000 && Starved(s, t)
    ensures Fits(w, s) && Starved(Pick32(w, s), t + 1)
  {
    hide Pick32, Sum;
    LeaderPick(w, s, Wrap32(1 - 3 * t), t + 1, t);
  }

  /** The uint32 picker serves the first of them and nobody else for a billion picks: its wrapped
      weight stays the greatest. */
  lemma {:induction false} Uint32Starves(w: seq<u32>, t: nat)
    requires w == [1, 1, 1, 1] && t <= 0x4000_0000
    ensures Starved(Run32(w, t), t)
  {
    hide *;
    SumOfFour(w);
    Run32Step(w, t);
    if t == 0 {
      StarveStart(w);
    } else {
      Uint32Starves(w, t - 1);
      StarveStep(w, Run32(w, t - 1), t - 1);
    }
  }
}
