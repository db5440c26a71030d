/**
 Smooth weighted round robin, the selection rule shared by the weighted pickers
 (internal/pkg/client/balancer): a pick raises every node's current weight by its efficient
 weight, takes the first greatest, and lowers that one by the total.

 Run is the rule over the integers; uint32_picker.dfy compares it with the rule as the source computes
 it. Weights stay what they were at build time: completions are not part of a run.
 */
module SmoothWeighted {
  import opened Sums

  datatype State = State(cur: seq<int>, picks: seq<nat>)

  ghost predicate Fits(w: seq<nat>, s: State) {
    w != [] && |s.cur| == |s.picks| == |w|
  }

  /** The loop keeps a candidate and replaces it only by a strictly greater node. */
  function FirstGreatest(s: seq<int>): (k: nat)
    requires s != []
    ensures k < |s|
    ensures forall i | 0 <= i < |s| :: s[i] <= s[k]
    ensures forall i | 0 <= i < k :: s[i] < s[k]
  {
    if |s| == 1 then 0
    else
      var k := FirstGreatest(s[..|s| - 1]);
      if s[k] < s[|s| - 1] then |s| - 1 else k
  }

  function Raised(w: seq<nat>, cur: seq<int>): (r: seq<int>)
    requires |w| == |cur|
  {
    seq(|w|, i requires 0 <= i < |w| => cur[i] + w[i])
  }

  function Start(w: seq<nat>): State {
    State(w, seq(|w|, _ => 0))
  }

  function Pick(w: seq<nat>, s: State): (r: State)
    requires Fits(w, s)
    ensures Fits(w, r)
  {
    var raised := Raised(w, s.cur);
    var k := FirstGreatest(raised);
    State(raised[k := raised[k] - Sum(w)], s.picks[k := s.picks[k] + 1])
  }

  /** The state after t picks. */
  function Run(w: seq<nat>, t: nat): (r: State)
    requires w != []
    ensures Fits(w, r)
  {
    if t == 0 then Start(w) else Pick(w, Run(w, t - 1))
  }

  // ---------------------------------------------------------------- fairness over the integers

  /** One pick of node k, node by node, without naming how k was found. */
  ghost predicate Picked(w: seq<nat>, s: State, k: nat, r: State) {
    && |s.cur| == |s.picks| == |r.cur| == |r.picks| == |w|
    && k < |w|
    && (forall i | 0 <= i < |w| :: s.cur[i] + w[i] <= s.cur[k] + w[k])
    && (forall i | 0 <= i < |w| :: r.cur[i] == s.cur[i] + w[i] - (if i == k then Sum(w) else 0))
    && (forall i | 0 <= i < |w| :: r.picks[i] == s.picks[i] + (if i == k then 1 else 0))
    && Sum(r.cur) == Sum(s.cur)
    && Sum(r.picks) == Sum(s.picks) + 1
    && Sum(s.cur) + Sum(w) <= |w| * (s.cur[k] + w[k])
  }

  lemma PickEffect(w: seq<nat>, s: State) returns (k: nat)
    requires Fits(w, s)
    ensures k == FirstGreatest(Raised(w, s.cur))
    ensures Picked(w, s, k, Pick(w, s))
    ensures Sum(Raised(w, s.cur)) == Sum(s.cur) + Sum(w)
  {
    hide FirstGreatest, Sum;
    var raised := Raised(w, s.cur);
    k := FirstGreatest(raised);
    assert raised[k] == s.cur[k] + w[k];
    SumLinear(raised, 1, s.cur, 1, w);
    SumUpdate(raised, k, raised[k] - Sum(w));
    SumUpdate(s.picks, k, s.picks[k] + 1);
    SumAtMost(raised, raised[k]);
  }

  lemma {:induction false} SumAtMost(s: seq<int>, top: int)
    requires forall i | 0 <= i < |s| :: s[i] <= top
    ensures Sum(s) <= |s| * top
  {
    if s != [] {
      SumAtMost(s[1..], top);
      assert |s| * top == |s[1..]| * top + top;
    }
  }

  /** A node's current weight is what it has been owed so far, its weight once at build and once
      for each pick, less the total for each time it was picked. */
  ghost predicate Balanced(w: seq<nat>, s: State, t: nat) {
    && |s.cur| == |s.picks| == |w|
    && (forall i | 0 <= i < |w| :: s.cur[i] == Times(t + 1, w[i]) - Times(s.picks[i], Sum(w)))
    && Sum(s.picks) == t
    && Sum(s.cur) == Sum(w)
  }

  lemma BalancedStep(w: seq<nat>, s: State, k: nat, r: State, t: nat)
    requires Balanced(w, s, t) && Picked(w, s, k, r)
    ensures Balanced(w, r, t + 1)
  {
    forall i | 0 <= i < |w|
      ensures r.cur[i] == Times(t + 2, w[i]) - Times(r.picks[i], Sum(w))
    {
      assert Times(t + 2, w[i]) == Times(t + 1, w[i]) + w[i];
      assert Times(s.picks[i] + 1, Sum(w)) == Times(s.picks[i], Sum(w)) + Sum(w);
    }
  }

  lemma BalancedStart(w: seq<nat>)
    requires w != []
    ensures Balanced(w, Start(w), 0)
  {
    AllZero(Start(w).picks);
    forall i | 0 <= i < |w|
      ensures Start(w).cur[i] == Times(1, w[i])
    {
      assert Times(1, w[i]) == Times(0, w[i]) + w[i];
    }
  }

  lemma RunStep(w: seq<nat>, t: nat)
    requires w != []
    ensures Run(w, 0) == Start(w)
    ensures 0 < t ==> Run(w, t) == Pick(w, Run(w, t - 1))
  {
    hide Pick;
  }

  /** The identity every run keeps. */
  lemma {:induction false} RunIdentity(w: seq<nat>, t: nat)
    requires w != []
    ensures Balanced(w, Run(w, t), t)
  {
    hide *;
    RunStep(w, t);
    if t == 0 {
      BalancedStart(w);
    } else {
      RunIdentity(w, t - 1);
      var k := PickEffect(w, Run(w, t - 1));
      BalancedStep(w, Run(w, t - 1), k, Run(w, t), t - 1);
    }
  }

  lemma RunSum(w: seq<nat>, t: nat)
    requires w != []
    ensures Sum(Run(w, t).cur) == Sum(w)
  {
    RunIdentity(w, t);
  }

  ghost predicate AboveFloor(w: seq<nat>, s: State)
  {
    |s.cur| == |w| && forall i | 0 <= i < |w| :: -Sum(w) < s.cur[i]
  }

  lemma FloorStart(w: seq<nat>)
    requires 0 < Sum(w)
    ensures AboveFloor(w, Start(w))
  {
  }

  lemma FloorStep(w: seq<nat>, s: State, t: nat, k: nat, r: State)
    requires 0 < Sum(w) && Balanced(w, s, t) && Picked(w, s, k, r) && AboveFloor(w, s)
    ensures AboveFloor(w, r)
  {
    if s.cur[k] + w[k] <= 0 {
      MulMonotone(|w|, s.cur[k] + w[k], 0);
    }
  }

  /** No current weight ever falls to the negated total or below: the selected node carries the
      greatest of raised weights whose sum is positive. */
  lemma {:induction false} RunFloor(w: seq<nat>, t: nat)
    requires w != [] && 0 < Sum(w)
    ensures AboveFloor(w, Run(w, t))
  {
    hide *;
    RunStep(w, t);
    if t == 0 {
      FloorStart(w);
    } else {
      RunFloor(w, t - 1);
      RunIdentity(w, t - 1);
      var k := PickEffect(w, Run(w, t - 1));
      FloorStep(w, Run(w, t - 1), t - 1, k, Run(w, t));
    }
  }

  /** picks_i(t) <= ceil((t + 1) * w_i / W) at every moment. */
  lemma NeverAhead(w: seq<nat>, t: nat, i: nat)
    requires w != [] && 0 < Sum(w) && i < |w|
    ensures Run(w, t).picks[i] <= ((t + 1) * w[i] + Sum(w) - 1) / Sum(w)
  {
    RunIdentity(w, t);
    RunFloor(w, t);
    CeilBound(t + 1, w[i], Sum(w), Run(w, t).picks[i]);
  }

  lemma CeilBound(n: nat, wi: int, total: int, p: nat)
    requires 0 < total && -total < Times(n, wi) - Times(p, total)
    ensures p <= (n * wi + total - 1) / total
  {
    TimesProduct(n, wi);
    TimesProduct(p, total);
    hide Times;
    BelowCeil(n * wi, p, total);
  }

  lemma BelowCeil(a: int, p: int, total: int)
    requires 0 < total && p * total < a + total
    ensures p <= (a + total - 1) / total
  {
    var x := a + total - 1;
    assert total * p == p * total;
    QuotientBound(p, x, total);
  }

  /** What remains owed to the nodes one pick before the end of the m-th period. */
  function Owed(w: seq<nat>, m: nat, picks: seq<nat>): seq<int>
    requires |w| == |picks|
  {
    seq(|w|, i requires 0 <= i < |w| => Times(m, w[i]) - picks[i])
  }

  lemma {:induction false} SumOwed(w: seq<nat>, m: nat, picks: seq<nat>)
    requires |w| == |picks|
    ensures Sum(Owed(w, m, picks)) == Times(m, Sum(w)) - Sum(picks)
  {
    forall i | 0 <= i < |w|
      ensures Owed(w, m, picks)[i] == m * w[i] - picks[i]
    {
      TimesProduct(m, w[i]);
    }
    TimesProduct(m, Sum(w));
    SumLinear(Owed(w, m, picks), m, w, -1, picks);
  }

  lemma {:induction false} OneLeft(d: seq<int>) returns (k: nat)
    requires forall i | 0 <= i < |d| :: 0 <= d[i]
    requires Sum(d) == 1
    ensures k < |d| && d[k] == 1 && forall i | 0 <= i < |d| && i != k :: d[i] == 0
  {
    if d[0] != 0 {
      k := 0;
      SumNonNegative(d[1..]);
      forall i | 0 < i < |d|
        ensures d[i] == 0
      {
        SumCovers(d[1..], i - 1);
      }
    } else {
      k := OneLeft(d[1..]);
      k := k + 1;
    }
  }

  lemma ShareArithmetic(share: int, total: int, p: int)
    requires 0 < total && -total < total * share - p * total
    ensures p <= share
  {
    assert total * (share + 1) == total * share + total;
    assert p * total == total * p;
    CancelFactor(total, p, share);
  }

  lemma {:induction false} TimesTimes(m: nat, wi: int, total: nat, n: nat)
    requires n == Times(m, total)
    ensures Times(n, wi) == total * Times(m, wi)
  {
    TimesProduct(m, total);
    TimesProduct(n, wi);
    TimesProduct(m, wi);
    Regroup(m, total, wi);
  }

  lemma Regroup(m: int, total: int, wi: int)
    ensures (m * total) * wi == total * (m * wi)
  {
  }

  lemma ShareBound(m: nat, wi: int, total: nat, p: nat, n: nat)
    requires 0 < total && n == Times(m, total)
    requires 0 < total + Times(n, wi) - Times(p, total)
    ensures p <= Times(m, wi)
  {
    TimesTimes(m, wi, total, n);
    TimesProduct(p, total);
    ShareArithmetic(Times(m, wi), total, p);
  }

  lemma EndArithmetic(share: int, total: int, p: int, gap: int)
    requires p == share - gap
    ensures total * share - p * total == gap * total
  {
    assert p * total == share * total - gap * total;
  }

  lemma PeriodEnd(m: nat, wi: int, total: nat, p: nat, gap: int, n: nat)
    requires n == Times(m, total)
    requires p == Times(m, wi) - gap
    ensures Times(n, wi) - Times(p, total) == gap * total
  {
    TimesTimes(m, wi, total, n);
    TimesProduct(p, total);
    EndArithmetic(Times(m, wi), total, p, gap);
  }

  lemma {:induction false} TimesGrows(n: nat, x: nat)
    ensures 0 <= Times(n, x)
    ensures 0 < n ==> x <= Times(n, x)
    ensures x == 0 ==> Times(n, x) == 0
  {
    if n != 0 {
      TimesGrows(n - 1, x);
    }
  }

  /** Each node has had its m-fold weight, except that node `short` lacks one pick. */
  ghost predicate Shares(w: seq<nat>, m: nat, picks: seq<nat>, short: int) {
    && |picks| == |w|
    && forall i | 0 <= i < |w| :: picks[i] == Times(m, w[i]) - (if i == short then 1 else 0)
  }

  lemma ShortState(w: seq<nat>, m: nat, t: nat, s: State) returns (short: nat)
    requires 0 < Sum(w) && t + 1 == Times(m, Sum(w))
    requires Balanced(w, s, t) && AboveFloor(w, s)
    ensures short < |w| && 0 < w[short] && Shares(w, m, s.picks, short)
  {
    var owed := Owed(w, m, s.picks);
    forall i | 0 <= i < |w|
      ensures 0 <= owed[i]
    {
      ShareBound(m, w[i], Sum(w), s.picks[i], t + 1);
    }
    SumOwed(w, m, s.picks);
    short := OneLeft(owed);
    forall i | 0 <= i < |w|
      ensures s.picks[i] == Times(m, w[i]) - (if i == short then 1 else 0)
    {
      assert owed[i] == Times(m, w[i]) - s.picks[i];
    }
    TimesGrows(m, w[short]);
  }

  /** After m*W - 1 picks every node has had exactly m*w_i, except one that is one short. */
  lemma ExactFairness(w: seq<nat>, m: nat, t: nat) returns (short: nat)
    requires w != [] && 0 < Sum(w) && t + 1 == m * Sum(w)
    ensures short < |w| && 0 < w[short]
    ensures forall i | 0 <= i < |w| :: Run(w, t).picks[i] == m * w[i] - (if i == short then 1 else 0)
  {
    TimesProduct(m, Sum(w));
    RunIdentity(w, t);
    RunFloor(w, t);
    short := ShortState(w, m, t, Run(w, t));
    forall i | 0 <= i < |w|
      ensures Times(m, w[i]) == m * w[i]
    {
      TimesProduct(m, w[i]);
    }
  }

  lemma LastPick(w: seq<nat>, m: nat, n: nat, s: State, k: nat, r: State, short: nat)
    requires 0 < n == Times(m, Sum(w)) && 0 < Sum(w)
    requires Balanced(w, s, n - 1) && Picked(w, s, k, r)
    requires short < |w| && 0 < w[short] && Shares(w, m, s.picks, short)
    ensures r.cur == w && Shares(w, m, r.picks, -1)
  {
    hide Sum, Times;
    forall i | 0 <= i < |w|
      ensures s.cur[i] == (if i == short then Sum(w) else 0) && w[i] <= Sum(w)
    {
      PeriodEnd(m, w[i], Sum(w), s.picks[i], if i == short then 1 else 0, n);
      SumCovers(w, i);
    }
    assert k == short;
  }

  lemma PeriodStart(w: seq<nat>, m: nat, n: nat)
    requires 0 == n == Times(m, Sum(w)) && 0 < Sum(w)
    ensures Start(w).cur == w && Shares(w, m, Start(w).picks, -1)
  {
    TimesGrows(m, Sum(w));
    assert m == 0;
  }

  lemma PeriodStep(w: seq<nat>, m: nat, n: nat, s: State)
    requires Fits(w, s) && 0 < n == Times(m, Sum(w)) && 0 < Sum(w)
    requires Balanced(w, s, n - 1) && AboveFloor(w, s)
    ensures Pick(w, s).cur == w && Shares(w, m, Pick(w, s).picks, -1)
  {
    hide Pick, Sum, Times, Balanced, Picked, Shares, AboveFloor;
    var short := ShortState(w, m, n - 1, s);
    var k := PickEffect(w, s);
    LastPick(w, m, n, s, k, Pick(w, s), short);
  }

  /** W picks bring every current weight back to where it started, each node having been picked
      exactly its weight. */
  lemma Periodic(w: seq<nat>, m: nat, n: nat)
    requires w != [] && 0 < Sum(w) && n == Times(m, Sum(w))
    ensures Run(w, n).cur == w && Shares(w, m, Run(w, n).picks, -1)
  {
    hide *;
    TimesGrows(m, Sum(w));
    RunStep(w, n);
    if n == 0 {
      PeriodStart(w, m, n);
    } else {
      RunIdentity(w, n - 1);
      RunFloor(w, n - 1);
      PeriodStep(w, m, n, Run(w, n - 1));
    }
  }

  lemma SharesProduct(w: seq<nat>, m: nat, picks: seq<nat>)
    requires Shares(w, m, picks, -1)
    ensures Start(w).cur == w
    ensures forall i | 0 <= i < |w| :: picks[i] == m * w[i] + Start(w).picks[i]
  {
    forall i | 0 <= i < |w|
      ensures Times(m, w[i]) == m * w[i]
    {
      TimesProduct(m, w[i]);
    }
  }

  lemma SameChoice(w: seq<nat>, s: State, s': State)
    requires Fits(w, s) && Fits(w, s') && s.cur == s'.cur
    ensures Pick(w, s).cur == Pick(w, s').cur
    ensures forall i | 0 <= i < |w| ::
              Pick(w, s').picks[i] - s'.picks[i] == Pick(w, s).picks[i] - s.picks[i]
  {
  }

  /** The sequence of picks is periodic: after m periods the picker does what it did at build. */
  lemma {:induction false} PicksRepeat(w: seq<nat>, m: nat, n: nat, t: nat)
    requires w != [] && 0 < Sum(w) && n == m * Sum(w)
    ensures Run(w, n + t).cur == Run(w, t).cur
    ensures forall i | 0 <= i < |w| :: Run(w, n + t).picks[i] == m * w[i] + Run(w, t).picks[i]
  {
    hide *;
    RunStep(w, 0);
    if t == 0 {
      TimesProduct(m, Sum(w));
      Periodic(w, m, n);
      SharesProduct(w, m, Run(w, n).picks);
      assert n + t == n;
    } else {
      PicksRepeat(w, m, n, t - 1);
      var s, s' := Run(w, t - 1), Run(w, n + t - 1);
      RunStep(w, t);
      RunStep(w, n + t);
      SameChoice(w, s, s');
    }
  }
}
