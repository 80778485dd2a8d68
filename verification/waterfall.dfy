/** The arithmetic of the budget waterfall. Money is counted in micro-dollars
    and percentages in hundredths of a percent. */
module Waterfall {
  import opened Prelude
  import opened Forest

  const HUNDRED_PERCENT: int := 10_000

  /** n / d rounded to the nearest integer, ties away from zero. */
  function RoundHalfUp(n: int, d: int): int
    requires d > 0
  {
    if n >= 0 then (2 * n + d) / (2 * d) else -((-2 * n + d) / (2 * d))
  }

  /** Rounding moves a non-negative quotient by at most one half, ties going up. */
  lemma RoundHalfUpNearest(n: int, d: int)
    requires d > 0 && n >= 0
    ensures RoundHalfUp(n, d) >= 0
    ensures 2 * n - d < 2 * d * RoundHalfUp(n, d) <= 2 * n + d
  {
    var q := (2 * n + d) / (2 * d);
    assert 2 * n + d == (2 * d) * q + (2 * n + d) % (2 * d);
  }

  function ShareOf(gross: int, pct: int): int {
    RoundHalfUp(gross * pct, HUNDRED_PERCENT)
  }

  /** The gross pools handed to the allocated children, in order. `pcts` holds
      the percentages still to serve, `pool` what is left of `gross`. */
  function Split(gross: int, total: int, pool: int, pcts: seq<int>): (shares: seq<int>)
    ensures |shares| == |pcts|
    decreases |pcts|
  {
    if pcts == [] then []
    else
      var share := if |pcts| == 1 && total == HUNDRED_PERCENT then pool
                   else Min(ShareOf(gross, pcts[0]), pool);
      [share] + Split(gross, total, pool - share, pcts[1..])
  }

  function Shares(gross: int, pcts: seq<int>): seq<int> {
    Split(gross, Sum(pcts), gross, pcts)
  }

  function Allowance(gross: int, pcts: seq<int>): int {
    Max(gross - Sum(Shares(gross, pcts)), 0)
  }

  ghost predicate AllPositive(pcts: seq<int>) {
    forall i :: 0 <= i < |pcts| ==> pcts[i] > 0
  }

  // ---------------------------------------------------------------------
  // One manager's split
  // ---------------------------------------------------------------------

  lemma {:induction false} SplitWithinPool(gross: int, total: int, pool: int, pcts: seq<int>)
    requires gross >= 0 && pool >= 0 && AllPositive(pcts)
    ensures forall i :: 0 <= i < |pcts| ==> Split(gross, total, pool, pcts)[i] >= 0
    ensures Sum(Split(gross, total, pool, pcts)) <= pool
    ensures pcts != [] && total == HUNDRED_PERCENT ==> Sum(Split(gross, total, pool, pcts)) == pool
  {
    if pcts != [] {
      var shares := Split(gross, total, pool, pcts);
      RoundHalfUpNearest(gross * pcts[0], HUNDRED_PERCENT);
      SplitWithinPool(gross, total, pool - shares[0], pcts[1..]);
      assert shares[1..] == Split(gross, total, pool - shares[0], pcts[1..]);
    }
  }

  /** Nothing is created or lost at a manager, and a manager who gives away
      exactly 100 percent keeps exactly nothing. */
  lemma SplitConserves(gross: int, pcts: seq<int>)
    requires gross >= 0 && AllPositive(pcts)
    ensures Sum(Shares(gross, pcts)) + Allowance(gross, pcts) == gross
    ensures Sum(pcts) == HUNDRED_PERCENT ==> Allowance(gross, pcts) == 0
    ensures forall i :: 0 <= i < |pcts| ==> 0 <= Shares(gross, pcts)[i]
  {
    SplitWithinPool(gross, Sum(pcts), gross, pcts);
  }

  /** What the first `i` children took, and the position of the pool after them. */
  lemma {:induction false} SplitAt(gross: int, total: int, pool: int, pcts: seq<int>, i: nat)
    requires i < |pcts|
    ensures var shares := Split(gross, total, pool, pcts);
            var rest := pool - Sum(shares[..i]);
            shares[i] == if i == |pcts| - 1 && total == HUNDRED_PERCENT then rest
                         else Min(ShareOf(gross, pcts[i]), rest)
    decreases i
  {
    var shares := Split(gross, total, pool, pcts);
    if i > 0 {
      SplitAt(gross, total, pool - shares[0], pcts[1..], i - 1);
      assert shares[..i] == [shares[0]] + shares[1..][..i - 1];
      assert shares[..i][1..] == shares[1..][..i - 1];
    }
  }

  lemma {:induction false} SumTakeStep(s: seq<int>, i: nat)
    requires i < |s|
    ensures Sum(s[..i + 1]) == Sum(s[..i]) + s[i]
  {
    assert s[..i + 1] == s[..i] + [s[i]];
    SumAppend(s[..i], [s[i]]);
  }

  lemma Distribute(a: int, b: int, c: int)
    ensures a * (b + c) == a * b + a * c
  {
  }

  lemma Monotone(a: int, b: int, c: int)
    requires a >= 0 && b <= c
    ensures a * b <= a * c
  {
  }

  /** The drift of a prefix, scaled by 20 000: within half a micro-dollar per
      child above, and below too unless the pool has run dry. */
  ghost predicate Drifts(taken: int, exact: int, gross: int, i: nat) {
    && 0 <= taken <= gross
    && 2 * HUNDRED_PERCENT * taken <= 2 * exact + i * HUNDRED_PERCENT
    && (taken == gross || 2 * exact - i * HUNDRED_PERCENT <= 2 * HUNDRED_PERCENT * taken)
  }

  /** The exact shares, scaled by 10 000. */
  ghost function ExactShares(gross: int, pcts: seq<int>): (exact: seq<int>)
    ensures |exact| == |pcts|
  {
    if pcts == [] then [] else [gross * pcts[0]] + ExactShares(gross, pcts[1..])
  }

  lemma {:induction false} ExactSharesAt(gross: int, pcts: seq<int>)
    requires gross >= 0 && AllPositive(pcts)
    ensures forall i :: 0 <= i < |pcts| ==> ExactShares(gross, pcts)[i] == gross * pcts[i] >= 0
    ensures Sum(ExactShares(gross, pcts)) == gross * Sum(pcts)
  {
    if pcts != [] {
      ExactSharesAt(gross, pcts[1..]);
      Distribute(gross, pcts[0], Sum(pcts[1..]));
      assert ExactShares(gross, pcts)[1..] == ExactShares(gross, pcts[1..]);
      assert gross * pcts[0] >= 0;
    }
  }

  /** What the first `i` children took, against their exact shares. */
  lemma {:induction false} PrefixDrift(gross: int, pcts: seq<int>, exact: seq<int>, i: nat)
    requires gross >= 0 && |exact| == |pcts| && i < |pcts|
    requires forall j :: 0 <= j < |pcts| ==> exact[j] == gross * pcts[j] >= 0
    ensures Drifts(Sum(Shares(gross, pcts)[..i]), Sum(exact[..i]), gross, i)
  {
    if i > 0 {
      PrefixDrift(gross, pcts, exact, i - 1);
      SplitAt(gross, Sum(pcts), gross, pcts, i - 1);
      SumTakeStep(Shares(gross, pcts), i - 1);
      SumTakeStep(exact, i - 1);
      DriftStep(gross, Sum(Shares(gross, pcts)[..i - 1]), Sum(exact[..i - 1]), exact[i - 1], i - 1);
    }
  }

  lemma DriftStep(gross: int, taken: int, exact: int, next: int, i: nat)
    requires next >= 0 && Drifts(taken, exact, gross, i)
    ensures var share := Min(RoundHalfUp(next, HUNDRED_PERCENT), gross - taken);
            Drifts(taken + share, exact + next, gross, i + 1)
  {
    RoundHalfUpNearest(next, HUNDRED_PERCENT);
  }

  /** The i-th share is within max(1, i) / 2 of its exact value, scaled by 10 000. */
  ghost predicate NearShare(share: int, exact: int, i: nat) {
    var drift := 2 * (HUNDRED_PERCENT * share - exact);
    -(Max(1, i) * HUNDRED_PERCENT) <= drift <= Max(1, i) * HUNDRED_PERCENT
  }

  lemma ShareDrift(gross: int, pcts: seq<int>, exact: seq<int>, i: nat)
    requires gross >= 0 && |exact| == |pcts| && i < |pcts|
    requires forall j :: 0 <= j < |pcts| ==> exact[j] == gross * pcts[j] >= 0
    requires Sum(exact) <= gross * HUNDRED_PERCENT
    requires Sum(pcts) == HUNDRED_PERCENT ==> Sum(exact) == gross * HUNDRED_PERCENT
    ensures NearShare(Shares(gross, pcts)[i], exact[i], i)
  {
    var last := i == |pcts| - 1 && Sum(pcts) == HUNDRED_PERCENT;
    PrefixDrift(gross, pcts, exact, i);
    SplitAt(gross, Sum(pcts), gross, pcts, i);
    assert exact[i] == gross * pcts[i];
    RoundHalfUpNearest(exact[i], HUNDRED_PERCENT);
    PrefixOf(exact, i);
    NearExact(gross, Sum(Shares(gross, pcts)[..i]), Sum(exact[..i]), exact[i], ShareOf(gross, pcts[i]),
              Shares(gross, pcts)[i], i, last);
  }

  lemma PrefixOf(exact: seq<int>, i: nat)
    requires i < |exact| && forall j :: 0 <= j < |exact| ==> exact[j] >= 0
    ensures Sum(exact[..i]) + exact[i] <= Sum(exact)
    ensures i == |exact| - 1 ==> Sum(exact[..i]) + exact[i] == Sum(exact)
  {
    SumTakeStep(exact, i);
    SumTakeNonNegative(exact, i + 1);
    assert i == |exact| - 1 ==> exact[..i + 1] == exact;
  }

  /** The i-th allocated child gets within max(1, i) / 2 micro-dollars of its
      exact share, whether it is rounded, capped by the pool, or takes what is
      left. Stated with both sides multiplied by 20 000. */
  lemma ShareNearExact(gross: int, pcts: seq<int>, i: nat)
    requires gross >= 0 && AllPositive(pcts) && i < |pcts| && Sum(pcts) <= HUNDRED_PERCENT
    ensures var drift := 2 * (HUNDRED_PERCENT * Shares(gross, pcts)[i] - gross * pcts[i]);
            -(Max(1, i) * HUNDRED_PERCENT) <= drift <= Max(1, i) * HUNDRED_PERCENT
  {
    ExactSharesAt(gross, pcts);
    Monotone(gross, Sum(pcts), HUNDRED_PERCENT);
    ShareDrift(gross, pcts, ExactShares(gross, pcts), i);
  }

  lemma {:induction false} SumTakeNonNegative(s: seq<int>, i: nat)
    requires i <= |s| && forall j :: 0 <= j < |s| ==> s[j] >= 0
    ensures 0 <= Sum(s[..i]) <= Sum(s)
  {
    if i > 0 {
      SumTakeNonNegative(s[1..], i - 1);
      assert s[..i][1..] == s[1..][..i - 1];
    } else if s != [] {
      SumTakeNonNegative(s[1..], 0);
    }
  }

  lemma NearExact(gross: int, taken: int, exact: int, next: int, rounded: int, share: int, i: nat, last: bool)
    requires next >= 0 && Drifts(taken, exact, gross, i)
    requires exact + next <= gross * HUNDRED_PERCENT
    requires last ==> exact + next == gross * HUNDRED_PERCENT
    requires 2 * next - HUNDRED_PERCENT < 2 * HUNDRED_PERCENT * rounded <= 2 * next + HUNDRED_PERCENT
    requires share == if last then gross - taken else Min(rounded, gross - taken)
    ensures NearShare(share, next, i)
  {
  }

  // ---------------------------------------------------------------------
  // The whole tree
  // ---------------------------------------------------------------------

  /** Allocation rows, unique by (manager, child). */
  type Allocations = map<(NodeId, NodeId), int>

  function PctOf(alloc: Allocations, manager: NodeId, child: NodeId): int {
    if (manager, child) in alloc then alloc[(manager, child)] else 0
  }

  /** The children with a positive percentage, in child order. */
  function Allocated(alloc: Allocations, manager: NodeId, kids: seq<Node>): seq<Node> {
    if kids == [] then []
    else (if PctOf(alloc, manager, kids[0].id) > 0 then [kids[0]] else [])
         + Allocated(alloc, manager, kids[1..])
  }

  function Pcts(alloc: Allocations, manager: NodeId, kids: seq<Node>): (pcts: seq<int>)
    ensures |pcts| == |kids|
  {
    if kids == [] then [] else [PctOf(alloc, manager, kids[0].id)] + Pcts(alloc, manager, kids[1..])
  }

  function PositivePcts(alloc: Allocations, manager: NodeId, kids: seq<Node>): seq<int> {
    Pcts(alloc, manager, Allocated(alloc, manager, kids))
  }

  lemma {:induction false} PctsAt(alloc: Allocations, manager: NodeId, kids: seq<Node>)
    ensures forall i :: 0 <= i < |kids| ==> Pcts(alloc, manager, kids)[i] == PctOf(alloc, manager, kids[i].id)
  {
    if kids != [] { PctsAt(alloc, manager, kids[1..]); }
  }

  lemma {:induction false} AllocatedSpec(alloc: Allocations, manager: NodeId, kids: seq<Node>)
    ensures AllPositive(PositivePcts(alloc, manager, kids))
    ensures forall n :: n in Allocated(alloc, manager, kids)
              <==> n in kids && PctOf(alloc, manager, n.id) > 0
  {
    if kids != [] {
      AllocatedSpec(alloc, manager, kids[1..]);
      var rest := Allocated(alloc, manager, kids[1..]);
      assert ([kids[0]] + rest)[1..] == rest && [] + rest == rest;
      assert PositivePcts(alloc, manager, kids) ==
             (if PctOf(alloc, manager, kids[0].id) > 0 then [PctOf(alloc, manager, kids[0].id)] else [])
             + PositivePcts(alloc, manager, kids[1..]);
    }
  }

  /** Hands the shares to the children that have one; the others get nothing. */
  function Spread(alloc: Allocations, manager: NodeId, kids: seq<Node>, shares: seq<int>): (pools: seq<int>)
    requires |shares| == |Allocated(alloc, manager, kids)|
    ensures |pools| == |kids|
  {
    if kids == [] then []
    else if PctOf(alloc, manager, kids[0].id) > 0
    then [shares[0]] + Spread(alloc, manager, kids[1..], shares[1..])
    else [0] + Spread(alloc, manager, kids[1..], shares)
  }

  function KidPools(alloc: Allocations, manager: NodeId, kids: seq<Node>, inflow: int): (pools: seq<int>)
    ensures |pools| == |kids|
  {
    Spread(alloc, manager, kids, Shares(inflow, PositivePcts(alloc, manager, kids)))
  }

  lemma {:induction false} SpreadKeeps(alloc: Allocations, manager: NodeId, kids: seq<Node>, shares: seq<int>)
    requires |shares| == |Allocated(alloc, manager, kids)|
    requires forall i :: 0 <= i < |shares| ==> shares[i] >= 0
    ensures Sum(Spread(alloc, manager, kids, shares)) == Sum(shares)
    ensures forall i :: 0 <= i < |kids| ==> Spread(alloc, manager, kids, shares)[i] >= 0
  {
    if kids != [] {
      var pools := Spread(alloc, manager, kids, shares);
      if PctOf(alloc, manager, kids[0].id) > 0 {
        SpreadKeeps(alloc, manager, kids[1..], shares[1..]);
        assert pools[1..] == Spread(alloc, manager, kids[1..], shares[1..]);
      } else {
        SpreadKeeps(alloc, manager, kids[1..], shares);
        assert pools[1..] == Spread(alloc, manager, kids[1..], shares);
      }
    }
  }

  function SelfAllowance(alloc: Allocations, manager: NodeId, kids: seq<Node>, inflow: int): int {
    Allowance(inflow, PositivePcts(alloc, manager, kids))
  }

  /** At every node, the children's pools and the node's own allowance add up to
      its inflow. */
  lemma NodeConserves(alloc: Allocations, manager: NodeId, kids: seq<Node>, inflow: int)
    requires inflow >= 0
    ensures Sum(KidPools(alloc, manager, kids, inflow)) + SelfAllowance(alloc, manager, kids, inflow) == inflow
    ensures forall i :: 0 <= i < |kids| ==> KidPools(alloc, manager, kids, inflow)[i] >= 0
    ensures Sum(PositivePcts(alloc, manager, kids)) == HUNDRED_PERCENT ==>
              SelfAllowance(alloc, manager, kids, inflow) == 0
  {
    AllocatedSpec(alloc, manager, kids);
    SplitConserves(inflow, PositivePcts(alloc, manager, kids));
    SpreadKeeps(alloc, manager, kids, Shares(inflow, PositivePcts(alloc, manager, kids)));
  }

  /** What one node receives and keeps in a pass. */
  datatype Grant = Grant(node: Node, parent: Option<NodeId>, pct: Option<int>, inflow: int, allowance: int)

  /** The grants of a pass, in the order the recursion writes them. */
  function Plan(alloc: Allocations, t: Tree, inflow: int, parent: Option<NodeId>, pct: Option<int>): seq<Grant>
    decreases t
  {
    var kids := Roots(t.kids);
    [Grant(t.root, parent, pct, inflow, SelfAllowance(alloc, t.root.id, kids, inflow))]
    + PlanKids(alloc, t.root.id, t.kids, RootsPools(alloc, t, inflow))
  }

  function RootsPools(alloc: Allocations, t: Tree, inflow: int): (pools: seq<int>)
    ensures |pools| == |t.kids|
  {
    RootsAt(t.kids);
    KidPools(alloc, t.root.id, Roots(t.kids), inflow)
  }

  function PlanKids(alloc: Allocations, manager: NodeId, ts: seq<Tree>, pools: seq<int>): seq<Grant>
    requires |pools| == |ts|
    decreases ts
  {
    if ts == [] then []
    else Plan(alloc, ts[0], pools[0], Some(manager), Some(PctOf(alloc, manager, ts[0].root.id)))
         + PlanKids(alloc, manager, ts[1..], pools[1..])
  }

  function Allowances(plan: seq<Grant>): (r: seq<int>)
    ensures |r| == |plan| && forall i :: 0 <= i < |plan| ==> r[i] == plan[i].allowance
  {
    seq(|plan|, i requires 0 <= i < |plan| => plan[i].allowance)
  }

  function GrantIds(plan: seq<Grant>): (r: seq<NodeId>)
    ensures |r| == |plan| && forall i :: 0 <= i < |plan| ==> r[i] == plan[i].node.id
  {
    seq(|plan|, i requires 0 <= i < |plan| => plan[i].node.id)
  }

  lemma PlanAppend(a: seq<Grant>, b: seq<Grant>)
    ensures Allowances(a + b) == Allowances(a) + Allowances(b)
    ensures GrantIds(a + b) == GrantIds(a) + GrantIds(b)
  {
  }

  /** The whole company budget lands in self-allowances: not a micro-dollar more
      or less, for every tree and every allocation table. */
  lemma {:induction false} PlanConserves(alloc: Allocations, t: Tree, inflow: int, parent: Option<NodeId>,
                                         pct: Option<int>)
    requires inflow >= 0
    ensures Sum(Allowances(Plan(alloc, t, inflow, parent, pct))) == inflow
    decreases t
  {
    var pools := RootsPools(alloc, t, inflow);
    var head := [Grant(t.root, parent, pct, inflow, SelfAllowance(alloc, t.root.id, Roots(t.kids), inflow))];
    NodeConserves(alloc, t.root.id, Roots(t.kids), inflow);
    PlanKidsConserve(alloc, t.root.id, t.kids, pools);
    PlanAppend(head, PlanKids(alloc, t.root.id, t.kids, pools));
    assert Allowances(head) == [head[0].allowance];
    SumAppend(Allowances(head), Allowances(PlanKids(alloc, t.root.id, t.kids, pools)));
  }

  lemma {:induction false} PlanKidsConserve(alloc: Allocations, manager: NodeId, ts: seq<Tree>, pools: seq<int>)
    requires |pools| == |ts|
    requires forall i :: 0 <= i < |pools| ==> pools[i] >= 0
    ensures Sum(Allowances(PlanKids(alloc, manager, ts, pools))) == Sum(pools)
    decreases ts
  {
    if ts != [] {
      var first := Plan(alloc, ts[0], pools[0], Some(manager), Some(PctOf(alloc, manager, ts[0].root.id)));
      PlanConserves(alloc, ts[0], pools[0], Some(manager), Some(PctOf(alloc, manager, ts[0].root.id)));
      PlanKidsConserve(alloc, manager, ts[1..], pools[1..]);
      PlanAppend(first, PlanKids(alloc, manager, ts[1..], pools[1..]));
      SumAppend(Allowances(first), Allowances(PlanKids(alloc, manager, ts[1..], pools[1..])));
    }
  }

  /** The plan grants to the tree's nodes in the tree's order. */
  lemma {:induction false} PlanIds(alloc: Allocations, t: Tree, inflow: int, parent: Option<NodeId>, pct: Option<int>)
    ensures GrantIds(Plan(alloc, t, inflow, parent, pct)) == Ids(t)
    decreases t
  {
    var plan := Plan(alloc, t, inflow, parent, pct);
    PlanKidsIds(alloc, t.root.id, t.kids, RootsPools(alloc, t, inflow));
    PlanAppend(plan[..1], PlanKids(alloc, t.root.id, t.kids, RootsPools(alloc, t, inflow)));
    assert GrantIds(plan[..1]) == [t.root.id];
  }

  lemma {:induction false} PlanKidsIds(alloc: Allocations, manager: NodeId, ts: seq<Tree>, pools: seq<int>)
    requires |pools| == |ts|
    ensures GrantIds(PlanKids(alloc, manager, ts, pools)) == IdsAll(ts)
    decreases ts
  {
    if ts != [] {
      var pct := Some(PctOf(alloc, manager, ts[0].root.id));
      PlanIds(alloc, ts[0], pools[0], Some(manager), pct);
      PlanKidsIds(alloc, manager, ts[1..], pools[1..]);
      PlanAppend(Plan(alloc, ts[0], pools[0], Some(manager), pct), PlanKids(alloc, manager, ts[1..], pools[1..]));
    }
  }

  // ---------------------------------------------------------------------
  // Rounding along a branch
  // ---------------------------------------------------------------------

  /** A branch of the tree, as the kid index taken at each level. */
  ghost predicate IsBranch(t: Tree, branch: seq<nat>)
    decreases |branch|
  {
    branch == [] || (branch[0] < |t.kids| && IsBranch(t.kids[branch[0]], branch[1..]))
  }

  ghost function BranchInflow(alloc: Allocations, t: Tree, inflow: int, branch: seq<nat>): int
    requires IsBranch(t, branch)
    decreases |branch|
  {
    if branch == [] then inflow
    else BranchInflow(alloc, t.kids[branch[0]], RootsPools(alloc, t, inflow)[branch[0]], branch[1..])
  }

  /** The same branch without rounding, caps or remainders. */
  ghost function BranchExact(alloc: Allocations, t: Tree, inflow: real, branch: seq<nat>): real
    requires IsBranch(t, branch)
    decreases |branch|
  {
    if branch == [] then inflow
    else
      BranchExact(alloc, t.kids[branch[0]], ExactKid(inflow, KidPct(alloc, t, branch[0])), branch[1..])
  }

  ghost function ExactKid(exact: real, pct: int): real {
    exact * (pct as real) / 10000.0
  }

  ghost predicate LevelWithin(alloc: Allocations, t: Tree, bound: nat) {
    var pcts := PositivePcts(alloc, t.root.id, Roots(t.kids));
    Sum(pcts) <= HUNDRED_PERCENT && |pcts| <= bound + 1
  }

  /** Along the branch, no manager promises more than 100 percent or has more
      than `bound + 1` allocated children. */
  ghost predicate BranchWithin(alloc: Allocations, t: Tree, bound: nat, branch: seq<nat>)
    requires IsBranch(t, branch)
    decreases |branch|
  {
    branch != [] ==>
      LevelWithin(alloc, t, bound) && BranchWithin(alloc, t.kids[branch[0]], bound, branch[1..])
  }

  /** A kid's pool is the share of its place among the allocated kids. */
  lemma {:induction false} SpreadAt(alloc: Allocations, manager: NodeId, kids: seq<Node>, shares: seq<int>, k: nat)
    returns (i: nat)
    requires |shares| == |Allocated(alloc, manager, kids)| && k < |kids|
    ensures PctOf(alloc, manager, kids[k].id) <= 0 ==> Spread(alloc, manager, kids, shares)[k] == 0
    ensures PctOf(alloc, manager, kids[k].id) > 0 ==>
              && i < |shares| && Spread(alloc, manager, kids, shares)[k] == shares[i]
              && Allocated(alloc, manager, kids)[i] == kids[k]
  {
    i := 0;
    if PctOf(alloc, manager, kids[0].id) > 0 {
      if k > 0 {
        var j := SpreadAt(alloc, manager, kids[1..], shares[1..], k - 1);
        i := j + 1;
      }
    } else if k > 0 {
      i := SpreadAt(alloc, manager, kids[1..], shares, k - 1);
    }
  }

  /** One level down, a pool is off its exact share by at most max(1, bound) / 2. */
  lemma PoolNearExact(alloc: Allocations, manager: NodeId, kids: seq<Node>, inflow: int, k: nat, bound: nat)
    requires inflow >= 0 && k < |kids|
    requires Sum(PositivePcts(alloc, manager, kids)) <= HUNDRED_PERCENT
    requires |PositivePcts(alloc, manager, kids)| <= bound + 1
    ensures var drift := 2 * (HUNDRED_PERCENT * KidPools(alloc, manager, kids, inflow)[k]
                              - inflow * Max(PctOf(alloc, manager, kids[k].id), 0));
            -(Max(1, bound) * HUNDRED_PERCENT) <= drift <= Max(1, bound) * HUNDRED_PERCENT
    ensures Max(PctOf(alloc, manager, kids[k].id), 0) <= HUNDRED_PERCENT
  {
    var pcts := PositivePcts(alloc, manager, kids);
    AllocatedSpec(alloc, manager, kids);
    var i := SpreadAt(alloc, manager, kids, Shares(inflow, pcts), k);
    if PctOf(alloc, manager, kids[k].id) > 0 {
      PctsAt(alloc, manager, Allocated(alloc, manager, kids));
      ShareNearExact(inflow, pcts, i);
      SumTakeStep(pcts, i);
      SumTakeNonNegative(pcts, i + 1);
      SumTakeNonNegative(pcts, i);
    }
  }

  /** A real number and a bound on its size. */
  ghost predicate Within(x: real, err: real) {
    -err <= x <= err
  }

  lemma ProductNonNegative(x: real, y: real)
    requires x >= 0.0 && y >= 0.0
    ensures x * y >= 0.0
  {
  }

  lemma ScaledWithin(x: real, err: real, share: real)
    requires Within(x, err) && 0.0 <= share <= 1.0
    ensures Within(x * share, err)
  {
    var size := if x >= 0.0 then x else -x;
    ProductNonNegative(size, share);
    ProductNonNegative(size, 1.0 - share);
    assert size * (1.0 - share) == size - size * share;
    assert x * share == if x >= 0.0 then size * share else -(size * share);
  }

  function HalfUnits(n: int): real {
    (n as real) / 2.0
  }

  /** One level: the error carried down never grows, and rounding adds bound / 2. */
  lemma LevelStep(inflow: int, exact: real, pool: int, pct: int, carried: nat, bound: nat) returns (next: real)
    requires Within(inflow as real - exact, HalfUnits(carried)) && 0 <= pct <= HUNDRED_PERCENT
    requires -(bound * HUNDRED_PERCENT) <= 2 * (HUNDRED_PERCENT * pool - inflow * pct) <= bound * HUNDRED_PERCENT
    ensures next == ExactKid(exact, pct)
    ensures Within(pool as real - next, HalfUnits(carried + bound))
  {
    next := exact * (pct as real) / 10000.0;
    var share := (pct as real) / 10000.0;
    ScaledWithin(inflow as real - exact, HalfUnits(carried), share);
    assert (inflow as real - exact) * share == (inflow as real) * share - exact * share;
    assert (inflow * pct) as real == (inflow as real) * (pct as real);
    assert (inflow as real) * share == (inflow * pct) as real / 10000.0;
    assert exact * share == exact * (pct as real) / 10000.0;
  }

  function KidPct(alloc: Allocations, t: Tree, k: nat): int
    requires k < |t.kids|
  {
    Max(PctOf(alloc, t.root.id, t.kids[k].root.id), 0)
  }

  lemma KidDrift(alloc: Allocations, t: Tree, inflow: int, bound: nat, k: nat)
    requires bound >= 1 && inflow >= 0 && k < |t.kids| && LevelWithin(alloc, t, bound)
    ensures RootsPools(alloc, t, inflow)[k] >= 0
    ensures 0 <= KidPct(alloc, t, k) <= HUNDRED_PERCENT
    ensures var drift := 2 * (HUNDRED_PERCENT * RootsPools(alloc, t, inflow)[k] - inflow * KidPct(alloc, t, k));
            -(bound * HUNDRED_PERCENT) <= drift <= bound * HUNDRED_PERCENT
  {
    var kids := Roots(t.kids);
    RootsAt(t.kids);
    PoolNearExact(alloc, t.root.id, kids, inflow, k, bound);
    NodeConserves(alloc, t.root.id, kids, inflow);
  }

  function Levels(n: nat, bound: nat): nat {
    if n == 0 then 0 else bound + Levels(n - 1, bound)
  }

  lemma {:induction false} LevelsProduct(n: nat, bound: nat)
    ensures Levels(n, bound) == n * bound
  {
    if n > 0 { LevelsProduct(n - 1, bound); }
  }

  /** At depth d, the inflow is within d * B / 2 of the exact product of shares,
      where B bounds max(1, allocated children - 1) on the way down. */
  lemma {:induction false} BranchNearExact(alloc: Allocations, t: Tree, inflow: int, exact: real,
                                          bound: nat, branch: seq<nat>, carried: nat)
    requires bound >= 1 && inflow >= 0 && IsBranch(t, branch) && BranchWithin(alloc, t, bound, branch)
    requires Within(inflow as real - exact, HalfUnits(carried))
    ensures Within(BranchInflow(alloc, t, inflow, branch) as real - BranchExact(alloc, t, exact, branch),
                   HalfUnits(carried + Levels(|branch|, bound)))
    decreases |branch|
  {
    if branch != [] {
      var k := branch[0];
      var pool := RootsPools(alloc, t, inflow)[k];
      KidDrift(alloc, t, inflow, bound, k);
      var kidExact := LevelStep(inflow, exact, pool, KidPct(alloc, t, k), carried, bound);
      BranchNearExact(alloc, t.kids[k], pool, kidExact, bound, branch[1..], carried + bound);
    }
  }

  /** From the root allocator down, where the company budget is exact. */
  lemma InflowNearExact(alloc: Allocations, t: Tree, budget: nat, bound: nat, branch: seq<nat>)
    requires bound >= 1 && IsBranch(t, branch) && BranchWithin(alloc, t, bound, branch)
    ensures Within(BranchInflow(alloc, t, budget, branch) as real - BranchExact(alloc, t, budget as real, branch),
                   HalfUnits(|branch| * bound))
  {
    BranchNearExact(alloc, t, budget, budget as real, bound, branch, 0);
    LevelsProduct(|branch|, bound);
  }

  /** The inflow of a branch is the inflow of a grant of the plan. */
  lemma {:induction false} BranchIsGranted(alloc: Allocations, t: Tree, inflow: int, parent: Option<NodeId>,
                                          pct: Option<int>, branch: seq<nat>)
    requires IsBranch(t, branch)
    ensures exists g :: g in Plan(alloc, t, inflow, parent, pct)
              && g.node == BranchEnd(t, branch).root && g.inflow == BranchInflow(alloc, t, inflow, branch)
    decreases |branch|
  {
    var plan := Plan(alloc, t, inflow, parent, pct);
    if branch == [] {
      assert plan[0] in plan;
    } else {
      var k := branch[0];
      var pools := RootsPools(alloc, t, inflow);
      var kidPct := Some(PctOf(alloc, t.root.id, t.kids[k].root.id));
      BranchIsGranted(alloc, t.kids[k], pools[k], Some(t.root.id), kidPct, branch[1..]);
      PlanKidsHas(alloc, t.root.id, t.kids, pools, k);
    }
  }

  ghost function BranchEnd(t: Tree, branch: seq<nat>): Tree
    requires IsBranch(t, branch)
    decreases |branch|
  {
    if branch == [] then t else BranchEnd(t.kids[branch[0]], branch[1..])
  }

  lemma {:induction false} PlanKidsHas(alloc: Allocations, manager: NodeId, ts: seq<Tree>, pools: seq<int>, k: nat)
    requires |pools| == |ts| && k < |ts|
    ensures forall g :: g in Plan(alloc, ts[k], pools[k], Some(manager), Some(PctOf(alloc, manager, ts[k].root.id)))
              ==> g in PlanKids(alloc, manager, ts, pools)
  {
    if k > 0 { PlanKidsHas(alloc, manager, ts[1..], pools[1..], k - 1); }
  }
}
