/** What passes leave in the single rows: mode, place in the hierarchy and spend,
    and when a cost is deducted from what carries over. */
module BudgetRows {
  import opened Prelude
  import opened Forest
  import opened Waterfall
  import opened BudgetEngine
  import opened BudgetRuns

  function SpendOf(rows: Rows, id: NodeId): int {
    if id in rows then rows[id].spend else 0
  }

  /** A node's row after a pass comes from its one grant. */
  lemma GrantOf(s: State, t: Tree, budget: int, pass: Pass, id: NodeId) returns (i: nat)
    requires NoDup(Ids(t)) && id in Ids(t)
    ensures var plan, rows := Plan(s.alloc, t, budget, None, None), PassRows(s, t, budget, pass);
            && i < |plan| && plan[i].node.id == id && (i == 0 <==> id == t.root.id) && id in rows
            && rows[id] == RowAfter(RowBefore(s.rows, plan[i].node), CostOf(s.costs, id), pass, plan[i])
  {
    var plan := Plan(s.alloc, t, budget, None, None);
    PlanIds(s.alloc, t, budget, None, None);
    i :| 0 <= i < |plan| && GrantIds(plan)[i] == id;
    ApplyAt(s.rows, s.costs, pass, plan, i);
    assert GrantIds(plan)[0] == t.root.id;
  }

  /** A reset clears the spend of every row; any other pass sets a metered row's
      spend to its recorded cost and leaves a free row's alone. */
  lemma PassSpend(s: State, t: Tree, budget: int, pass: Pass, id: NodeId)
    requires NoDup(Ids(t)) && id in Ids(t)
    ensures var rows := PassRows(s, t, budget, pass);
            && id in rows
            && (pass.reset ==> rows[id].spend == 0)
            && (!pass.reset && rows[id].mode.Metered? ==> rows[id].spend == CostOf(s.costs, id))
            && (!pass.reset && rows[id].mode.Free? ==> rows[id].spend == SpendOf(s.rows, id))
  {
    var i := GrantOf(s, t, budget, pass, id);
  }

  // ---------------------------------------------------------------------
  // Mode and place
  // ---------------------------------------------------------------------

  /** Below the root, a grant names the manager and the percentage it gives. */
  ghost predicate Placed(org: Org, alloc: Allocations, g: Grant) {
    && g.node in org.nodes && g.parent.Some? && Link(g.parent.value, g.node.id) in org.links
    && g.pct == Some(PctOf(alloc, g.parent.value, g.node.id))
  }

  lemma {:induction false} PlanPlaced(org: Org, alloc: Allocations, t: Tree, inflow: int, parent: Option<NodeId>,
                                      pct: Option<int>)
    requires ValidOrg(org) && IsTree(org, t)
    ensures var plan := Plan(alloc, t, inflow, parent, pct);
            plan[0].node in org.nodes && forall i :: 1 <= i < |plan| ==> Placed(org, alloc, plan[i])
    decreases t
  {
    forall k | 0 <= k < |t.kids| ensures IsTree(org, t.kids[k]) && Link(t.root.id, t.kids[k].root.id) in org.links {
      KidLink(org, t, k);
    }
    PlanKidsPlaced(org, alloc, t.root.id, t.kids, RootsPools(alloc, t, inflow));
  }

  lemma {:induction false} PlanKidsPlaced(org: Org, alloc: Allocations, manager: NodeId, ts: seq<Tree>,
                                          pools: seq<int>)
    requires ValidOrg(org) && |pools| == |ts|
    requires forall k :: 0 <= k < |ts| ==> IsTree(org, ts[k]) && Link(manager, ts[k].root.id) in org.links
    ensures forall g :: g in PlanKids(alloc, manager, ts, pools) ==> Placed(org, alloc, g)
    decreases ts
  {
    if ts != [] {
      var pct := Some(PctOf(alloc, manager, ts[0].root.id));
      PlanPlaced(org, alloc, ts[0], pools[0], Some(manager), pct);
      PlanKidsPlaced(org, alloc, manager, ts[1..], pools[1..]);
      forall g | g in Plan(alloc, ts[0], pools[0], Some(manager), pct) ensures Placed(org, alloc, g) {}
    }
  }

  /** The mode a row has when a pass meets it: metered by default for agents only. */
  function ModeMet(rows: Rows, n: Node): Mode {
    if n.id in rows then rows[n.id].mode else if n.kind.Agent? then Metered else Free
  }

  /** Any pass files each row under the node's manager with the percentage that
      manager gives it, and changes no mode but the root's. */
  lemma PassPlaces(org: Org, s: State, t: Tree, budget: int, pass: Pass, n: Node)
    requires ValidOrg(org) && IsTree(org, t) && n in org.nodes && n.id in Ids(t)
    ensures var rows := PassRows(s, t, budget, pass);
            && n.id in rows
            && rows[n.id].mode == (if pass.freeRoot && n == t.root then Free else ModeMet(s.rows, n))
            && (n == t.root ==> rows[n.id].parent == None && (n.id in s.rows ==> rows[n.id].pct == s.rows[n.id].pct))
            && (n != t.root ==>
                  && rows[n.id].parent.Some? && Link(rows[n.id].parent.value, n.id) in org.links
                  && rows[n.id].pct == Some(PctOf(s.alloc, rows[n.id].parent.value, n.id)))
            && (n.id in s.rows ==> rows[n.id].review == s.rows[n.id].review)
  {
    IdsDistinct(org, t);
    PlanPlaced(org, s.alloc, t, budget, None, None);
    var i := GrantOf(s, t, budget, pass, n.id);
    var plan := Plan(s.alloc, t, budget, None, None);
    assert i > 0 ==> Placed(org, s.alloc, plan[i]);
    var a, b :| 0 <= a < |org.nodes| && org.nodes[a] == n && 0 <= b < |org.nodes| && org.nodes[b] == plan[i].node;
  }

  /** A cycle that resets, or a recalculation asked to, makes the root allocator
      free; no other step but a mode change touches its mode. */
  lemma RootMode(org: Org, s: State, t: Tree, budget: int, step: Step)
    requires ValidOrg(org) && IsTree(org, t) && t.root.id in s.rows && !step.SetMode?
    ensures var rows := After(s, t, budget, step).rows;
            && t.root.id in rows
            && rows[t.root.id].mode
               == if RunsReset(s, step) || (step.Recalculate? && step.freeRoot) then Free else s.rows[t.root.id].mode
  {
    if step.Cycle? {
      PassPlaces(org, s, t, budget, if RunsReset(s, step) then Pass(true, true) else Pass(false, false), t.root);
    } else if step.Recalculate? {
      PassPlaces(org, s, t, budget, Pass(false, step.freeRoot), t.root);
    }
  }

  /** A mode that was set stays until the next mode change, whatever runs between. */
  lemma {:induction false} ModeStays(org: Org, s: State, t: Tree, budget: int, n: Node, steps: seq<Step>)
    requires ValidOrg(org) && IsTree(org, t) && n in org.nodes && n != t.root && n.id in s.rows
    requires forall i :: 0 <= i < |steps| ==> !(steps[i].SetMode? && steps[i].node == n.id)
    ensures var rows := Run(s, t, budget, steps).rows; n.id in rows && rows[n.id].mode == s.rows[n.id].mode
    decreases |steps|
  {
    if steps != [] {
      var next := After(s, t, budget, steps[0]);
      StepKeepsMode(org, s, t, budget, n, steps[0]);
      ModeStays(org, next, t, budget, n, steps[1..]);
    }
  }

  lemma StepKeepsMode(org: Org, s: State, t: Tree, budget: int, n: Node, step: Step)
    requires ValidOrg(org) && IsTree(org, t) && n in org.nodes && n != t.root && n.id in s.rows
    requires !(step.SetMode? && step.node == n.id)
    ensures var rows := After(s, t, budget, step).rows; n.id in rows && rows[n.id].mode == s.rows[n.id].mode
  {
    if IsPass(step) {
      var pass := if step.Recalculate? then Pass(false, step.freeRoot)
                  else if RunsReset(s, step) then Pass(true, true) else Pass(false, false);
      if n.id in Ids(t) {
        PassPlaces(org, s, t, budget, pass, n);
      } else {
        PlanIds(s.alloc, t, budget, None, None);
        ApplyKeepsOthers(s.rows, s.costs, pass, Plan(s.alloc, t, budget, None, None), n.id);
      }
    }
  }

  /** So a mode change decides the mode of every later pass. */
  lemma ModeIsSet(org: Org, s: State, t: Tree, budget: int, n: Node, mode: Mode, manager: Option<NodeId>,
                  steps: seq<Step>)
    requires ValidOrg(org) && IsTree(org, t) && n in org.nodes && n != t.root
    requires forall i :: 0 <= i < |steps| ==> !(steps[i].SetMode? && steps[i].node == n.id)
    ensures var rows := Run(After(s, t, budget, SetMode(n.id, mode, manager)), t, budget, steps).rows;
            n.id in rows && rows[n.id].mode == mode
  {
    ModeStays(org, After(s, t, budget, SetMode(n.id, mode, manager)), t, budget, n, steps);
  }

  // ---------------------------------------------------------------------
  // Costs
  // ---------------------------------------------------------------------

  /** The cost of the calls a run records for a node. */
  function RecordedIn(steps: seq<Step>, id: NodeId): int {
    if steps == [] then 0
    else (if steps[0].RecordCall? && steps[0].node == id then steps[0].cost else 0) + RecordedIn(steps[1..], id)
  }

  lemma {:induction false} RunCosts(s: State, t: Tree, budget: int, steps: seq<Step>, id: NodeId)
    ensures CostOf(Run(s, t, budget, steps).costs, id) == CostOf(s.costs, id) + RecordedIn(steps, id)
    decreases |steps|
  {
    if steps != [] { RunCosts(After(s, t, budget, steps[0]), t, budget, steps[1..], id); }
  }

  /** After any run, a recalculation finds each metered row's spend in all the calls
      ever recorded for its node. */
  lemma SpendIsRecorded(s: State, t: Tree, budget: int, steps: seq<Step>, freeRoot: bool, id: NodeId)
    requires NoDup(Ids(t)) && id in Ids(t)
    ensures var rows := After(Run(s, t, budget, steps), t, budget, Recalculate(freeRoot)).rows;
            && id in rows
            && (rows[id].mode.Metered? ==> rows[id].spend == CostOf(s.costs, id) + RecordedIn(steps, id))
  {
    RunCosts(s, t, budget, steps, id);
    PassSpend(Run(s, t, budget, steps), t, budget, Pass(false, freeRoot), id);
  }

  /** Steps that neither rewrite the row nor report a spend for it. */
  predicate LeavesSpend(step: Step, id: NodeId) {
    !IsPass(step) && !(step.SetSpend? && step.node == id)
  }

  lemma {:induction false} SpendStays(s: State, t: Tree, budget: int, steps: seq<Step>, id: NodeId)
    requires id in s.rows && forall i :: 0 <= i < |steps| ==> LeavesSpend(steps[i], id)
    ensures var rows := Run(s, t, budget, steps).rows; id in rows && rows[id].spend == s.rows[id].spend
    decreases |steps|
  {
    if steps != [] {
      assert LeavesSpend(steps[0], id);
      SpendStays(After(s, t, budget, steps[0]), t, budget, steps[1..], id);
    }
  }

  lemma ResetReserve(s: State, t: Tree, budget: int, id: NodeId, reset: Step)
    requires NoDup(Ids(t)) && id in Ids(t) && id in s.rows && RunsReset(s, reset)
    ensures var rows := After(s, t, budget, reset).rows;
            id in rows && rows[id].reserve == Max(s.rows[id].limit - s.rows[id].spend, 0)
  {
    var i := GrantOf(s, t, budget, Pass(true, true), id);
  }

  /** A reported spend is what the next reset deducts from what the row carries over. */
  lemma {:induction false} ReportedSpendIsDeducted(s: State, t: Tree, budget: int, id: NodeId, spend: int,
                                                   steps: seq<Step>, reset: Step)
    requires NoDup(Ids(t)) && id in Ids(t) && id in s.rows
    requires forall i :: 0 <= i < |steps| ==> LeavesSpend(steps[i], id)
    requires RunsReset(Run(After(s, t, budget, SetSpend(id, spend)), t, budget, steps), reset)
    ensures var before := Run(After(s, t, budget, SetSpend(id, spend)), t, budget, steps);
            var rows := After(before, t, budget, reset).rows;
            id in before.rows && id in rows && rows[id].reserve == Max(before.rows[id].limit - spend, 0)
  {
    var reported := After(s, t, budget, SetSpend(id, spend));
    SpendStays(reported, t, budget, steps, id);
    ResetReserve(Run(reported, t, budget, steps), t, budget, id, reset);
  }

  // ---------------------------------------------------------------------
  // What carries over
  // ---------------------------------------------------------------------

  /** Nothing counts as spent, and no limit is negative. */
  ghost predicate Fresh(rows: Rows, t: Tree) {
    forall id :: id in Ids(t) ==> id in rows && rows[id].spend == 0 && rows[id].limit >= 0
  }

  lemma ResetIsFresh(s: State, t: Tree, budget: int, pass: Pass)
    requires NoDup(Ids(t)) && pass.reset
    ensures Fresh(PassRows(s, t, budget, pass), t)
  {
    forall id | id in Ids(t)
      ensures var rows := PassRows(s, t, budget, pass); id in rows && rows[id].spend == 0 && rows[id].limit >= 0
    {
      PassSpend(s, t, budget, pass, id);
      var i := GrantOf(s, t, budget, pass, id);
      PlanAllowances(s.alloc, t, budget, None, None);
    }
  }

  lemma {:induction false} PlanAllowances(alloc: Allocations, t: Tree, inflow: int, parent: Option<NodeId>,
                                          pct: Option<int>)
    ensures forall g :: g in Plan(alloc, t, inflow, parent, pct) ==> g.allowance >= 0
    decreases t
  {
    PlanKidsAllowances(alloc, t.root.id, t.kids, RootsPools(alloc, t, inflow));
  }

  lemma {:induction false} PlanKidsAllowances(alloc: Allocations, manager: NodeId, ts: seq<Tree>, pools: seq<int>)
    requires |pools| == |ts|
    ensures forall g :: g in PlanKids(alloc, manager, ts, pools) ==> g.allowance >= 0
    decreases ts
  {
    if ts != [] {
      PlanAllowances(alloc, ts[0], pools[0], Some(manager), Some(PctOf(alloc, manager, ts[0].root.id)));
      PlanKidsAllowances(alloc, manager, ts[1..], pools[1..]);
    }
  }

  /** Changes of allocations and modes and recorded calls: nothing that rewrites
      the figures of a row. */
  predicate LeavesFigures(step: Step) {
    step.SetAllocations? || step.RecordCall? || step.SetMode?
  }

  lemma {:induction false} FreshStays(s: State, t: Tree, budget: int, steps: seq<Step>)
    requires Fresh(s.rows, t) && forall i :: 0 <= i < |steps| ==> LeavesFigures(steps[i])
    ensures Fresh(Run(s, t, budget, steps).rows, t)
    ensures Total(Run(s, t, budget, steps).rows, Ids(t), Limit) == Total(s.rows, Ids(t), Limit)
    decreases |steps|
  {
    if steps != [] {
      assert LeavesFigures(steps[0]);
      var next := After(s, t, budget, steps[0]);
      TotalIgnores(next.rows, s.rows, Ids(t), Limit);
      FreshStays(next, t, budget, steps[1..]);
    }
  }

  /** From one reset to the next, when no pass ran and no spend was reported between
      them, the limits grow by exactly one company budget, whatever was spent before. */
  lemma NextResetAddsBudget(s: State, t: Tree, budget: nat, first: Step, between: seq<Step>, second: Step)
    requires NoDup(Ids(t)) && RunsReset(s, first) && forall i :: 0 <= i < |between| ==> LeavesFigures(between[i])
    requires RunsReset(Run(After(s, t, budget, first), t, budget, between), second)
    ensures var once := After(s, t, budget, first);
            var twice := After(Run(once, t, budget, between), t, budget, second);
            Total(twice.rows, Ids(t), Limit) == Total(once.rows, Ids(t), Limit) + budget
  {
    var once := After(s, t, budget, first);
    ResetIsFresh(s, t, budget, Pass(true, true));
    FreshStays(once, t, budget, between);
    var before := Run(once, t, budget, between);
    PassSettles(before, t, budget, Pass(true, true));
    LeftIsLimitMinusConsumed(before.rows, Ids(t));
    NothingConsumed(before.rows, Ids(t));
  }

  /** What a reset deducts for calls recorded at any time before: a metered row's
      whole recorded cost, up to its limit. */
  function Recounted(rows: Rows, costs: Costs, ids: seq<NodeId>): int {
    if ids == [] then 0
    else (if ids[0] in rows && rows[ids[0]].mode.Metered? then Min(CostOf(costs, ids[0]), rows[ids[0]].limit) else 0)
         + Recounted(rows, costs, ids[1..])
  }

  lemma {:induction false} ConsumedIsRecounted(rows: Rows, costs: Costs, ids: seq<NodeId>)
    requires forall id :: id in ids ==>
               && id in rows && rows[id].limit >= 0
               && rows[id].spend == if rows[id].mode.Metered? then CostOf(costs, id) else 0
    ensures Total(rows, ids, Consumed) == Recounted(rows, costs, ids)
  {
    if ids != [] { ConsumedIsRecounted(rows, costs, ids[1..]); }
  }

  /** A recalculation between two resets brings every cost back that a metered row
      ever had, and the second reset deducts it again. */
  lemma CostsCountAgain(s: State, t: Tree, budget: nat, first: Step, freeRoot: bool, second: Step)
    requires NoDup(Ids(t)) && RunsReset(s, first)
    requires RunsReset(After(After(s, t, budget, first), t, budget, Recalculate(freeRoot)), second)
    ensures var once := After(s, t, budget, first);
            var between := After(once, t, budget, Recalculate(freeRoot));
            var twice := After(between, t, budget, second);
            && Total(between.rows, Ids(t), Limit) == Total(once.rows, Ids(t), Limit)
            && Total(twice.rows, Ids(t), Limit)
               == Total(once.rows, Ids(t), Limit) + budget - Recounted(between.rows, s.costs, Ids(t))
            && forall id :: id in Ids(t) ==> id in between.rows && between.rows[id].limit >= 0
  {
    var once := After(s, t, budget, first);
    var between := After(once, t, budget, Recalculate(freeRoot));
    ResetIsFresh(s, t, budget, Pass(true, true));
    PassSettles(s, t, budget, Pass(true, true));
    PassSettles(once, t, budget, Pass(false, freeRoot));
    PassSettles(between, t, budget, Pass(true, true));
    SettledSplit(once.rows, Ids(t));
    LeftIsLimitMinusConsumed(between.rows, Ids(t));
    forall id | id in Ids(t)
      ensures id in between.rows && between.rows[id].limit >= 0
      ensures between.rows[id].spend == if between.rows[id].mode.Metered? then CostOf(s.costs, id) else 0
    {
      PassSpend(once, t, budget, Pass(false, freeRoot), id);
      var j := GrantOf(s, t, budget, Pass(true, true), id);
      var i := GrantOf(once, t, budget, Pass(false, freeRoot), id);
      PlanAllowances(s.alloc, t, budget, None, None);
    }
    ConsumedIsRecounted(between.rows, s.costs, Ids(t));
  }

  lemma {:induction false} NothingRecountedIff(rows: Rows, costs: Costs, ids: seq<NodeId>)
    requires forall id :: id in ids ==> id in rows && rows[id].limit >= 0 && CostOf(costs, id) >= 0
    ensures Recounted(rows, costs, ids) >= 0
    ensures Recounted(rows, costs, ids) == 0 <==>
              forall id :: id in ids && rows[id].mode.Metered? ==> CostOf(costs, id) == 0 || rows[id].limit == 0
  {
    if ids != [] {
      NothingRecountedIff(rows, costs, ids[1..]);
      assert ids[0] in ids && forall id :: id in ids <==> id == ids[0] || id in ids[1..];
    }
  }

  /** The limits grow by the whole budget exactly when no metered row with anything
      to spend ever had a cost. */
  lemma FullBudgetIff(s: State, t: Tree, budget: nat, first: Step, freeRoot: bool, second: Step)
    requires NoDup(Ids(t)) && RunsReset(s, first) && forall id :: id in Ids(t) ==> CostOf(s.costs, id) >= 0
    requires RunsReset(After(After(s, t, budget, first), t, budget, Recalculate(freeRoot)), second)
    ensures var once := After(s, t, budget, first);
            var between := After(once, t, budget, Recalculate(freeRoot));
            var twice := After(between, t, budget, second);
            Total(twice.rows, Ids(t), Limit) == Total(once.rows, Ids(t), Limit) + budget
            <==> forall id :: id in Ids(t) && id in between.rows && between.rows[id].mode.Metered? ==>
                   CostOf(s.costs, id) == 0 || between.rows[id].limit == 0
  {
    var between := After(After(s, t, budget, first), t, budget, Recalculate(freeRoot));
    CostsCountAgain(s, t, budget, first, freeRoot, second);
    NothingRecountedIff(between.rows, s.costs, Ids(t));
  }

  // ---------------------------------------------------------------------
  // What a pass reports
  // ---------------------------------------------------------------------

  /** What a snapshot reports is the row it was taken from. */
  predicate Mirrors(snap: Snapshot, row: BudgetRow) {
    && snap.allowance == row.allowance && snap.reserve == row.reserve && snap.spend == row.spend
    && snap.available == snap.allowance + snap.reserve && snap.remaining == Max(snap.available - snap.spend, 0)
    && snap.mode == row.mode && snap.parent == row.parent && snap.review == row.review
  }

  lemma SnapshotFigures(s: State, t: Tree, budget: int, pass: Pass, g: Grant)
    requires NoDup(Ids(t)) && g in Plan(s.alloc, t, budget, None, None)
    ensures var snaps := Report(s.rows, s.costs, pass, Plan(s.alloc, t, budget, None, None), map[]);
            var rows := PassRows(s, t, budget, pass);
            && g.node.id in snaps && g.node.id in rows && snaps[g.node.id].node == g.node
            && snaps[g.node.id].inflow == g.inflow && Mirrors(snaps[g.node.id], rows[g.node.id])
            && (g.pct.Some? ==> snaps[g.node.id].pct == rows[g.node.id].pct)
  {
    var plan := Plan(s.alloc, t, budget, None, None);
    PlanIds(s.alloc, t, budget, None, None);
    var i :| 0 <= i < |plan| && plan[i] == g;
    ReportAt(s.rows, s.costs, pass, plan, map[]);
    ApplyAt(s.rows, s.costs, pass, plan, i);
  }

  /** Every node at the end of a branch is reported with the inflow that rounding
      was bounded for, and with the figures its row is left with. */
  lemma SnapshotAtBranch(org: Org, s: State, t: Tree, budget: int, pass: Pass, branch: seq<nat>)
    requires ValidOrg(org) && IsTree(org, t) && IsBranch(t, branch)
    ensures var node := BranchEnd(t, branch).root;
            var snaps := Report(s.rows, s.costs, pass, Plan(s.alloc, t, budget, None, None), map[]);
            var rows := PassRows(s, t, budget, pass);
            && node.id in snaps && node.id in rows && snaps[node.id].node == node
            && snaps[node.id].inflow == BranchInflow(s.alloc, t, budget, branch)
            && Mirrors(snaps[node.id], rows[node.id])
            && (node != t.root ==> snaps[node.id].pct == rows[node.id].pct)
  {
    var plan := Plan(s.alloc, t, budget, None, None);
    IdsDistinct(org, t);
    BranchIsGranted(s.alloc, t, budget, None, None, branch);
    var g :| g in plan && g.node == BranchEnd(t, branch).root && g.inflow == BranchInflow(s.alloc, t, budget, branch);
    SnapshotFigures(s, t, budget, pass, g);
    PlanPlaced(org, s.alloc, t, budget, None, None);
    assert g != plan[0] ==> Placed(org, s.alloc, g);
  }
}
