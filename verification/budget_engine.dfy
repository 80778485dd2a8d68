/** The budget rows and the pass that rewrites them: reconcile or roll over,
    split the inflow, persist, recurse. */
module BudgetEngine {
  import opened Prelude
  import opened Forest
  import opened Waterfall

  datatype Mode = Metered | Free

  datatype BudgetRow = BudgetRow(
    mode: Mode, limit: int, allowance: int, spend: int, reserve: int,
    parent: Option<NodeId>, pct: Option<int>, review: Option<int>)

  type Rows = map<NodeId, BudgetRow>

  /** Lifetime cost of the calls recorded for each node. */
  type Costs = map<NodeId, int>

  function CostOf(costs: Costs, id: NodeId): int {
    if id in costs then costs[id] else 0
  }

  /** The columns an upsert may set; `None` leaves a column alone. */
  datatype Patch = Patch(
    mode: Option<Mode>, limit: Option<int>, allowance: Option<int>, spend: Option<int>, reserve: Option<int>,
    parent: Option<Option<NodeId>>, pct: Option<int>, review: Option<Option<int>>)

  const NO_PATCH := Patch(None, None, None, None, None, None, None, None)

  const COLUMN_DEFAULTS := BudgetRow(Metered, 0, 0, 0, 0, None, None, None)

  function Or<T>(o: Option<T>, default: T): T {
    if o.Some? then o.value else default
  }

  function Patched(row: BudgetRow, p: Patch): BudgetRow {
    BudgetRow(Or(p.mode, row.mode), Or(p.limit, row.limit), Or(p.allowance, row.allowance),
              Or(p.spend, row.spend), Or(p.reserve, row.reserve), Or(p.parent, row.parent),
              if p.pct.Some? then p.pct else row.pct, Or(p.review, row.review))
  }

  // ---------------------------------------------------------------------
  // What one pass does to one row
  // ---------------------------------------------------------------------

  datatype Pass = Pass(reset: bool, freeRoot: bool)

  function DefaultMode(n: Node): Mode {
    if n.kind.Agent? then Metered else Free
  }

  /** The row as it stands before the pass; a missing row starts from zero. */
  function RowBefore(rows: Rows, n: Node): BudgetRow {
    if n.id in rows then rows[n.id] else COLUMN_DEFAULTS.(mode := DefaultMode(n))
  }

  function ModeAfter(before: BudgetRow, g: Grant, pass: Pass): Mode {
    if pass.freeRoot && g.parent.None? then Free else before.mode
  }

  function Unspent(row: BudgetRow): int {
    Max(row.limit - row.spend, 0)
  }

  /** Rollover on reset, reconciliation with recorded costs otherwise. */
  function RowAfter(before: BudgetRow, cost: int, pass: Pass, g: Grant): BudgetRow {
    var mode := ModeAfter(before, g, pass);
    var reserve := if pass.reset then Unspent(before) else before.reserve;
    var spend := if pass.reset then 0 else if mode.Metered? then cost else before.spend;
    BudgetRow(mode, g.allowance + reserve, g.allowance, spend, reserve, g.parent,
              if g.pct.Some? then g.pct else before.pct, before.review)
  }

  datatype Snapshot = Snapshot(
    node: Node, mode: Mode, parent: Option<NodeId>, pct: Option<int>, inflow: int,
    allowance: int, reserve: int, available: int, spend: int, remaining: int, review: Option<int>)

  function SnapshotOf(g: Grant, row: BudgetRow): Snapshot {
    Snapshot(g.node, row.mode, g.parent, g.pct, g.inflow, g.allowance, row.reserve,
             row.limit, row.spend, Unspent(row), row.review)
  }

  /** The rows after serving the grants in order. */
  function Apply(rows: Rows, costs: Costs, pass: Pass, plan: seq<Grant>): Rows
    decreases plan
  {
    if plan == [] then rows
    else
      var g := plan[0];
      var row := RowAfter(RowBefore(rows, g.node), CostOf(costs, g.node.id), pass, g);
      Apply(rows[g.node.id := row], costs, pass, plan[1..])
  }

  /** The snapshots reported for the grants in order; later ones win. */
  function Report(rows: Rows, costs: Costs, pass: Pass, plan: seq<Grant>, seen: map<NodeId, Snapshot>):
    map<NodeId, Snapshot>
    decreases plan
  {
    if plan == [] then seen
    else
      var g := plan[0];
      var row := RowAfter(RowBefore(rows, g.node), CostOf(costs, g.node.id), pass, g);
      Report(rows[g.node.id := row], costs, pass, plan[1..], seen[g.node.id := SnapshotOf(g, row)])
  }

  lemma {:induction false} ApplyAppend(rows: Rows, costs: Costs, pass: Pass, a: seq<Grant>, b: seq<Grant>,
                                       seen: map<NodeId, Snapshot>)
    ensures Apply(rows, costs, pass, a + b) == Apply(Apply(rows, costs, pass, a), costs, pass, b)
    ensures Report(rows, costs, pass, a + b, seen)
         == Report(Apply(rows, costs, pass, a), costs, pass, b, Report(rows, costs, pass, a, seen))
    decreases a
  {
    if a == [] {
      assert a + b == b;
    } else {
      var g := a[0];
      var row := RowAfter(RowBefore(rows, g.node), CostOf(costs, g.node.id), pass, g);
      ApplyAppend(rows[g.node.id := row], costs, pass, a[1..], b, seen[g.node.id := SnapshotOf(g, row)]);
      assert (a + b)[1..] == a[1..] + b;
    }
  }

  /** Merging a report into earlier results is the same as continuing it. */
  lemma {:induction false} ReportMerge(rows: Rows, costs: Costs, pass: Pass, plan: seq<Grant>,
                                       seen: map<NodeId, Snapshot>, extra: map<NodeId, Snapshot>)
    ensures seen + Report(rows, costs, pass, plan, extra) == Report(rows, costs, pass, plan, seen + extra)
    decreases plan
  {
    if plan != [] {
      var g := plan[0];
      var row := RowAfter(RowBefore(rows, g.node), CostOf(costs, g.node.id), pass, g);
      var s := SnapshotOf(g, row);
      ReportMerge(rows[g.node.id := row], costs, pass, plan[1..], seen, extra[g.node.id := s]);
      assert seen + extra[g.node.id := s] == (seen + extra)[g.node.id := s];
    }
  }

  /** Only the root allocator can be forced into free mode. */
  lemma {:induction false} BelowRootIgnoresForce(rows: Rows, costs: Costs, pass: Pass, plan: seq<Grant>,
                                                 seen: map<NodeId, Snapshot>)
    requires forall g :: g in plan ==> g.parent.Some?
    ensures Apply(rows, costs, pass, plan) == Apply(rows, costs, pass.(freeRoot := false), plan)
    ensures Report(rows, costs, pass, plan, seen) == Report(rows, costs, pass.(freeRoot := false), plan, seen)
    decreases plan
  {
    if plan != [] {
      var g := plan[0];
      var row := RowAfter(RowBefore(rows, g.node), CostOf(costs, g.node.id), pass, g);
      BelowRootIgnoresForce(rows[g.node.id := row], costs, pass, plan[1..], seen[g.node.id := SnapshotOf(g, row)]);
    }
  }

  lemma {:induction false} PlanParents(alloc: Allocations, t: Tree, inflow: int, parent: NodeId, pct: Option<int>)
    ensures forall g :: g in Plan(alloc, t, inflow, Some(parent), pct) ==> g.parent.Some?
    decreases t
  {
    PlanKidsParents(alloc, t.root.id, t.kids, RootsPools(alloc, t, inflow));
  }

  lemma {:induction false} PlanKidsParents(alloc: Allocations, manager: NodeId, ts: seq<Tree>, pools: seq<int>)
    requires |pools| == |ts|
    ensures forall g :: g in PlanKids(alloc, manager, ts, pools) ==> g.parent.Some?
    decreases ts
  {
    if ts != [] {
      PlanParents(alloc, ts[0], pools[0], manager, Some(PctOf(alloc, manager, ts[0].root.id)));
      PlanKidsParents(alloc, manager, ts[1..], pools[1..]);
    }
  }

  lemma {:induction false} PlanKidsSnoc(alloc: Allocations, manager: NodeId, ts: seq<Tree>, pools: seq<int>, i: nat)
    requires |pools| == |ts| && i < |ts|
    ensures PlanKids(alloc, manager, ts[..i + 1], pools[..i + 1])
         == PlanKids(alloc, manager, ts[..i], pools[..i])
            + Plan(alloc, ts[i], pools[i], Some(manager), Some(PctOf(alloc, manager, ts[i].root.id)))
  {
    if i == 0 {
      assert ts[..1][1..] == [] && pools[..1][1..] == [];
    } else {
      PlanKidsSnoc(alloc, manager, ts[1..], pools[1..], i - 1);
      PlanKidsHead(alloc, manager, ts, pools, i + 1);
      PlanKidsHead(alloc, manager, ts, pools, i);
      HeadInFront(PlanKids(alloc, manager, ts[..i + 1], pools[..i + 1]),
                  Plan(alloc, ts[0], pools[0], Some(manager), Some(PctOf(alloc, manager, ts[0].root.id))),
                  PlanKids(alloc, manager, ts[1..][..i], pools[1..][..i]),
                  PlanKids(alloc, manager, ts[1..][..i - 1], pools[1..][..i - 1]),
                  Plan(alloc, ts[i], pools[i], Some(manager), Some(PctOf(alloc, manager, ts[i].root.id))));
    }
  }

  lemma PlanKidsHead(alloc: Allocations, manager: NodeId, ts: seq<Tree>, pools: seq<int>, i: nat)
    requires |pools| == |ts| && 1 <= i <= |ts|
    ensures PlanKids(alloc, manager, ts[..i], pools[..i])
         == Plan(alloc, ts[0], pools[0], Some(manager), Some(PctOf(alloc, manager, ts[0].root.id)))
            + PlanKids(alloc, manager, ts[1..][..i - 1], pools[1..][..i - 1])
  {
    assert ts[..i][1..] == ts[1..][..i - 1] && pools[..i][1..] == pools[1..][..i - 1];
  }

  // ---------------------------------------------------------------------
  // The engine's state and its steps
  // ---------------------------------------------------------------------

  datatype State = State(rows: Rows, costs: Costs, alloc: Allocations, cycles: set<int>)

  datatype Step =
    | Cycle(date: int, force: bool)
    | Recalculate(freeRoot: bool)
    | SetAllocations(alloc: Allocations)
    | RecordCall(node: NodeId, cost: int)
    | SetSpend(node: NodeId, spend: int)
    | SetMode(node: NodeId, mode: Mode, manager: Option<NodeId>)
    | SetLimit(node: NodeId, limit: int, breakGlass: bool)

  function RunsReset(s: State, step: Step): bool {
    step.Cycle? && (step.date !in s.cycles || step.force)
  }

  /** A direct write of one row's limit: allowed outside the hierarchy, or by
      breaking the glass. */
  predicate Overrides(s: State, step: Step) {
    step.SetLimit? && step.node in s.rows && (step.breakGlass || s.rows[step.node].parent.None?)
  }

  function PassRows(s: State, t: Tree, budget: int, pass: Pass): Rows {
    Apply(s.rows, s.costs, pass, Plan(s.alloc, t, budget, None, None))
  }

  function After(s: State, t: Tree, budget: int, step: Step): State {
    match step
    case Cycle(date, _) =>
      var pass := if RunsReset(s, step) then Pass(true, true) else Pass(false, false);
      s.(rows := PassRows(s, t, budget, pass), cycles := s.cycles + {date})
    case Recalculate(freeRoot) => s.(rows := PassRows(s, t, budget, Pass(false, freeRoot)))
    case SetAllocations(alloc) => s.(alloc := alloc)
    case RecordCall(node, cost) => s.(costs := s.costs[node := CostOf(s.costs, node) + cost])
    case SetSpend(node, spend) =>
      if node in s.rows then s.(rows := s.rows[node := s.rows[node].(spend := spend)]) else s
    case SetMode(node, mode, manager) =>
      var row := if node in s.rows then s.rows[node] else COLUMN_DEFAULTS.(parent := manager);
      s.(rows := s.rows[node := row.(mode := mode)])
    case SetLimit(node, limit, _) =>
      if Overrides(s, step) then
        s.(rows := s.rows[node := s.rows[node].(limit := limit, allowance := limit, reserve := 0)])
      else s
  }

  // ---------------------------------------------------------------------
  // The engine
  // ---------------------------------------------------------------------

  /** The date whose cycle is due, once the reset minute has come. */
  function DueDate(cycles: set<int>, date: int, minute: int, resetMinute: int): Option<int> {
    if minute >= resetMinute && date !in cycles then Some(date) else None
  }

  datatype CycleStatus = Ran | AlreadyRan

  datatype AllocationError = NotDirectReport | DuplicateChild | NegativePercentage | OverHundredPercent

  class Engine {
    const org: Org
    const root: Node
    const budget: int
    var rows: Rows
    var alloc: Allocations
    var costs: Costs
    var cycles: set<int>

    ghost predicate Valid()
    {
      ValidOrg(org) && root in org.nodes && !Descends(org, root.id, root.id)
    }

    /** The organisation below the root allocator. */
    ghost function Company(): (t: Tree)
      requires Valid()
      ensures IsTree(org, t) && t.root == root
    {
      FiniteBelowIff(org, root);
      var t :| IsTree(org, t) && t.root == root;
      t
    }

    ghost function Now(): State
      reads this
    {
      State(rows, costs, alloc, cycles)
    }

    constructor (org: Org, root: Node, budget: int)
      requires ValidOrg(org) && root in org.nodes && !Descends(org, root.id, root.id)
      ensures this.org == org && this.root == root && this.budget == budget && Valid()
      ensures rows == map[] && alloc == map[] && costs == map[] && cycles == {}
    {
      this.org, this.root, this.budget := org, root, budget;
      rows, alloc, costs, cycles := map[], map[], map[], {};
    }

    method UpsertBudget(id: NodeId, p: Patch) returns (row: BudgetRow)
      modifies this`rows
      ensures row == Patched(if id in old(rows) then old(rows)[id] else COLUMN_DEFAULTS, p)
      ensures rows == old(rows)[id := row]
    {
      row := Patched(if id in rows then rows[id] else COLUMN_DEFAULTS, p);
      rows := rows[id := row];
    }

    method EnsureBudget(n: Node, parent: Option<NodeId>) returns (row: BudgetRow)
      modifies this`rows
      ensures row == RowBefore(old(rows), n).(parent := parent)
      ensures rows == old(rows)[n.id := row]
    {
      if n.id !in rows {
        row := UpsertBudget(n.id, NO_PATCH.(parent := Some(parent), mode := Some(DefaultMode(n))));
      } else if rows[n.id].parent != parent {
        row := UpsertBudget(n.id, NO_PATCH.(parent := Some(parent)));
      } else {
        row := rows[n.id];
      }
    }

    /** Hands the inflow to the served children in order: each gets its
        rounded share, no more than what is left; a last child that completes
        100 percent takes what is left. */
    method SplitInflow(manager: NodeId, children: seq<Node>, inflow: int)
      returns (remainingPool: int, grossOf: map<NodeId, int>)
      requires DistinctIds(children)
      ensures remainingPool == inflow - Sum(Shares(inflow, PositivePcts(alloc, manager, children)))
      ensures forall k :: 0 <= k < |children| ==>
                KidPools(alloc, manager, children, inflow)[k]
                == if children[k].id in grossOf then grossOf[children[k].id] else 0
    {
      var served := Allocated(alloc, manager, children);
      var pcts := Pcts(alloc, manager, served);
      var total := Sum(pcts);
      AllocatedDistinct(alloc, manager, children);
      ghost var shares := Shares(inflow, pcts);
      remainingPool := inflow;
      grossOf := map[];
      var index := 0;
      while index < |served|
        invariant 0 <= index <= |served|
        invariant remainingPool == inflow - Sum(shares[..index])
        invariant GrossMap(served, shares, index, grossOf)
      {
        NextShare(inflow, pcts, index);
        var childGross;
        if index == |served| - 1 && total == HUNDRED_PERCENT {
          childGross := remainingPool;
        } else {
          childGross := ShareOf(inflow, pcts[index]);
          if childGross > remainingPool {
            childGross := remainingPool;
          }
        }
        GrossMapStep(served, shares, index, grossOf);
        remainingPool := remainingPool - childGross;
        grossOf := grossOf[served[index].id := childGross];
        index := index + 1;
      }
      assert shares[..index] == shares;
      GrossMapComplete(alloc, manager, children, shares, grossOf);
    }

    /** Makes sure the row exists and, for the root allocator, is in free mode. */
    method PrepareRow(node: Node, parent: Option<NodeId>, freeRoot: bool) returns (row: BudgetRow)
      modifies this`rows
      ensures var before := RowBefore(old(rows), node);
              row == before.(parent := parent, mode := if freeRoot && parent.None? then Free else before.mode)
      ensures rows == old(rows)[node.id := row]
    {
      row := EnsureBudget(node, parent);
      if freeRoot && parent.None? && row.mode != Free {
        row := UpsertBudget(node.id, NO_PATCH.(mode := Some(Free), parent := Some(None)));
      }
    }

    /** The part of a pass that touches the node's own row: make sure it exists,
        reconcile or roll over, and persist the new figures. */
    method ServeNode(node: Node, g: Grant, reset: bool, freeRoot: bool, remainingPool: int)
      returns (s: Snapshot)
      requires g.node == node && g.allowance == Max(remainingPool, 0)
      modifies this`rows
      ensures var row := RowAfter(RowBefore(old(rows), node), CostOf(costs, node.id), Pass(reset, freeRoot), g);
              rows == old(rows)[node.id := row] && s == SnapshotOf(g, row)
    {
      var row := PrepareRow(node, g.parent, freeRoot);
      var reserve := row.reserve;
      var spend := row.spend;
      if row.mode == Metered && !reset {
        var reconciled := CostOf(costs, node.id);
        if reconciled != spend {
          row := UpsertBudget(node.id, NO_PATCH.(spend := Some(reconciled)));
          spend := reconciled;
        }
      }
      if reset {
        reserve := Max(row.limit - spend, 0);
        spend := 0;
      }
      var allowance := Max(remainingPool, 0);
      var available := allowance + reserve;
      var remaining := Max(available - spend, 0);
      var persisted := UpsertBudget(node.id, Patch(None, Some(available), Some(allowance), Some(spend),
                                                   Some(reserve), Some(g.parent), g.pct, Some(row.review)));
      s := Snapshot(node, persisted.mode, g.parent, g.pct, g.inflow, allowance, reserve, available, spend,
                    remaining, persisted.review);
    }

    /** One pass over the subtree of `node`: rewrites its budget rows exactly as
        the plan of the subtree says, and reports one snapshot per grant. */
    method BuildSnapshotTree(node: Node, inflow: int, parent: Option<NodeId>, pct: Option<int>,
                             reset: bool, freeRoot: bool, ghost t: Tree)
      returns (results: map<NodeId, Snapshot>)
      requires Valid() && IsTree(org, t) && t.root == node
      modifies this`rows
      ensures rows == Apply(old(rows), costs, Pass(reset, freeRoot), Plan(alloc, t, inflow, parent, pct))
      ensures results == Report(old(rows), costs, Pass(reset, freeRoot), Plan(alloc, t, inflow, parent, pct), map[])
      decreases t, 1
    {
      var children := Children(org, node.id);
      SelectChildrenSpec(org.nodes, org.links, node.id);
      RootsAt(t.kids);
      var remainingPool, grossOf := SplitInflow(node.id, children, inflow);
      var grant := Grant(node, parent, pct, inflow, Max(remainingPool, 0));
      var snapshot := ServeNode(node, grant, reset, freeRoot, remainingPool);
      results := map[node.id := snapshot];

      ghost var first := rows;
      results := BuildChildren(node, children, grossOf, results, reset, t, RootsPools(alloc, t, inflow));
      ServeTree(alloc, costs, Pass(reset, freeRoot), t, grant, old(rows), first, map[node.id := snapshot], rows,
                results);
    }

    /** The recursion into the children, merging their snapshots. */
    method BuildChildren(node: Node, children: seq<Node>, grossOf: map<NodeId, int>, own: map<NodeId, Snapshot>,
                         reset: bool, ghost t: Tree, ghost pools: seq<int>)
      returns (results: map<NodeId, Snapshot>)
      requires Valid() && IsTree(org, t) && t.root == node && Roots(t.kids) == children
      requires |pools| == |t.kids| == |children|
      requires forall k :: 0 <= k < |children| ==>
                 pools[k] == if children[k].id in grossOf then grossOf[children[k].id] else 0
      modifies this`rows
      ensures ServedKids(costs, Pass(reset, false), PlanKids(alloc, node.id, t.kids, pools), old(rows), own,
                         rows, results)
      decreases t, 0
    {
      RootsAt(t.kids);
      ServedNone(alloc, costs, Pass(reset, false), t, pools, rows, own);
      results := own;
      var i := 0;
      while i < |children|
        invariant 0 <= i <= |children|
        invariant ServedKids(costs, Pass(reset, false), PlanKids(alloc, node.id, t.kids[..i], pools[..i]),
                             old(rows), own, rows, results)
      {
        var child := children[i];
        var childGross := if child.id in grossOf then grossOf[child.id] else 0;
        KidLink(org, t, i);
        ghost var before := rows;
        var more := BuildSnapshotTree(child, childGross, Some(node.id), Some(PctOf(alloc, node.id, child.id)),
                                      reset, false, t.kids[i]);
        ServeKid(alloc, costs, Pass(reset, false), t, pools, i, old(rows), own, before, results, more);
        results := results + more;
        i := i + 1;
      }
      assert t.kids[..i] == t.kids && pools[..i] == pools;
    }

    /** A recalculation never rolls reserves over. */
    method Recalculate(freeRoot: bool) returns (snapshots: map<NodeId, Snapshot>)
      requires Valid()
      modifies this`rows
      ensures Now() == After(old(Now()), Company(), budget, Step.Recalculate(freeRoot))
      ensures snapshots == Report(old(rows), costs, Pass(false, freeRoot),
                                  Plan(alloc, Company(), budget, None, None), map[])
    {
      snapshots := BuildSnapshotTree(root, budget, None, None, false, freeRoot, Company());
    }

    /** Runs the date's cycle once; an unforced rerun only recalculates. */
    method RunBudgetCycle(date: int, force: bool) returns (status: CycleStatus)
      requires Valid()
      modifies this`rows, this`cycles
      ensures status == (if date in old(cycles) && !force then AlreadyRan else Ran)
      ensures Now() == After(old(Now()), Company(), budget, Cycle(date, force))
    {
      if date in cycles && !force {
        var _ := BuildSnapshotTree(root, budget, None, None, false, false, Company());
        return AlreadyRan;
      }
      var _ := BuildSnapshotTree(root, budget, None, None, true, true, Company());
      cycles := cycles + {date};
      status := Ran;
    }

    /** Sets the mode; a missing row is created under the node's manager. */
    method SetNodeBudgetMode(node: NodeId, mode: Mode, manager: Option<NodeId>)
      requires Valid()
      modifies this`rows
      ensures Now() == After(old(Now()), Company(), budget, SetMode(node, mode, manager))
      ensures node in rows && rows[node].mode == mode
      ensures rows[node] == (if node in old(rows) then old(rows)[node].(mode := mode)
                             else COLUMN_DEFAULTS.(parent := manager, mode := mode))
    {
      var parent := if node in rows then rows[node].parent else manager;
      var _ := UpsertBudget(node, NO_PATCH.(parent := Some(parent), mode := Some(mode)));
    }

    /** Writes one row's limit directly, unless the hierarchy manages it and the
        glass is not broken. */
    method UpdateNodeAllowance(node: NodeId, limit: int, breakGlass: bool) returns (updated: bool)
      requires Valid()
      modifies this`rows
      ensures updated == Overrides(old(Now()), SetLimit(node, limit, breakGlass))
      ensures Now() == After(old(Now()), Company(), budget, SetLimit(node, limit, breakGlass))
      ensures updated <==> node in old(rows) && (breakGlass || old(rows)[node].parent.None?)
      ensures updated ==> rows == old(rows)[node := old(rows)[node].(limit := limit, allowance := limit, reserve := 0)]
      ensures !updated ==> rows == old(rows)
    {
      if node !in rows || (!breakGlass && rows[node].parent.Some?) {
        return false;
      }
      var _ := UpsertBudget(node, NO_PATCH.(limit := Some(limit), allowance := Some(limit), reserve := Some(0)));
      updated := true;
    }

    /** The date whose cycle is due at `date`, `minute`. */
    method DueCycleDate(date: int, minute: int, resetMinute: int) returns (due: Option<int>)
      ensures due == DueDate(cycles, date, minute, resetMinute)
    {
      if minute < resetMinute || date in cycles {
        return None;
      }
      due := Some(date);
    }

    /** Checks a manager's proposal row by row, in order. */
    method ValidateDirectChildren(manager: NodeId, proposal: seq<(Node, int)>) returns (r: Result<(), AllocationError>)
      requires Valid()
      ensures r.Ok? <==> AcceptableProposal(org, manager, proposal)
    {
      var children := Children(org, manager);
      SelectChildrenSpec(org.nodes, org.links, manager);
      var directChildren := set n | n in children :: n.id;
      ChildrenIds(org, manager, directChildren);
      var seen: set<NodeId> := {};
      var total := 0;
      var i := 0;
      while i < |proposal|
        invariant 0 <= i <= |proposal|
        invariant forall id :: id in seen <==> id in ProposedIds(proposal[..i])
        invariant total == Sum(ProposedPcts(proposal[..i]))
        invariant RowsAcceptable(org, manager, proposal[..i])
      {
        var (child, pct) := proposal[i];
        ProposedSnoc(org, manager, proposal, i);
        if child.id !in directChildren || child.id in seen || pct < 0 {
          RefusedPrefix(org, manager, proposal, i + 1);
          return Err(if child.id !in directChildren then NotDirectReport
                     else if child.id in seen then DuplicateChild else NegativePercentage);
        }
        seen := seen + {child.id};
        total := total + pct;
        i := i + 1;
      }
      assert proposal[..i] == proposal;
      if total > HUNDRED_PERCENT { return Err(OverHundredPercent); }
      r := Ok(());
    }

    /** Replaces one manager's allocation rows and clears its review flag; a
        refused proposal changes nothing. */
    method ReplaceTeamAllocations(manager: Node, managerParent: Option<NodeId>, proposal: seq<(Node, int)>)
      returns (r: Result<(), AllocationError>)
      requires Valid()
      modifies this`rows, this`alloc
      ensures r.Ok? <==> AcceptableProposal(org, manager.id, proposal)
      ensures r.Err? ==> rows == old(rows) && alloc == old(alloc)
      ensures r.Ok? ==> alloc == WithRows(old(alloc), manager.id, proposal)
      ensures r.Ok? ==> AllocationsReplaced(old(alloc), alloc, manager.id, proposal)
      ensures r.Ok? ==> rows == WithReviewCleared(old(rows), manager.id, managerParent)
      ensures r.Ok? ==> manager.id in rows && rows[manager.id].parent == managerParent
                        && rows[manager.id].review == None
    {
      r := ValidateDirectChildren(manager.id, proposal);
      if r.Ok? {
        alloc := map p | p in alloc && p.0 != manager.id :: alloc[p];
        var i := 0;
        while i < |proposal|
          invariant 0 <= i <= |proposal| && rows == old(rows)
          invariant alloc == WithRows(old(alloc), manager.id, proposal[..i])
        {
          assert proposal[..i + 1][..i] == proposal[..i];
          alloc := alloc[(manager.id, proposal[i].0.id) := proposal[i].1];
          i := i + 1;
        }
        assert proposal[..i] == proposal;
        WithRowsReplaces(old(alloc), manager.id, proposal);
        var _ := UpsertBudget(manager.id, NO_PATCH.(parent := Some(managerParent), review := Some(None)));
      }
    }
  }

  /** The next share, and what the shares up to it add up to. */
  lemma {:induction false} NextShare(inflow: int, pcts: seq<int>, i: nat)
    requires i < |pcts|
    ensures var shares := Shares(inflow, pcts);
            var rest := inflow - Sum(shares[..i]);
            && shares[i] == (if i == |pcts| - 1 && Sum(pcts) == HUNDRED_PERCENT then rest
                             else Min(ShareOf(inflow, pcts[i]), rest))
            && Sum(shares[..i + 1]) == Sum(shares[..i]) + shares[i]
  {
    SplitAt(inflow, Sum(pcts), inflow, pcts, i);
    SumTakeStep(Shares(inflow, pcts), i);
  }

  lemma {:induction false} AllocatedDistinct(alloc: Allocations, manager: NodeId, kids: seq<Node>)
    requires DistinctIds(kids)
    ensures DistinctIds(Allocated(alloc, manager, kids))
  {
    if kids != [] {
      AllocatedDistinct(alloc, manager, kids[1..]);
      AllocatedSpec(alloc, manager, kids[1..]);
      assert forall n :: n in Allocated(alloc, manager, kids[1..]) ==> n.id != kids[0].id;
    }
  }

  function ProposedPcts(proposal: seq<(Node, int)>): (pcts: seq<int>)
    ensures |pcts| == |proposal| && forall i :: 0 <= i < |proposal| ==> pcts[i] == proposal[i].1
  {
    seq(|proposal|, i requires 0 <= i < |proposal| => proposal[i].1)
  }

  /** The percentage a proposal gives a child; the last mention counts. */
  function ProposedPct(proposal: seq<(Node, int)>, child: NodeId): int {
    if proposal == [] then 0
    else
      var last := proposal[|proposal| - 1];
      if last.0.id == child then last.1 else ProposedPct(proposal[..|proposal| - 1], child)
  }

  function ProposedIds(proposal: seq<(Node, int)>): (ids: seq<NodeId>)
    ensures |ids| == |proposal| && forall i :: 0 <= i < |proposal| ==> ids[i] == proposal[i].0.id
  {
    seq(|proposal|, i requires 0 <= i < |proposal| => proposal[i].0.id)
  }

  ghost predicate RowsAcceptable(org: Org, manager: NodeId, proposal: seq<(Node, int)>) {
    && (forall i :: 0 <= i < |proposal| ==> Link(manager, proposal[i].0.id) in org.links && proposal[i].1 >= 0)
    && NoDup(ProposedIds(proposal))
  }

  /** Direct reports only, each at most once, nothing negative, at most 100 percent. */
  ghost predicate AcceptableProposal(org: Org, manager: NodeId, proposal: seq<(Node, int)>) {
    RowsAcceptable(org, manager, proposal) && Sum(ProposedPcts(proposal)) <= HUNDRED_PERCENT
  }

  lemma ChildrenIds(org: Org, manager: NodeId, ids: set<NodeId>)
    requires ValidOrg(org) && ids == set n | n in Children(org, manager) :: n.id
    ensures forall id :: id in ids <==> Link(manager, id) in org.links
  {
    SelectChildrenSpec(org.nodes, org.links, manager);
    forall id | Link(manager, id) in org.links ensures id in ids {
      var n :| n in org.nodes && n.id == id;
      assert n in Children(org, manager);
    }
  }

  lemma ProposedAppend(a: seq<(Node, int)>, b: seq<(Node, int)>)
    ensures ProposedPcts(a + b) == ProposedPcts(a) + ProposedPcts(b)
    ensures ProposedIds(a + b) == ProposedIds(a) + ProposedIds(b)
  {
  }

  lemma ProposedSnoc(org: Org, manager: NodeId, proposal: seq<(Node, int)>, i: nat)
    requires i < |proposal|
    ensures var (child, pct) := proposal[i];
            var ids := ProposedIds(proposal[..i]);
            && Sum(ProposedPcts(proposal[..i + 1])) == Sum(ProposedPcts(proposal[..i])) + pct
            && ProposedIds(proposal[..i + 1]) == ids + [child.id]
            && (RowsAcceptable(org, manager, proposal[..i]) ==>
                 (RowsAcceptable(org, manager, proposal[..i + 1])
                  <==> Link(manager, child.id) in org.links && pct >= 0 && child.id !in ids))
  {
    var (child, pct) := proposal[i];
    var ids := ProposedIds(proposal[..i]);
    assert proposal[..i + 1] == proposal[..i] + [proposal[i]];
    ProposedAppend(proposal[..i], [proposal[i]]);
    SumAppend(ProposedPcts(proposal[..i]), ProposedPcts([proposal[i]]));
    assert ProposedIds([proposal[i]]) == [child.id] && ProposedPcts([proposal[i]]) == [pct];
    NoDupSnoc(ids, child.id);
    assert proposal[..i + 1][i] == proposal[i];
    assert forall j :: 0 <= j < i ==> proposal[..i + 1][j] == proposal[..i][j];
  }

  lemma RefusedPrefix(org: Org, manager: NodeId, proposal: seq<(Node, int)>, i: nat)
    requires i <= |proposal| && !RowsAcceptable(org, manager, proposal[..i])
    ensures !RowsAcceptable(org, manager, proposal)
  {
    ProposedAppend(proposal[..i], proposal[i..]);
    assert proposal == proposal[..i] + proposal[i..];
    var ids, all := ProposedIds(proposal[..i]), ProposedIds(proposal);
    assert forall j :: 0 <= j < i ==> ids[j] == all[j] && proposal[..i][j] == proposal[j];
  }

  /** The manager's rows are exactly the proposal; all other rows are kept. */
  ghost predicate AllocationsReplaced(before: Allocations, after: Allocations, manager: NodeId,
                                      proposal: seq<(Node, int)>) {
    forall m, c ::
      PctOf(after, m, c) == if m == manager then ProposedPct(proposal, c) else PctOf(before, m, c)
  }

  /** One manager's rows deleted, then the proposal's added in order. */
  function WithRows(alloc: Allocations, manager: NodeId, proposal: seq<(Node, int)>): Allocations {
    if proposal == [] then map p | p in alloc && p.0 != manager :: alloc[p]
    else
      var last := proposal[|proposal| - 1];
      WithRows(alloc, manager, proposal[..|proposal| - 1])[(manager, last.0.id) := last.1]
  }

  lemma {:induction false} WithRowsReplaces(alloc: Allocations, manager: NodeId, proposal: seq<(Node, int)>)
    ensures AllocationsReplaced(alloc, WithRows(alloc, manager, proposal), manager, proposal)
  {
    if proposal != [] {
      var shorter, last := proposal[..|proposal| - 1], proposal[|proposal| - 1];
      WithRowsReplaces(alloc, manager, shorter);
      var before, after := WithRows(alloc, manager, shorter), WithRows(alloc, manager, proposal);
      assert after == before[(manager, last.0.id) := last.1];
      forall m, c ensures PctOf(after, m, c) == if m == manager then ProposedPct(proposal, c) else PctOf(alloc, m, c) {
        assert PctOf(before, m, c) == if m == manager then ProposedPct(shorter, c) else PctOf(alloc, m, c);
      }
    }
  }

  // ---------------------------------------------------------------------
  // Nobody promises more than 100 percent
  // ---------------------------------------------------------------------

  /** Whatever distinct children a manager has, the positive percentages it gives
      them total at most 100. */
  ghost predicate AtMostHundred(alloc: Allocations) {
    forall manager, kids :: DistinctIds(kids) ==> Sum(PositivePcts(alloc, manager, kids)) <= HUNDRED_PERCENT
  }

  lemma PositiveStep(alloc: Allocations, manager: NodeId, kids: seq<Node>)
    requires kids != []
    ensures Sum(PositivePcts(alloc, manager, kids))
         == Max(PctOf(alloc, manager, kids[0].id), 0) + Sum(PositivePcts(alloc, manager, kids[1..]))
  {
    var rest := Allocated(alloc, manager, kids[1..]);
    assert ([kids[0]] + rest)[1..] == rest && [] + rest == rest;
  }

  lemma {:induction false} SamePositive(a: Allocations, b: Allocations, manager: NodeId, kids: seq<Node>)
    requires forall n :: n in kids ==> PctOf(a, manager, n.id) == PctOf(b, manager, n.id)
    ensures Sum(PositivePcts(a, manager, kids)) == Sum(PositivePcts(b, manager, kids))
  {
    if kids != [] {
      SamePositive(a, b, manager, kids[1..]);
      PositiveStep(a, manager, kids);
      PositiveStep(b, manager, kids);
    }
  }

  /** Setting one child's percentage adds at most that to the manager's total. */
  lemma {:induction false} OneMore(alloc: Allocations, manager: NodeId, child: NodeId, pct: int, kids: seq<Node>)
    requires DistinctIds(kids) && pct >= 0
    ensures Sum(PositivePcts(alloc[(manager, child) := pct], manager, kids))
         <= Sum(PositivePcts(alloc, manager, kids)) + pct
  {
    if kids != [] {
      var after := alloc[(manager, child) := pct];
      PositiveStep(alloc, manager, kids);
      PositiveStep(after, manager, kids);
      if kids[0].id == child {
        SamePositive(alloc, after, manager, kids[1..]);
      } else {
        OneMore(alloc, manager, child, pct, kids[1..]);
      }
    }
  }

  lemma {:induction false} NonePositive(alloc: Allocations, manager: NodeId, kids: seq<Node>)
    requires forall c :: PctOf(alloc, manager, c) == 0
    ensures Sum(PositivePcts(alloc, manager, kids)) == 0
  {
    if kids != [] {
      NonePositive(alloc, manager, kids[1..]);
      PositiveStep(alloc, manager, kids);
    }
  }

  lemma {:induction false} AtMostProposed(alloc: Allocations, manager: NodeId, proposal: seq<(Node, int)>,
                                          kids: seq<Node>)
    requires DistinctIds(kids) && forall i :: 0 <= i < |proposal| ==> proposal[i].1 >= 0
    ensures Sum(PositivePcts(WithRows(alloc, manager, proposal), manager, kids)) <= Sum(ProposedPcts(proposal))
    decreases |proposal|
  {
    if proposal == [] {
      NonePositive(WithRows(alloc, manager, []), manager, kids);
    } else {
      var shorter, last := proposal[..|proposal| - 1], proposal[|proposal| - 1];
      AtMostProposed(alloc, manager, shorter, kids);
      OneMore(WithRows(alloc, manager, shorter), manager, last.0.id, last.1, kids);
      assert ProposedPcts(proposal) == ProposedPcts(shorter) + [last.1];
      SumAppend(ProposedPcts(shorter), [last.1]);
    }
  }

  /** An accepted proposal keeps every manager at or below 100 percent. */
  lemma ProposalKeepsHundred(org: Org, alloc: Allocations, manager: NodeId, proposal: seq<(Node, int)>)
    requires AtMostHundred(alloc) && AcceptableProposal(org, manager, proposal)
    ensures AtMostHundred(WithRows(alloc, manager, proposal))
  {
    var after := WithRows(alloc, manager, proposal);
    WithRowsReplaces(alloc, manager, proposal);
    forall m, kids | DistinctIds(kids) ensures Sum(PositivePcts(after, m, kids)) <= HUNDRED_PERCENT {
      if m == manager {
        AtMostProposed(alloc, manager, proposal, kids);
      } else {
        SamePositive(alloc, after, m, kids);
      }
    }
  }

  function WithReviewCleared(rows: Rows, manager: NodeId, parent: Option<NodeId>): Rows {
    var row := if manager in rows then rows[manager] else COLUMN_DEFAULTS;
    rows[manager := row.(parent := parent, review := None)]
  }

  // ---------------------------------------------------------------------
  // Steps of the pass
  // ---------------------------------------------------------------------

  /** The first `n` served children have their shares recorded, nobody else. */
  ghost predicate GrossMap(served: seq<Node>, shares: seq<int>, n: nat, grossOf: map<NodeId, int>)
    requires n <= |served| == |shares|
  {
    && (forall j :: 0 <= j < n ==> served[j].id in grossOf && grossOf[served[j].id] == shares[j])
    && (forall id :: id in grossOf ==> exists j :: 0 <= j < n && served[j].id == id)
  }

  lemma GrossMapStep(served: seq<Node>, shares: seq<int>, n: nat, grossOf: map<NodeId, int>)
    requires n < |served| == |shares| && DistinctIds(served) && GrossMap(served, shares, n, grossOf)
    ensures GrossMap(served, shares, n + 1, grossOf[served[n].id := shares[n]])
  {
  }

  lemma GrossMapComplete(alloc: Allocations, manager: NodeId, kids: seq<Node>, shares: seq<int>,
                         grossOf: map<NodeId, int>)
    requires DistinctIds(kids) && |shares| == |Allocated(alloc, manager, kids)|
    requires GrossMap(Allocated(alloc, manager, kids), shares, |shares|, grossOf)
    ensures forall k :: 0 <= k < |kids| ==>
              Spread(alloc, manager, kids, shares)[k] == if kids[k].id in grossOf then grossOf[kids[k].id] else 0
  {
    var served := Allocated(alloc, manager, kids);
    AllocatedSpec(alloc, manager, kids);
    forall k | 0 <= k < |kids|
      ensures Spread(alloc, manager, kids, shares)[k] == if kids[k].id in grossOf then grossOf[kids[k].id] else 0
    {
      var i := SpreadAt(alloc, manager, kids, shares, k);
      if kids[k].id in grossOf {
        var j :| 0 <= j < |served| && served[j].id == kids[k].id;
        assert served[j] in kids;
        assert served[j] == kids[k];
      }
    }
  }

  ghost predicate ServedKids(costs: Costs, pass: Pass, plan: seq<Grant>, first: Rows,
                             firstResults: map<NodeId, Snapshot>,
                             rows: Rows, results: map<NodeId, Snapshot>) {
    && rows == Apply(first, costs, pass, plan)
    && results == Report(first, costs, pass, plan, firstResults)
  }

  lemma ServedNone(alloc: Allocations, costs: Costs, pass: Pass, t: Tree, pools: seq<int>, rows: Rows,
                   results: map<NodeId, Snapshot>)
    requires |pools| == |t.kids|
    ensures ServedKids(costs, pass, PlanKids(alloc, t.root.id, t.kids[..0], pools[..0]), rows, results, rows, results)
  {
    assert t.kids[..0] == [] && pools[..0] == [];
  }

  lemma ServeKid(alloc: Allocations, costs: Costs, pass: Pass, t: Tree, pools: seq<int>, i: nat,
                 first: Rows, firstResults: map<NodeId, Snapshot>,
                 rows: Rows, results: map<NodeId, Snapshot>, more: map<NodeId, Snapshot>)
    requires |pools| == |t.kids| && i < |t.kids|
    requires ServedKids(costs, pass, PlanKids(alloc, t.root.id, t.kids[..i], pools[..i]), first, firstResults,
                        rows, results)
    requires var pct := Some(PctOf(alloc, t.root.id, t.kids[i].root.id));
             var plan := Plan(alloc, t.kids[i], pools[i], Some(t.root.id), pct);
             more == Report(rows, costs, pass, plan, map[])
    ensures var pct := Some(PctOf(alloc, t.root.id, t.kids[i].root.id));
            var plan := Plan(alloc, t.kids[i], pools[i], Some(t.root.id), pct);
            ServedKids(costs, pass, PlanKids(alloc, t.root.id, t.kids[..i + 1], pools[..i + 1]), first, firstResults,
                       Apply(rows, costs, pass, plan), results + more)
  {
    var plan := Plan(alloc, t.kids[i], pools[i], Some(t.root.id), Some(PctOf(alloc, t.root.id, t.kids[i].root.id)));
    PlanKidsSnoc(alloc, t.root.id, t.kids, pools, i);
    ApplyAppend(first, costs, pass, PlanKids(alloc, t.root.id, t.kids[..i], pools[..i]), plan, firstResults);
    ReportMerge(rows, costs, pass, plan, results, map[]);
    assert results + map[] == results;
  }

  lemma ServeTree(alloc: Allocations, costs: Costs, pass: Pass, t: Tree, g: Grant,
                  before: Rows, first: Rows, firstResults: map<NodeId, Snapshot>, rows: Rows,
                  results: map<NodeId, Snapshot>)
    requires g == Plan(alloc, t, g.inflow, g.parent, g.pct)[0]
    requires var row := RowAfter(RowBefore(before, g.node), CostOf(costs, g.node.id), pass, g);
             first == before[g.node.id := row] && firstResults == map[g.node.id := SnapshotOf(g, row)]
    requires ServedKids(costs, pass.(freeRoot := false),
                        PlanKids(alloc, t.root.id, t.kids, RootsPools(alloc, t, g.inflow)),
                        first, firstResults, rows, results)
    ensures rows == Apply(before, costs, pass, Plan(alloc, t, g.inflow, g.parent, g.pct))
    ensures results == Report(before, costs, pass, Plan(alloc, t, g.inflow, g.parent, g.pct), map[])
  {
    var plan := Plan(alloc, t, g.inflow, g.parent, g.pct);
    var pools := RootsPools(alloc, t, g.inflow);
    PlanKidsParents(alloc, t.root.id, t.kids, pools);
    BelowRootIgnoresForce(first, costs, pass, PlanKids(alloc, t.root.id, t.kids, pools), firstResults);
    assert plan[1..] == PlanKids(alloc, t.root.id, t.kids, pools);
    assert map[][g.node.id := firstResults[g.node.id]] == firstResults;
  }
}
