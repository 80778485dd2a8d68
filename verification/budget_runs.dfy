/** Whole runs of the budget engine on a fixed tree: where every micro-dollar
    goes over any number of cycles, recalculations and usage updates. */
module BudgetRuns {
  import opened Prelude
  import opened Forest
  import opened Waterfall
  import opened BudgetEngine

  function Run(s: State, t: Tree, budget: int, steps: seq<Step>): State
    decreases |steps|
  {
    if steps == [] then s else Run(After(s, t, budget, steps[0]), t, budget, steps[1..])
  }

  /** How many reset passes a run contains. */
  function Resets(s: State, t: Tree, budget: int, steps: seq<Step>): nat
    decreases |steps|
  {
    if steps == [] then 0
    else (if RunsReset(s, steps[0]) then 1 else 0) + Resets(After(s, t, budget, steps[0]), t, budget, steps[1..])
  }

  // ---------------------------------------------------------------------
  // Column totals
  // ---------------------------------------------------------------------

  datatype Column = Limit | SelfShare | Reserve | Left | Consumed

  function Cell(row: BudgetRow, c: Column): int {
    match c
    case Limit => row.limit
    case SelfShare => row.allowance
    case Reserve => row.reserve
    case Left => Unspent(row)
    case Consumed => Min(row.spend, row.limit)
  }

  function CellOf(rows: Rows, id: NodeId, c: Column): int {
    if id in rows then Cell(rows[id], c) else 0
  }

  function Total(rows: Rows, ids: seq<NodeId>, c: Column): int {
    if ids == [] then 0 else CellOf(rows, ids[0], c) + Total(rows, ids[1..], c)
  }

  /** What was spent up to the limits, summed over the resets of a run. */
  function ConsumedOver(s: State, t: Tree, budget: int, steps: seq<Step>): int
    decreases |steps|
  {
    if steps == [] then 0
    else (if RunsReset(s, steps[0]) then Total(s.rows, Ids(t), Consumed) else 0)
         + ConsumedOver(After(s, t, budget, steps[0]), t, budget, steps[1..])
  }

  // ---------------------------------------------------------------------
  // One pass, row by row
  // ---------------------------------------------------------------------

  lemma {:induction false} ApplyKeepsOthers(rows: Rows, costs: Costs, pass: Pass, plan: seq<Grant>, id: NodeId)
    requires id !in GrantIds(plan)
    ensures id in Apply(rows, costs, pass, plan) <==> id in rows
    ensures id in rows ==> Apply(rows, costs, pass, plan)[id] == rows[id]
    decreases plan
  {
    if plan != [] {
      var g := plan[0];
      var row := RowAfter(RowBefore(rows, g.node), CostOf(costs, g.node.id), pass, g);
      ApplyKeepsOthers(rows[g.node.id := row], costs, pass, plan[1..], id);
    }
  }

  /** A grant's row is rewritten from what it was before the whole pass. */
  lemma {:induction false} ApplyAt(rows: Rows, costs: Costs, pass: Pass, plan: seq<Grant>, i: nat)
    requires NoDup(GrantIds(plan)) && i < |plan|
    ensures var g := plan[i];
            var after := Apply(rows, costs, pass, plan);
            && g.node.id in after
            && after[g.node.id] == RowAfter(RowBefore(rows, g.node), CostOf(costs, g.node.id), pass, g)
    decreases plan
  {
    var g := plan[0];
    var row := RowAfter(RowBefore(rows, g.node), CostOf(costs, g.node.id), pass, g);
    if i == 0 {
      ApplyKeepsOthers(rows[g.node.id := row], costs, pass, plan[1..], g.node.id);
    } else {
      assert GrantIds(plan)[0] != GrantIds(plan)[i];
      ApplyAt(rows[g.node.id := row], costs, pass, plan[1..], i - 1);
    }
  }

  /** No snapshot is overwritten: one per grant, taken from the final row. */
  lemma {:induction false} ReportAt(rows: Rows, costs: Costs, pass: Pass, plan: seq<Grant>, seen: map<NodeId, Snapshot>)
    requires NoDup(GrantIds(plan))
    ensures var snaps := Report(rows, costs, pass, plan, seen);
            var after := Apply(rows, costs, pass, plan);
            && (forall i :: 0 <= i < |plan| ==>
                  && plan[i].node.id in snaps && plan[i].node.id in after
                  && snaps[plan[i].node.id] == SnapshotOf(plan[i], after[plan[i].node.id]))
            && (forall id :: id !in GrantIds(plan) ==> (id in snaps <==> id in seen))
            && (forall id :: id !in GrantIds(plan) && id in seen ==> snaps[id] == seen[id])
    decreases plan
  {
    if plan != [] {
      var g := plan[0];
      var row := RowAfter(RowBefore(rows, g.node), CostOf(costs, g.node.id), pass, g);
      ReportAt(rows[g.node.id := row], costs, pass, plan[1..], seen[g.node.id := SnapshotOf(g, row)]);
      ApplyAt(rows, costs, pass, plan, 0);
      assert GrantIds(plan) == [g.node.id] + GrantIds(plan[1..]);
      assert g.node.id !in GrantIds(plan[1..]);
    }
  }

  /** A pass reports every node at or below the root allocator exactly once. */
  lemma EveryNodeReportedOnce(org: Org, t: Tree, rows: Rows, costs: Costs, pass: Pass, alloc: Allocations, budget: int)
    requires ValidOrg(org) && IsTree(org, t)
    ensures var plan := Plan(alloc, t, budget, None, None);
            var snaps := Report(rows, costs, pass, plan, map[]);
            && |plan| == |snaps|
            && (forall id :: id in snaps <==> id == t.root.id || Descends(org, t.root.id, id))
  {
    var plan := Plan(alloc, t, budget, None, None);
    var snaps := Report(rows, costs, pass, plan, map[]);
    IdsDistinct(org, t);
    IdsAreDescendants(org, t);
    PlanIds(alloc, t, budget, None, None);
    ReportAt(rows, costs, pass, plan, map[]);
    forall id ensures id in snaps <==> id in Ids(t) {
      if id in Ids(t) {
        var i :| 0 <= i < |plan| && GrantIds(plan)[i] == id;
        assert plan[i].node.id in snaps;
      }
    }
    NoDupCount(Ids(t));
    assert snaps.Keys == Elements(Ids(t));
  }

  // ---------------------------------------------------------------------
  // One pass, in total
  // ---------------------------------------------------------------------

  ghost predicate Rewritten(rows: Rows, after: Rows, costs: Costs, pass: Pass, plan: seq<Grant>) {
    forall i :: 0 <= i < |plan| ==>
      && plan[i].node.id in after
      && after[plan[i].node.id]
         == RowAfter(RowBefore(rows, plan[i].node), CostOf(costs, plan[i].node.id), pass, plan[i])
  }

  lemma {:induction false} RewrittenTotals(rows: Rows, after: Rows, costs: Costs, pass: Pass, plan: seq<Grant>)
    requires Rewritten(rows, after, costs, pass, plan)
    ensures var ids := GrantIds(plan);
            && Total(after, ids, SelfShare) == Sum(Allowances(plan))
            && Total(after, ids, Limit) == Total(after, ids, SelfShare) + Total(after, ids, Reserve)
            && Total(after, ids, Reserve) == Total(rows, ids, if pass.reset then Left else Reserve)
  {
    if plan != [] {
      assert Rewritten(rows, after, costs, pass, plan[1..]) by {
        forall i | 0 <= i < |plan[1..]| ensures plan[1..][i] == plan[i + 1] {}
      }
      RewrittenTotals(rows, after, costs, pass, plan[1..]);
      assert plan[0].node.id in after;
      assert Allowances(plan)[1..] == Allowances(plan[1..]) && GrantIds(plan)[1..] == GrantIds(plan[1..]);
    } else {
      assert Allowances(plan) == [] && GrantIds(plan) == [];
    }
  }

  lemma {:induction false} LeftIsLimitMinusConsumed(rows: Rows, ids: seq<NodeId>)
    ensures Total(rows, ids, Left) == Total(rows, ids, Limit) - Total(rows, ids, Consumed)
  {
    if ids != [] { LeftIsLimitMinusConsumed(rows, ids[1..]); }
  }

  /** Every row of the tree exists and its limit is allowance plus reserve. */
  ghost predicate Balanced(rows: Rows, t: Tree) {
    forall id :: id in Ids(t) ==> id in rows && rows[id].limit == rows[id].allowance + rows[id].reserve
  }

  /** And the allowances add up to the company budget. */
  ghost predicate Settled(rows: Rows, t: Tree, budget: int) {
    Balanced(rows, t) && Total(rows, Ids(t), SelfShare) == budget
  }

  /** Any pass, from any rows, settles the tree; its limits total the company
      budget plus the reserves carried in. */
  lemma PassSettles(s: State, t: Tree, budget: nat, pass: Pass)
    requires NoDup(Ids(t))
    ensures var rows := PassRows(s, t, budget, pass);
            && Settled(rows, t, budget)
            && Total(rows, Ids(t), Limit)
               == budget + Total(s.rows, Ids(t), if pass.reset then Left else Reserve)
  {
    var plan := Plan(s.alloc, t, budget, None, None);
    var rows := PassRows(s, t, budget, pass);
    PlanIds(s.alloc, t, budget, None, None);
    PlanConserves(s.alloc, t, budget, None, None);
    forall i | 0 <= i < |plan|
      ensures plan[i].node.id in rows
      ensures rows[plan[i].node.id]
           == RowAfter(RowBefore(s.rows, plan[i].node), CostOf(s.costs, plan[i].node.id), pass, plan[i])
    {
      ApplyAt(s.rows, s.costs, pass, plan, i);
    }
    RewrittenTotals(s.rows, rows, s.costs, pass, plan);
    forall id | id in Ids(t) ensures id in rows && rows[id].limit == rows[id].allowance + rows[id].reserve {
      var i :| 0 <= i < |plan| && GrantIds(plan)[i] == id;
      assert plan[i].node.id in rows;
    }
  }

  lemma {:induction false} TotalIgnores(a: Rows, b: Rows, ids: seq<NodeId>, c: Column)
    requires forall id :: id in ids ==> CellOf(a, id, c) == CellOf(b, id, c)
    ensures Total(a, ids, c) == Total(b, ids, c)
  {
    if ids != [] { TotalIgnores(a, b, ids[1..], c); }
  }

  lemma {:induction false} SettledSplit(rows: Rows, ids: seq<NodeId>)
    requires forall id :: id in ids ==> id in rows && rows[id].limit == rows[id].allowance + rows[id].reserve
    ensures Total(rows, ids, Limit) == Total(rows, ids, SelfShare) + Total(rows, ids, Reserve)
  {
    if ids != [] { SettledSplit(rows, ids[1..]); }
  }

  /** Rewriting one row changes a total by that row's change. */
  lemma {:induction false} TotalOneChange(rows: Rows, ids: seq<NodeId>, id: NodeId, row: BudgetRow, c: Column)
    requires NoDup(ids)
    ensures Total(rows[id := row], ids, c)
         == Total(rows, ids, c) + if id in ids then Cell(row, c) - CellOf(rows, id, c) else 0
  {
    if ids != [] {
      if ids[0] == id {
        assert id !in ids[1..];
        TotalIgnores(rows[id := row], rows, ids[1..], c);
      } else {
        TotalOneChange(rows, ids[1..], id, row, c);
      }
    }
  }

  predicate IsPass(step: Step) {
    step.Cycle? || step.Recalculate?
  }

  /** What a directly written limit adds to the total of limits, and what a later
      pass without rollover takes back. */
  function Override(s: State, t: Tree, budget: int, step: Step): int {
    if Overrides(s, step) && step.node in Ids(t) then step.limit - s.rows[step.node].limit
    else if IsPass(step) && !RunsReset(s, step) then budget - Total(s.rows, Ids(t), SelfShare)
    else 0
  }

  lemma OtherStepRows(s: State, t: Tree, budget: int, step: Step)
    requires Balanced(s.rows, t) && !IsPass(step) && !Overrides(s, step)
    ensures var next := After(s, t, budget, step);
            && Balanced(next.rows, t)
            && Total(next.rows, Ids(t), Limit) == Total(s.rows, Ids(t), Limit)
            && Total(next.rows, Ids(t), SelfShare) == Total(s.rows, Ids(t), SelfShare)
  {
    var next := After(s, t, budget, step);
    TotalIgnores(next.rows, s.rows, Ids(t), Limit);
    TotalIgnores(next.rows, s.rows, Ids(t), SelfShare);
  }

  lemma StepConserves(s: State, t: Tree, budget: nat, step: Step)
    requires NoDup(Ids(t)) && Balanced(s.rows, t)
    ensures var next := After(s, t, budget, step);
            && Balanced(next.rows, t)
            && Total(next.rows, Ids(t), Limit)
               == Total(s.rows, Ids(t), Limit) + Override(s, t, budget, step)
                  + (if RunsReset(s, step) then budget - Total(s.rows, Ids(t), Consumed) else 0)
            && (Settled(s.rows, t, budget) && !Overrides(s, step) ==>
                  Settled(next.rows, t, budget) && Override(s, t, budget, step) == 0)
  {
    SettledSplit(s.rows, Ids(t));
    LeftIsLimitMinusConsumed(s.rows, Ids(t));
    if step.Cycle? {
      PassSettles(s, t, budget, if RunsReset(s, step) then Pass(true, true) else Pass(false, false));
    } else if step.Recalculate? {
      PassSettles(s, t, budget, Pass(false, step.freeRoot));
    } else if Overrides(s, step) {
      var row := s.rows[step.node].(limit := step.limit, allowance := step.limit, reserve := 0);
      TotalOneChange(s.rows, Ids(t), step.node, row, Limit);
    } else {
      OtherStepRows(s, t, budget, step);
    }
  }

  /** What direct writes of limits come to over a run. */
  function OverriddenOver(s: State, t: Tree, budget: int, steps: seq<Step>): int
    decreases |steps|
  {
    if steps == [] then 0
    else Override(s, t, budget, steps[0]) + OverriddenOver(After(s, t, budget, steps[0]), t, budget, steps[1..])
  }

  /** Over any run, the limits total what they did at the start, plus one company
      budget per reset, minus everything counted as spent up to the limits, plus
      what directly written limits added and later passes took back. */
  lemma {:induction false} RunConserves(s: State, t: Tree, budget: nat, steps: seq<Step>)
    requires NoDup(Ids(t)) && Balanced(s.rows, t)
    ensures var last := Run(s, t, budget, steps);
            && Balanced(last.rows, t)
            && Total(last.rows, Ids(t), Limit)
               == Total(s.rows, Ids(t), Limit) + budget * Resets(s, t, budget, steps)
                  - ConsumedOver(s, t, budget, steps) + OverriddenOver(s, t, budget, steps)
    decreases |steps|
  {
    if steps != [] {
      StepConserves(s, t, budget, steps[0]);
      var next := After(s, t, budget, steps[0]);
      RunConserves(next, t, budget, steps[1..]);
      Distribute(budget, if RunsReset(s, steps[0]) then 1 else 0, Resets(next, t, budget, steps[1..]));
    }
  }

  ghost predicate NoLimitWrites(steps: seq<Step>) {
    forall i :: 0 <= i < |steps| ==> !steps[i].SetLimit?
  }

  /** Without direct writes the books stay settled and the last term is nothing. */
  lemma {:induction false} RunStaysSettled(s: State, t: Tree, budget: nat, steps: seq<Step>)
    requires NoDup(Ids(t)) && Settled(s.rows, t, budget) && NoLimitWrites(steps)
    ensures Settled(Run(s, t, budget, steps).rows, t, budget) && OverriddenOver(s, t, budget, steps) == 0
    decreases |steps|
  {
    if steps != [] {
      assert !steps[0].SetLimit? && forall i :: 0 <= i < |steps[1..]| ==> steps[1..][i] == steps[i + 1];
      StepConserves(s, t, budget, steps[0]);
      RunStaysSettled(After(s, t, budget, steps[0]), t, budget, steps[1..]);
    }
  }

  /** A directly written limit does not last: a recalculation replaces it, and all
      that remains of it is the reserve it wiped out; a reset carries what is
      unspent of it over. */
  lemma LimitWriteOutcome(s: State, t: Tree, budget: nat, step: Step, later: Step)
    requires NoDup(Ids(t)) && Balanced(s.rows, t) && Overrides(s, step) && step.node in Ids(t) && IsPass(later)
    ensures var written := After(s, t, budget, step);
            var after := Total(After(written, t, budget, later).rows, Ids(t), Limit);
            if RunsReset(written, later)
            then after == budget + Total(s.rows, Ids(t), Limit) + step.limit - s.rows[step.node].limit
                          - Total(written.rows, Ids(t), Consumed)
            else after == budget + Total(s.rows, Ids(t), Reserve) - s.rows[step.node].reserve
  {
    var written := After(s, t, budget, step);
    var row := s.rows[step.node].(limit := step.limit, allowance := step.limit, reserve := 0);
    TotalOneChange(s.rows, Ids(t), step.node, row, Reserve);
    StepConserves(s, t, budget, step);
    StepConserves(written, t, budget, later);
    SettledSplit(written.rows, Ids(t));
  }

  // ---------------------------------------------------------------------
  // Reruns
  // ---------------------------------------------------------------------

  lemma {:induction false} ApplyKeys(rows: Rows, costs: Costs, pass: Pass, plan: seq<Grant>)
    ensures forall id :: id in Apply(rows, costs, pass, plan) <==> id in rows || id in GrantIds(plan)
    decreases plan
  {
    if plan != [] {
      var g := plan[0];
      var row := RowAfter(RowBefore(rows, g.node), CostOf(costs, g.node.id), pass, g);
      ApplyKeys(rows[g.node.id := row], costs, pass, plan[1..]);
    }
  }

  lemma SecondPassSameRow(rows: Rows, costs: Costs, pass: Pass, plan: seq<Grant>, id: NodeId)
    requires NoDup(GrantIds(plan)) && !pass.reset && id in Apply(rows, costs, pass, plan)
    ensures var once := Apply(rows, costs, pass, plan);
            var twice := Apply(once, costs, pass, plan);
            id in twice && twice[id] == once[id]
  {
    var once := Apply(rows, costs, pass, plan);
    if id in GrantIds(plan) {
      var i :| 0 <= i < |plan| && GrantIds(plan)[i] == id;
      ApplyAt(rows, costs, pass, plan, i);
      ApplyAt(once, costs, pass, plan, i);
    } else {
      ApplyKeepsOthers(once, costs, pass, plan, id);
    }
  }

  lemma PassIdempotent(rows: Rows, costs: Costs, pass: Pass, plan: seq<Grant>)
    requires NoDup(GrantIds(plan)) && !pass.reset
    ensures var once := Apply(rows, costs, pass, plan);
            Apply(once, costs, pass, plan) == once
  {
    var once := Apply(rows, costs, pass, plan);
    var twice := Apply(once, costs, pass, plan);
    ApplyKeys(rows, costs, pass, plan);
    ApplyKeys(once, costs, pass, plan);
    forall id | id in once ensures id in twice && twice[id] == once[id] {
      SecondPassSameRow(rows, costs, pass, plan, id);
    }
  }

  /** Recalculating twice changes nothing the second time. */
  lemma RecalculationIdempotent(s: State, t: Tree, budget: int, freeRoot: bool)
    requires NoDup(Ids(t))
    ensures var once := After(s, t, budget, Recalculate(freeRoot));
            After(once, t, budget, Recalculate(freeRoot)) == once
  {
    PlanIds(s.alloc, t, budget, None, None);
    PassIdempotent(s.rows, s.costs, Pass(false, freeRoot), Plan(s.alloc, t, budget, None, None));
  }

  function WrittenBy(step: Step): set<NodeId> {
    if step.SetLimit? then {step.node} else {}
  }

  lemma StepKeepsReserves(s: State, t: Tree, budget: int, step: Step)
    requires NoDup(Ids(t)) && !RunsReset(s, step)
    ensures forall id :: id !in WrittenBy(step) ==>
              CellOf(After(s, t, budget, step).rows, id, Reserve) == CellOf(s.rows, id, Reserve)
  {
    if step.Cycle? || step.Recalculate? {
      var plan := Plan(s.alloc, t, budget, None, None);
      var pass := Pass(false, step.Recalculate? && step.freeRoot);
      PlanIds(s.alloc, t, budget, None, None);
      forall id ensures CellOf(After(s, t, budget, step).rows, id, Reserve) == CellOf(s.rows, id, Reserve) {
        if id in Ids(t) {
          var i :| 0 <= i < |plan| && GrantIds(plan)[i] == id;
          ApplyAt(s.rows, s.costs, pass, plan, i);
        } else {
          ApplyKeepsOthers(s.rows, s.costs, pass, plan, id);
        }
      }
    }
  }

  /** The rows a run writes limits to directly. */
  ghost function WrittenIn(steps: seq<Step>): set<NodeId> {
    if steps == [] then {} else WrittenBy(steps[0]) + WrittenIn(steps[1..])
  }

  ghost predicate Unforced(steps: seq<Step>) {
    forall i :: 0 <= i < |steps| && steps[i].Cycle? ==> !steps[i].force
  }

  ghost function CycleDates(steps: seq<Step>): set<int> {
    if steps == [] then {} else DateOf(steps[0]) + CycleDates(steps[1..])
  }

  lemma UnforcedTail(steps: seq<Step>)
    requires steps != []
    ensures Unforced(steps) ==> Unforced(steps[1..]) && (steps[0].Cycle? ==> !steps[0].force)
  {
    assert forall i :: 0 <= i < |steps[1..]| ==> steps[1..][i] == steps[i + 1];
  }

  lemma CyclesAfter(s: State, t: Tree, budget: int, step: Step)
    ensures After(s, t, budget, step).cycles == s.cycles + DateOf(step)
  {
  }

  function DateOf(step: Step): set<int> {
    if step.Cycle? then {step.date} else {}
  }

  lemma NewDates(before: set<int>, step: Step, later: set<int>)
    ensures var all := before + DateOf(step) + later;
            && before + (DateOf(step) + later) == all
            && |all - before| == |all - (before + DateOf(step))|
                                 + (if step.Cycle? && step.date !in before then 1 else 0)
  {
    var all := before + DateOf(step) + later;
    if step.Cycle? && step.date !in before {
      assert all - before == (all - (before + DateOf(step))) + {step.date};
    } else {
      assert before + DateOf(step) == before;
    }
  }

  lemma Unroll(s: State, t: Tree, budget: int, steps: seq<Step>) returns (next: State, last: State, n: nat)
    requires steps != []
    ensures next == After(s, t, budget, steps[0]) && next.cycles == s.cycles + DateOf(steps[0])
    ensures last == Run(s, t, budget, steps) == Run(next, t, budget, steps[1..])
    ensures n == Resets(next, t, budget, steps[1..])
    ensures Resets(s, t, budget, steps) == (if RunsReset(s, steps[0]) then 1 else 0) + n
  {
    next := After(s, t, budget, steps[0]);
    last := Run(next, t, budget, steps[1..]);
    n := Resets(next, t, budget, steps[1..]);
  }

  /** Without break-glass, a run resets once per date that had no cycle yet, and
      never again: rollover is applied at most once per date. */
  lemma {:induction false} OneResetPerDate(s: State, t: Tree, budget: int, steps: seq<Step>)
    requires Unforced(steps)
    ensures var last := Run(s, t, budget, steps);
            && last.cycles == s.cycles + CycleDates(steps)
            && Resets(s, t, budget, steps) == |last.cycles - s.cycles|
    decreases |steps|
  {
    if steps == [] {
      assert s.cycles - s.cycles == {};
    } else {
      var next, last, n := Unroll(s, t, budget, steps);
      UnforcedTail(steps);
      OneResetPerDate(next, t, budget, steps[1..]);
      NewDates(s.cycles, steps[0], CycleDates(steps[1..]));
    }
  }

  /** Once the dates of a run have had their cycles, no reserve moves but those of
      directly written rows. */
  lemma {:induction false} RerunsKeepReserves(s: State, t: Tree, budget: int, steps: seq<Step>)
    requires NoDup(Ids(t)) && Unforced(steps) && CycleDates(steps) <= s.cycles
    ensures forall id :: id !in WrittenIn(steps) ==>
              CellOf(Run(s, t, budget, steps).rows, id, Reserve) == CellOf(s.rows, id, Reserve)
    decreases |steps|
  {
    if steps != [] {
      var next := After(s, t, budget, steps[0]);
      UnforcedTail(steps);
      CyclesAfter(s, t, budget, steps[0]);
      StepKeepsReserves(s, t, budget, steps[0]);
      RerunsKeepReserves(next, t, budget, steps[1..]);
    }
  }

  /** With break-glass the same date rolls over again: nothing is spent, yet the
      limits grow by a second company budget. */
  lemma ForcedRerunRollsOverAgain(s: State, t: Tree, budget: nat, date: int)
    requires NoDup(Ids(t)) && Settled(s.rows, t, budget) && date in s.cycles
    requires forall id :: id in Ids(t) ==> s.rows[id].spend == 0 && s.rows[id].limit >= 0
    ensures Total(After(s, t, budget, Cycle(date, true)).rows, Ids(t), Limit) == Total(s.rows, Ids(t), Limit) + budget
  {
    StepConserves(s, t, budget, Cycle(date, true));
    NothingConsumed(s.rows, Ids(t));
  }

  lemma {:induction false} NothingConsumed(rows: Rows, ids: seq<NodeId>)
    requires forall id :: id in ids ==> id in rows && rows[id].spend == 0 && rows[id].limit >= 0
    ensures Total(rows, ids, Consumed) == 0
  {
    if ids != [] { NothingConsumed(rows, ids[1..]); }
  }

  lemma {:induction false} RunCycles(s: State, t: Tree, budget: int, steps: seq<Step>)
    ensures Run(s, t, budget, steps).cycles == s.cycles + CycleDates(steps)
    decreases |steps|
  {
    if steps != [] {
      CyclesAfter(s, t, budget, steps[0]);
      RunCycles(After(s, t, budget, steps[0]), t, budget, steps[1..]);
    }
  }

  /** Over any run, break-glass included, a date is due exactly from its reset
      minute until its first cycle, and then never again; while it is due, its
      cycle resets. */
  lemma DueUntilRunIff(s: State, t: Tree, budget: int, steps: seq<Step>, date: int, minute: int, resetMinute: int)
    ensures var last := Run(s, t, budget, steps);
            && (DueDate(last.cycles, date, minute, resetMinute) == Some(date)
                <==> minute >= resetMinute && date !in s.cycles && date !in CycleDates(steps))
            && (DueDate(last.cycles, date, minute, resetMinute).Some? ==> RunsReset(last, Cycle(date, false)))
  {
    RunCycles(s, t, budget, steps);
  }

  // ---------------------------------------------------------------------
  // Rounding after any run
  // ---------------------------------------------------------------------

  /** Allocations are only ever changed by accepted proposals. */
  ghost predicate Proposed(org: Org, s: State, step: Step) {
    step.SetAllocations? ==>
      exists manager, proposal ::
        AcceptableProposal(org, manager, proposal) && step.alloc == WithRows(s.alloc, manager, proposal)
  }

  ghost predicate AllProposed(org: Org, s: State, t: Tree, budget: int, steps: seq<Step>)
    decreases |steps|
  {
    steps == [] ||
    (Proposed(org, s, steps[0]) && AllProposed(org, After(s, t, budget, steps[0]), t, budget, steps[1..]))
  }

  lemma {:induction false} RunKeepsHundred(org: Org, s: State, t: Tree, budget: int, steps: seq<Step>)
    requires AtMostHundred(s.alloc) && AllProposed(org, s, t, budget, steps)
    ensures AtMostHundred(Run(s, t, budget, steps).alloc)
    decreases |steps|
  {
    if steps != [] {
      var step := steps[0];
      if step.SetAllocations? {
        var manager, proposal :| AcceptableProposal(org, manager, proposal)
                                 && step.alloc == WithRows(s.alloc, manager, proposal);
        ProposalKeepsHundred(org, s.alloc, manager, proposal);
      }
      RunKeepsHundred(org, After(s, t, budget, step), t, budget, steps[1..]);
    }
  }

  lemma NoAllocationsAtMostHundred()
    ensures AtMostHundred(map[])
  {
    forall manager, kids: seq<Node> ensures Sum(PositivePcts(map[], manager, kids)) == 0 {
      NonePositive(map[], manager, kids);
    }
  }

  /** Along the branch, no manager has more than `bound + 1` allocated children. */
  ghost predicate BranchNarrow(alloc: Allocations, t: Tree, bound: nat, branch: seq<nat>)
    requires IsBranch(t, branch)
    decreases |branch|
  {
    branch != [] ==>
      && |PositivePcts(alloc, t.root.id, Roots(t.kids))| <= bound + 1
      && BranchNarrow(alloc, t.kids[branch[0]], bound, branch[1..])
  }

  lemma {:induction false} NarrowIsWithin(org: Org, alloc: Allocations, t: Tree, bound: nat, branch: seq<nat>)
    requires ValidOrg(org) && IsTree(org, t) && IsBranch(t, branch)
    requires AtMostHundred(alloc) && BranchNarrow(alloc, t, bound, branch)
    ensures BranchWithin(alloc, t, bound, branch)
    decreases |branch|
  {
    if branch != [] {
      SelectChildrenSpec(org.nodes, org.links, t.root.id);
      NarrowIsWithin(org, alloc, t.kids[branch[0]], bound, branch[1..]);
    }
  }

  /** However often teams were re-allocated before: at depth d a node's inflow is
      within d * B / 2 of the exact product of the percentages above it, where B
      bounds max(1, allocated children - 1) on the way down. */
  lemma InflowNearExactAfterAnyRun(org: Org, t: Tree, budget: nat, rows: Rows, costs: Costs, cycles: set<int>,
                                   steps: seq<Step>, bound: nat, branch: seq<nat>)
    requires ValidOrg(org) && IsTree(org, t) && IsBranch(t, branch) && bound >= 1
    requires AllProposed(org, State(rows, costs, map[], cycles), t, budget, steps)
    requires BranchNarrow(Run(State(rows, costs, map[], cycles), t, budget, steps).alloc, t, bound, branch)
    ensures var alloc := Run(State(rows, costs, map[], cycles), t, budget, steps).alloc;
            Within(BranchInflow(alloc, t, budget, branch) as real - BranchExact(alloc, t, budget as real, branch),
                   HalfUnits(|branch| * bound))
  {
    var alloc := Run(State(rows, costs, map[], cycles), t, budget, steps).alloc;
    NoAllocationsAtMostHundred();
    RunKeepsHundred(org, State(rows, costs, map[], cycles), t, budget, steps);
    NarrowIsWithin(org, alloc, t, bound, branch);
    InflowNearExact(alloc, t, budget, bound, branch);
  }
}
