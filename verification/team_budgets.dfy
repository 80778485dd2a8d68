/** A manager changing its team's allocations: replace, recalculate, and flag the
    direct reports who must now redistribute. */
module TeamBudgets {
  import opened Prelude
  import opened Forest
  import opened Waterfall
  import opened BudgetEngine
  import opened BudgetRuns
  import BudgetRows

  datatype TeamError = NotOwnTeam | NoAllocations | Refused(reason: AllocationError)

  /** Own allowance and limit, as a report would see them. */
  type Figures = (int, int)

  function FiguresOf(rows: Rows, id: NodeId): Figures {
    if id in rows then (rows[id].allowance, rows[id].limit) else (0, 0)
  }

  function PreviousOf(previous: map<NodeId, Figures>, id: NodeId): Figures {
    if id in previous then previous[id] else (0, 0)
  }

  predicate Moved(snaps: map<NodeId, Snapshot>, previous: map<NodeId, Figures>, id: NodeId) {
    id in snaps && PreviousOf(previous, id) != (snaps[id].allowance, snaps[id].available)
  }

  function FlagOne(rows: Rows, org: Org, id: NodeId, snaps: map<NodeId, Snapshot>, previous: map<NodeId, Figures>,
                   now: int): Rows
  {
    if Moved(snaps, previous, id) && Children(org, id) != [] then
      rows[id := (if id in rows then rows[id] else COLUMN_DEFAULTS).(review := Some(now))]
    else rows
  }

  /** Flags, in order, the reports whose figures moved and who have reports themselves. */
  function Flagged(rows: Rows, org: Org, children: seq<Node>, snaps: map<NodeId, Snapshot>,
                   previous: map<NodeId, Figures>, now: int): Rows
    decreases |children|
  {
    if children == [] then rows
    else Flagged(FlagOne(rows, org, children[0].id, snaps, previous, now), org, children[1..], snaps, previous, now)
  }

  /** The figures of the listed nodes. */
  function Captured(rows: Rows, children: seq<Node>): (r: map<NodeId, Figures>)
    ensures forall n :: n in children ==> n.id in r
    ensures forall id :: id in r ==> r[id] == FiguresOf(rows, id)
  {
    map n | n in children :: n.id := FiguresOf(rows, n.id)
  }

  /** The whole action on the engine's state. */
  function TeamUpdate(s: State, org: Org, t: Tree, budget: int, manager: NodeId, parent: Option<NodeId>,
                      proposal: seq<(Node, int)>, now: int): State
  {
    var replaced := s.(rows := WithReviewCleared(s.rows, manager, parent),
                       alloc := WithRows(s.alloc, manager, proposal));
    var after := After(replaced, t, budget, Recalculate(true));
    var snaps := Report(replaced.rows, s.costs, Pass(false, true), Plan(replaced.alloc, t, budget, None, None), map[]);
    var children := Children(org, manager);
    after.(rows := Flagged(after.rows, org, children, snaps, Captured(s.rows, children), now))
  }

  class BudgetsService {
    const engine: Engine

    constructor (engine: Engine)
      ensures this.engine == engine
    {
      this.engine := engine;
    }

    method NotifyOne(child: NodeId, snaps: map<NodeId, Snapshot>, previous: map<NodeId, Figures>, now: int)
      modifies engine`rows
      ensures engine.rows == FlagOne(old(engine.rows), engine.org, child, snaps, previous, now)
    {
      if child !in snaps {
        return;
      }
      var snapshot := snaps[child];
      var before := PreviousOf(previous, child);
      if before.0 == snapshot.allowance && before.1 == snapshot.available {
        return;
      }
      if Children(engine.org, child) != [] {
        var _ := engine.UpsertBudget(child, NO_PATCH.(review := Some(Some(now))));
      }
    }

    /** Compares every report's new figures with the captured ones. */
    method NotifyDirectReports(manager: Node, snaps: map<NodeId, Snapshot>, previous: map<NodeId, Figures>, now: int)
      modifies engine`rows
      ensures engine.rows == Flagged(old(engine.rows), engine.org, Children(engine.org, manager.id), snaps,
                                     previous, now)
    {
      var children := Children(engine.org, manager.id);
      var i := 0;
      assert children[0..] == children;
      while i < |children|
        invariant 0 <= i <= |children|
        invariant Flagged(engine.rows, engine.org, children[i..], snaps, previous, now)
               == Flagged(old(engine.rows), engine.org, children, snaps, previous, now)
      {
        assert children[i..][0] == children[i] && children[i..][1..] == children[i + 1..];
        NotifyOne(children[i].id, snaps, previous, now);
        i := i + 1;
      }
    }

    method SetTeamAllocations(actor: Node, manager: Node, parent: Option<NodeId>, proposal: seq<(Node, int)>, now: int)
      returns (r: Result<(), TeamError>)
      requires engine.Valid()
      modifies engine
      ensures r.Ok? <==>
                actor.id == manager.id && proposal != [] && AcceptableProposal(engine.org, manager.id, proposal)
      ensures r.Err? ==> engine.Now() == old(engine.Now())
      ensures r.Ok? ==> engine.Now() == TeamUpdate(old(engine.Now()), engine.org, engine.Company(), engine.budget,
                                                   manager.id, parent, proposal, now)
    {
      if actor.id != manager.id {
        return Err(NotOwnTeam);
      }
      if proposal == [] {
        return Err(NoAllocations);
      }
      var previous := Captured(engine.rows, Children(engine.org, manager.id));
      var saved := engine.ReplaceTeamAllocations(manager, parent, proposal);
      if saved.Err? {
        return Err(Refused(saved.error));
      }
      var snaps := engine.Recalculate(true);
      NotifyDirectReports(manager, snaps, previous, now);
      r := Ok(());
    }
  }

  // ---------------------------------------------------------------------
  // Who is flagged
  // ---------------------------------------------------------------------

  /** Flagging touches nothing but review marks of the children that moved. */
  lemma {:induction false} FlaggedAt(rows: Rows, org: Org, children: seq<Node>, snaps: map<NodeId, Snapshot>,
                                     previous: map<NodeId, Figures>, now: int, id: NodeId)
    requires forall n :: n in children && n.id in snaps ==> n.id in rows
    ensures var after := Flagged(rows, org, children, snaps, previous, now);
            var listed := exists n :: n in children && n.id == id;
            var flag := listed && Moved(snaps, previous, id) && Children(org, id) != [];
            && (id in after <==> id in rows)
            && (id in rows ==> after[id] == if flag then rows[id].(review := Some(now)) else rows[id])
    decreases |children|
  {
    if children != [] {
      FlaggedAt(FlagOne(rows, org, children[0].id, snaps, previous, now), org, children[1..], snaps, previous, now, id);
    }
  }

  /** The rows and snapshots of the recalculation inside the action. */
  ghost predicate Recalculated(s: State, org: Org, t: Tree, budget: int, manager: NodeId, parent: Option<NodeId>,
                               proposal: seq<(Node, int)>, rows: Rows, snaps: map<NodeId, Snapshot>)
  {
    var cleared := WithReviewCleared(s.rows, manager, parent);
    var plan := Plan(WithRows(s.alloc, manager, proposal), t, budget, None, None);
    && rows == Apply(cleared, s.costs, Pass(false, true), plan)
    && snaps == Report(cleared, s.costs, Pass(false, true), plan, map[])
  }

  lemma RecalculatedFacts(s: State, org: Org, t: Tree, budget: int, manager: NodeId, parent: Option<NodeId>,
                          proposal: seq<(Node, int)>, rows: Rows, snaps: map<NodeId, Snapshot>)
    requires ValidOrg(org) && IsTree(org, t)
    requires Recalculated(s, org, t, budget, manager, parent, proposal, rows, snaps)
    ensures forall id :: id in snaps <==> id in Ids(t)
    ensures forall id :: id in snaps ==> id in rows && FiguresOf(rows, id) == (snaps[id].allowance, snaps[id].available)
  {
    var cleared := WithReviewCleared(s.rows, manager, parent);
    var plan := Plan(WithRows(s.alloc, manager, proposal), t, budget, None, None);
    IdsDistinct(org, t);
    PlanIds(WithRows(s.alloc, manager, proposal), t, budget, None, None);
    ReportAt(cleared, s.costs, Pass(false, true), plan, map[]);
    forall id ensures id in snaps <==> id in Ids(t) {
      if id in Ids(t) {
        var i :| 0 <= i < |plan| && GrantIds(plan)[i] == id;
        assert plan[i].node.id in snaps;
      }
    }
    forall id | id in snaps ensures id in rows && FiguresOf(rows, id) == (snaps[id].allowance, snaps[id].available) {
      var i :| 0 <= i < |plan| && GrantIds(plan)[i] == id;
      ApplyAt(cleared, s.costs, Pass(false, true), plan, i);
    }
  }

  /** A direct report with reports of its own, below the root allocator, whose
      allowance or limit is not what it was. */
  ghost predicate MustReview(org: Org, t: Tree, before: Rows, after: Rows, manager: NodeId, id: NodeId) {
    && Link(manager, id) in org.links && Children(org, id) != [] && id in Ids(t)
    && FiguresOf(before, id) != FiguresOf(after, id)
  }

  ghost function ReviewOf(rows: Rows, id: NodeId): Option<int> {
    if id in rows then rows[id].review else None
  }

  lemma ReviewKept(rows: Rows, costs: Costs, pass: Pass, plan: seq<Grant>, id: NodeId)
    requires NoDup(GrantIds(plan))
    ensures ReviewOf(Apply(rows, costs, pass, plan), id) == ReviewOf(rows, id)
  {
    if id in GrantIds(plan) {
      var i :| 0 <= i < |plan| && GrantIds(plan)[i] == id;
      ApplyAt(rows, costs, pass, plan, i);
    } else {
      ApplyKeepsOthers(rows, costs, pass, plan, id);
    }
  }

  lemma IsChild(org: Org, manager: NodeId, id: NodeId)
    requires ValidOrg(org)
    ensures (exists n :: n in Children(org, manager) && n.id == id) <==> Link(manager, id) in org.links
  {
    SelectChildrenSpec(org.nodes, org.links, manager);
    if Link(manager, id) in org.links {
      var n :| n in org.nodes && n.id == id;
      assert n in Children(org, manager);
    }
  }

  /** Nobody in the tree reports to itself. */
  lemma NoSelfLink(org: Org, t: Tree, id: NodeId)
    requires ValidOrg(org) && IsTree(org, t) && id in Ids(t)
    ensures Link(id, id) !in org.links
    decreases t
  {
    if id == t.root.id {
      TreeImpliesNoCycle(org, t);
      if Link(id, id) in org.links {
        DescendsStep(org, id, id, id);
        assert false;
      }
    } else {
      IdsAllMember(t.kids, id);
      var i :| 0 <= i < |t.kids| && id in Ids(t.kids[i]);
      KidLink(org, t, i);
      NoSelfLink(org, t.kids[i], id);
    }
  }

  /** One row after the action, in terms of the row after the recalculation. */
  lemma UpdatedRow(s: State, org: Org, t: Tree, budget: int, manager: NodeId, parent: Option<NodeId>,
                   proposal: seq<(Node, int)>, now: int, rows: Rows, snaps: map<NodeId, Snapshot>, id: NodeId)
    requires ValidOrg(org) && IsTree(org, t)
    requires Recalculated(s, org, t, budget, manager, parent, proposal, rows, snaps)
    ensures var after := TeamUpdate(s, org, t, budget, manager, parent, proposal, now).rows;
            && (id in after <==> id in rows)
            && (id in rows ==> after[id] == if MustReview(org, t, s.rows, rows, manager, id)
                                            then rows[id].(review := Some(now)) else rows[id])
  {
    var children := Children(org, manager);
    RecalculatedFacts(s, org, t, budget, manager, parent, proposal, rows, snaps);
    FlaggedAt(rows, org, children, snaps, Captured(s.rows, children), now, id);
    IsChild(org, manager, id);
  }

  /** After the action the manager's own flag is cleared, and another node is
      newly flagged exactly when it must review; all other flags are as before. */
  lemma ReviewsFlaggedIff(s: State, org: Org, t: Tree, budget: int, manager: NodeId, parent: Option<NodeId>,
                          proposal: seq<(Node, int)>, now: int, id: NodeId)
    requires ValidOrg(org) && IsTree(org, t)
    ensures var after := TeamUpdate(s, org, t, budget, manager, parent, proposal, now).rows;
            ReviewOf(after, id) == if id == manager then None
                                   else if MustReview(org, t, s.rows, after, manager, id) then Some(now)
                                   else ReviewOf(s.rows, id)
  {
    var cleared := WithReviewCleared(s.rows, manager, parent);
    var plan := Plan(WithRows(s.alloc, manager, proposal), t, budget, None, None);
    var rows := Apply(cleared, s.costs, Pass(false, true), plan);
    var snaps := Report(cleared, s.costs, Pass(false, true), plan, map[]);
    IdsDistinct(org, t);
    PlanIds(WithRows(s.alloc, manager, proposal), t, budget, None, None);
    ReviewKept(cleared, s.costs, Pass(false, true), plan, id);
    UpdatedRow(s, org, t, budget, manager, parent, proposal, now, rows, snaps, id);
    RecalculatedFacts(s, org, t, budget, manager, parent, proposal, rows, snaps);
    if id in Ids(t) { NoSelfLink(org, t, id); }
  }

  /** The action leaves the books settled: limits are allowance plus reserve and
      the allowances total the company budget. */
  lemma TeamUpdateSettles(s: State, org: Org, t: Tree, budget: nat, manager: NodeId, parent: Option<NodeId>,
                          proposal: seq<(Node, int)>, now: int)
    requires ValidOrg(org) && IsTree(org, t)
    ensures Settled(TeamUpdate(s, org, t, budget, manager, parent, proposal, now).rows, t, budget)
  {
    var replaced := s.(rows := WithReviewCleared(s.rows, manager, parent),
                       alloc := WithRows(s.alloc, manager, proposal));
    var rows := PassRows(replaced, t, budget, Pass(false, true));
    var snaps := Report(replaced.rows, s.costs, Pass(false, true), Plan(replaced.alloc, t, budget, None, None), map[]);
    var after := TeamUpdate(s, org, t, budget, manager, parent, proposal, now).rows;
    IdsDistinct(org, t);
    PassSettles(replaced, t, budget, Pass(false, true));
    forall id ensures id in after <==> id in rows
      ensures id in rows ==> after[id] == rows[id].(review := after[id].review)
    {
      UpdatedRow(s, org, t, budget, manager, parent, proposal, now, rows, snaps, id);
    }
    TotalIgnores(after, rows, Ids(t), SelfShare);
  }

  lemma UpdatedPlace(org: Org, s: State, replaced: State, t: Tree, budget: int, manager: NodeId,
                     proposal: seq<(Node, int)>, n: Node)
    requires ValidOrg(org) && IsTree(org, t) && n in org.nodes && n.id in Ids(t)
    requires replaced.alloc == WithRows(s.alloc, manager, proposal) && replaced.costs == s.costs
    ensures var rows := PassRows(replaced, t, budget, Pass(false, true));
            && n.id in rows && (n == t.root ==> rows[n.id].mode.Free?)
            && (n != t.root && Link(manager, n.id) in org.links ==>
                  rows[n.id].parent == Some(manager) && rows[n.id].pct == Some(ProposedPct(proposal, n.id)))
            && (rows[n.id].mode.Metered? ==> rows[n.id].spend == CostOf(s.costs, n.id))
  {
    IdsDistinct(org, t);
    WithRowsReplaces(s.alloc, manager, proposal);
    BudgetRows.PassPlaces(org, replaced, t, budget, Pass(false, true), n);
    BudgetRows.PassSpend(replaced, t, budget, Pass(false, true), n.id);
  }

  /** The action takes effect: each report's row names the manager and the percentage
      proposed for it, the root allocator is free, and metered spend is recorded cost. */
  lemma TeamUpdateTakesEffect(s: State, org: Org, t: Tree, budget: int, manager: NodeId, parent: Option<NodeId>,
                              proposal: seq<(Node, int)>, now: int, n: Node)
    requires ValidOrg(org) && IsTree(org, t) && n in org.nodes && n.id in Ids(t)
    ensures var rows := TeamUpdate(s, org, t, budget, manager, parent, proposal, now).rows;
            && n.id in rows && (n == t.root ==> rows[n.id].mode.Free?)
            && (n != t.root && Link(manager, n.id) in org.links ==>
                  rows[n.id].parent == Some(manager) && rows[n.id].pct == Some(ProposedPct(proposal, n.id)))
            && (rows[n.id].mode.Metered? ==> rows[n.id].spend == CostOf(s.costs, n.id))
  {
    var replaced := s.(rows := WithReviewCleared(s.rows, manager, parent),
                       alloc := WithRows(s.alloc, manager, proposal));
    var plan := Plan(replaced.alloc, t, budget, None, None);
    UpdatedPlace(org, s, replaced, t, budget, manager, proposal, n);
    UpdatedRow(s, org, t, budget, manager, parent, proposal, now, PassRows(replaced, t, budget, Pass(false, true)),
               Report(replaced.rows, s.costs, Pass(false, true), plan, map[]), n.id);
  }

  // ---------------------------------------------------------------------
  // Sending the same allocations again
  // ---------------------------------------------------------------------

  lemma {:induction false} WithRowsTwice(alloc: Allocations, manager: NodeId, proposal: seq<(Node, int)>,
                                         again: seq<(Node, int)>)
    ensures WithRows(WithRows(alloc, manager, proposal), manager, again) == WithRows(alloc, manager, again)
  {
    if again == [] {
      WithRowsOthers(alloc, manager, proposal);
    } else {
      WithRowsTwice(alloc, manager, proposal, again[..|again| - 1]);
    }
  }

  lemma {:induction false} WithRowsOthers(alloc: Allocations, manager: NodeId, proposal: seq<(Node, int)>)
    ensures WithRows(WithRows(alloc, manager, proposal), manager, []) == WithRows(alloc, manager, [])
  {
    if proposal != [] { WithRowsOthers(alloc, manager, proposal[..|proposal| - 1]); }
  }

  /** A pass over rows it has just written finds nothing to change, whatever the
      review marks are, and puts back a parent that was overwritten. */
  lemma PassOverWritten(rows: Rows, costs: Costs, pass: Pass, plan: seq<Grant>, marked: Rows, i: nat)
    requires NoDup(GrantIds(plan)) && i < |plan| && !pass.reset
    requires var id := plan[i].node.id;
             var once := Apply(rows, costs, pass, plan);
             && id in once && id in marked
             && marked[id] == once[id].(review := marked[id].review, parent := marked[id].parent)
    ensures var id := plan[i].node.id;
            var once, twice := Apply(rows, costs, pass, plan), Apply(marked, costs, pass, plan);
            id in twice && twice[id] == once[id].(review := marked[id].review)
  {
    ApplyAt(rows, costs, pass, plan, i);
    ApplyAt(marked, costs, pass, plan, i);
  }

  /** One row of the second recalculation is the row the first action left. */
  lemma SecondPassRow(s: State, org: Org, t: Tree, budget: int, manager: NodeId, parent: Option<NodeId>,
                      proposal: seq<(Node, int)>, now: int, id: NodeId)
    requires ValidOrg(org) && IsTree(org, t)
    ensures var once := TeamUpdate(s, org, t, budget, manager, parent, proposal, now).rows;
            var again := Apply(WithReviewCleared(once, manager, parent), s.costs, Pass(false, true),
                               Plan(WithRows(s.alloc, manager, proposal), t, budget, None, None));
            (id in again <==> id in once) && (id in once ==> again[id] == once[id])
  {
    var cleared := WithReviewCleared(s.rows, manager, parent);
    var plan := Plan(WithRows(s.alloc, manager, proposal), t, budget, None, None);
    var rows := Apply(cleared, s.costs, Pass(false, true), plan);
    var snaps := Report(cleared, s.costs, Pass(false, true), plan, map[]);
    var once := TeamUpdate(s, org, t, budget, manager, parent, proposal, now).rows;
    var marked := WithReviewCleared(once, manager, parent);
    IdsDistinct(org, t);
    PlanIds(WithRows(s.alloc, manager, proposal), t, budget, None, None);
    UpdatedRow(s, org, t, budget, manager, parent, proposal, now, rows, snaps, id);
    ReviewsFlaggedIff(s, org, t, budget, manager, parent, proposal, now, id);
    if id in Ids(t) {
      var i :| 0 <= i < |plan| && GrantIds(plan)[i] == id;
      ApplyAt(cleared, s.costs, Pass(false, true), plan, i);
      PassOverWritten(cleared, s.costs, Pass(false, true), plan, marked, i);
    } else {
      ApplyKeepsOthers(cleared, s.costs, Pass(false, true), plan, id);
      ApplyKeepsOthers(marked, s.costs, Pass(false, true), plan, id);
      ManagerRow(s, org, t, budget, manager, parent, proposal, now);
    }
  }

  lemma ManagerRow(s: State, org: Org, t: Tree, budget: int, manager: NodeId, parent: Option<NodeId>,
                   proposal: seq<(Node, int)>, now: int)
    requires ValidOrg(org) && IsTree(org, t)
    ensures manager in TeamUpdate(s, org, t, budget, manager, parent, proposal, now).rows
  {
    var cleared := WithReviewCleared(s.rows, manager, parent);
    var plan := Plan(WithRows(s.alloc, manager, proposal), t, budget, None, None);
    var rows := Apply(cleared, s.costs, Pass(false, true), plan);
    var snaps := Report(cleared, s.costs, Pass(false, true), plan, map[]);
    ApplyKeys(cleared, s.costs, Pass(false, true), plan);
    UpdatedRow(s, org, t, budget, manager, parent, proposal, now, rows, snaps, manager);
  }

  lemma SecondPass(s: State, org: Org, t: Tree, budget: int, manager: NodeId, parent: Option<NodeId>,
                   proposal: seq<(Node, int)>, now: int)
    requires ValidOrg(org) && IsTree(org, t)
    ensures var once := TeamUpdate(s, org, t, budget, manager, parent, proposal, now).rows;
            Apply(WithReviewCleared(once, manager, parent), s.costs, Pass(false, true),
                  Plan(WithRows(s.alloc, manager, proposal), t, budget, None, None)) == once
  {
    var once := TeamUpdate(s, org, t, budget, manager, parent, proposal, now).rows;
    var again := Apply(WithReviewCleared(once, manager, parent), s.costs, Pass(false, true),
                       Plan(WithRows(s.alloc, manager, proposal), t, budget, None, None));
    forall id ensures (id in again <==> id in once) && (id in once ==> again[id] == once[id]) {
      SecondPassRow(s, org, t, budget, manager, parent, proposal, now, id);
    }
  }

  /** An action whose recalculation leaves the rows alone leaves the state alone. */
  lemma QuietWhenUnmoved(s: State, org: Org, t: Tree, budget: int, manager: NodeId, parent: Option<NodeId>,
                         proposal: seq<(Node, int)>, now: int)
    requires ValidOrg(org) && IsTree(org, t) && WithRows(s.alloc, manager, proposal) == s.alloc
    requires Apply(WithReviewCleared(s.rows, manager, parent), s.costs, Pass(false, true),
                   Plan(s.alloc, t, budget, None, None)) == s.rows
    ensures TeamUpdate(s, org, t, budget, manager, parent, proposal, now) == s
  {
    var snaps := Report(WithReviewCleared(s.rows, manager, parent), s.costs, Pass(false, true),
                        Plan(s.alloc, t, budget, None, None), map[]);
    var after := TeamUpdate(s, org, t, budget, manager, parent, proposal, now).rows;
    forall id ensures (id in after <==> id in s.rows) && (id in s.rows ==> after[id] == s.rows[id]) {
      UpdatedRow(s, org, t, budget, manager, parent, proposal, now, s.rows, snaps, id);
    }
    assert after == s.rows;
  }

  /** Sending the same allocations again changes nothing and flags nobody. */
  lemma ResendIsQuiet(s: State, org: Org, t: Tree, budget: int, manager: NodeId, parent: Option<NodeId>,
                      proposal: seq<(Node, int)>, now: int, later: int)
    requires ValidOrg(org) && IsTree(org, t)
    ensures var once := TeamUpdate(s, org, t, budget, manager, parent, proposal, now);
            TeamUpdate(once, org, t, budget, manager, parent, proposal, later) == once
  {
    WithRowsTwice(s.alloc, manager, proposal, proposal);
    SecondPass(s, org, t, budget, manager, parent, proposal, now);
    QuietWhenUnmoved(TeamUpdate(s, org, t, budget, manager, parent, proposal, now), org, t, budget, manager, parent,
                     proposal, later);
  }
}
