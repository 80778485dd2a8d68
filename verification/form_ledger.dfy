/** The form ledger under optimistic locking: any number of workers read a form,
    decide, load the row, count the events and commit, in any interleaving. */
module FormLedger {
  import opened Prelude

  type Status = string
  type Holder = Option<string>

  datatype Event = Event(
    sequence: nat, from: Option<Status>, to: Status, decision: Option<string>, actor: Holder,
    prevHolder: Holder, newHolder: Holder)

  /** The ledger row; `version` is the optimistic-lock column. */
  datatype Entry = Entry(status: Status, holder: Holder, version: nat, history: seq<Status>)

  datatype Ledger = Ledger(entry: Entry, events: seq<Event>)

  /** Who holds the form after an edge: nobody, whoever held it when it was read,
      a fixed node, a node the caller supplies (or none), or the acting node. */
  datatype Rule = Clear | Keep | Fixed(node: string) | Chosen | ToActor

  datatype Edge = Edge(from: Status, decision: string, to: Status, rule: Rule)

  /** The edges of the workflow the form is bound to. */
  type Workflow = set<Edge>

  datatype Change = Change(expected: Status, to: Status, decision: string, actor: string, newHolder: Holder)

  function NextHolder(rule: Rule, seen: Holder, actor: string, choice: Holder): Holder {
    match rule
    case Clear => None
    case Keep => seen
    case Fixed(node) => Some(node)
    case Chosen => choice
    case ToActor => Some(actor)
  }

  /** The change a request along an edge commits, worked out from the row it read. */
  function ChangeAlong(e: Edge, seen: Entry, actor: string, choice: Holder): Change {
    Change(e.from, e.to, e.decision, actor, NextHolder(e.rule, seen.holder, actor, choice))
  }

  function Created(status: Status, holder: Holder, actor: Holder, decision: Option<string>): Ledger {
    Ledger(Entry(status, holder, 1, [status]),
           [Event(1, None, status, decision, actor, None, holder)])
  }

  function Updated(e: Entry, c: Change): Entry {
    Entry(c.to, c.newHolder, e.version + 1, e.history + [c.to])
  }

  function EventFor(e: Entry, c: Change, sequence: nat): Event {
    Event(sequence, Some(e.status), c.to, Some(c.decision), Some(c.actor), e.holder, c.newHolder)
  }

  function MaxSequence(events: seq<Event>): nat {
    if events == [] then 0
    else
      var last := events[|events| - 1].sequence;
      Max(MaxSequence(events[..|events| - 1]), last)
  }

  // ---------------------------------------------------------------------
  // One transition on its own
  // ---------------------------------------------------------------------

  datatype TransitionError = Conflict(expected: Status, found: Status)

  class FormStore {
    var entry: Entry
    var events: seq<Event>

    ghost function Contents(): Ledger
      reads this
    {
      Ledger(entry, events)
    }

    constructor (status: Status, holder: Holder, actor: Holder, decision: Option<string>)
      ensures Contents() == Created(status, holder, actor, decision)
    {
      entry := Entry(status, holder, 1, [status]);
      events := [Event(1, None, status, decision, actor, None, holder)];
    }

    /** Rechecks the status, rewrites the row and appends one event. */
    method TransitionFormInstance(c: Change) returns (r: Result<Entry, TransitionError>)
      modifies this
      ensures r.Ok? <==> old(entry.status) == c.expected
      ensures r.Ok? ==> r.value == entry == Updated(old(entry), c)
      ensures r.Ok? ==> events == old(events) + [EventFor(old(entry), c, MaxSequence(old(events)) + 1)]
      ensures r.Err? ==> unchanged(this) && r.error == Conflict(c.expected, entry.status)
    {
      if entry.status != c.expected {
        return Err(Conflict(c.expected, entry.status));
      }
      var previousHolder := entry.holder;
      var previousStatus := entry.status;
      var history := entry.history + [c.to];
      entry := entry.(status := c.to, holder := c.newHolder);
      entry := entry.(history := history);
      var sequence := MaxSequence(events) + 1;
      events := events + [Event(sequence, Some(previousStatus), c.to, Some(c.decision), Some(c.actor),
                                previousHolder, c.newHolder)];
      entry := entry.(version := entry.version + 1);
      r := Ok(entry);
    }
  }

  // ---------------------------------------------------------------------
  // Many workers
  // ---------------------------------------------------------------------

  datatype Worker =
    | Idle
    | HasRead(seen: Entry, actor: string)
    | Decided(seen: Entry, edge: Edge, change: Change)
    | Loaded(seen: Entry, edge: Edge, change: Change, row: Entry)
    | Counted(seen: Entry, edge: Edge, change: Change, row: Entry, sequence: nat)

  /** The ledger, the workers, and the edges committed so far. */
  datatype System = System(ledger: Ledger, workers: map<nat, Worker>, path: seq<Edge>)

  datatype Action =
    | Read(w: nat, actor: string)
    | Decide(w: nat, edge: Edge, choice: Holder)
    | Load(w: nat)
    | Count(w: nat)
    | Commit(w: nat)
    | GiveUp(w: nat)

  function WorkerOf(s: System, w: nat): Worker {
    if w in s.workers then s.workers[w] else Idle
  }

  function With(s: System, w: nat, worker: Worker): System {
    s.(workers := s.workers[w := worker])
  }

  function MayAct(e: Entry, actor: string): bool {
    e.holder.None? || e.holder.value == actor
  }

  /** One atomic step. A guard that fails sends the worker back to idle. */
  function Step(g: Workflow, s: System, a: Action): System {
    var me := WorkerOf(s, a.w);
    match a
    case Read(w, actor) =>
      With(s, w, if MayAct(s.ledger.entry, actor) then HasRead(s.ledger.entry, actor) else Idle)
    case Decide(w, edge, choice) =>
      With(s, w, if me.HasRead? && edge in g && edge.from == me.seen.status
                 then Decided(me.seen, edge, ChangeAlong(edge, me.seen, me.actor, choice)) else Idle)
    case Load(w) =>
      With(s, w, if me.Decided? && s.ledger.entry.status == me.change.expected
                 then Loaded(me.seen, me.edge, me.change, s.ledger.entry) else Idle)
    case Count(w) =>
      With(s, w, if me.Loaded?
                 then Counted(me.seen, me.edge, me.change, me.row, MaxSequence(s.ledger.events) + 1) else Idle)
    case Commit(w) => if CanCommit(s, me) then Committed(s, w, me) else With(s, w, Idle)
    case GiveUp(w) => With(s, w, Idle)
  }

  /** The version check, and the unique (form, sequence) key. */
  predicate CanCommit(s: System, me: Worker) {
    && me.Counted?
    && s.ledger.entry.version == me.row.version
    && (forall i :: 0 <= i < |s.ledger.events| ==> s.ledger.events[i].sequence != me.sequence)
  }

  function Committed(s: System, w: nat, me: Worker): System
    requires me.Counted?
  {
    System(Ledger(Updated(me.row, me.change), s.ledger.events + [EventFor(me.row, me.change, me.sequence)]),
           s.workers[w := Idle], s.path + [me.edge])
  }

  function Run(g: Workflow, s: System, actions: seq<Action>): System
    decreases |actions|
  {
    if actions == [] then s else Run(g, Step(g, s, actions[0]), actions[1..])
  }

  function Start(status: Status, holder: Holder, actor: Holder, decision: Option<string>): System {
    System(Created(status, holder, actor, decision), map[], [])
  }

  // ---------------------------------------------------------------------
  // The committed log is one chain
  // ---------------------------------------------------------------------

  /** What the log alone says the row must be. */
  ghost function Replay(events: seq<Event>): Entry
    requires events != []
  {
    var last := events[|events| - 1];
    Entry(last.to, last.newHolder, |events|, Statuses(events))
  }

  ghost function Statuses(events: seq<Event>): seq<Status> {
    seq(|events|, i requires 0 <= i < |events| => events[i].to)
  }

  /** The holder an edge may leave, as far as the edge alone says. */
  predicate Allows(rule: Rule, holder: Holder) {
    (rule.Clear? ==> holder.None?) && (rule.Fixed? ==> holder == Some(rule.node)) && (rule.ToActor? ==> holder.Some?)
  }

  /** An event moves the form along this edge. */
  predicate Along(e: Edge, from: Status, event: Event) {
    && event.from == Some(from) == Some(e.from) && event.to == e.to && event.decision == Some(e.decision)
    && Allows(e.rule, event.newHolder)
  }

  ghost predicate Moves(g: Workflow, from: Status, event: Event) {
    exists e :: e in g && Along(e, from, event)
  }

  /** Sequences 1..n without gaps; each event starts where the last one ended,
      in status and in holder, along an edge of the workflow. */
  ghost predicate LinearChain(g: Workflow, events: seq<Event>) {
    && events != []
    && events[0].from.None? && events[0].prevHolder.None?
    && (forall i :: 0 <= i < |events| ==> events[i].sequence == i + 1)
    && (forall i :: 1 <= i < |events| ==>
          events[i].prevHolder == events[i - 1].newHolder && Moves(g, events[i - 1].to, events[i]))
  }

  /** The edges of the path are the edges of the log. */
  ghost predicate PathFits(g: Workflow, events: seq<Event>, path: seq<Edge>) {
    |path| + 1 == |events| &&
    forall i :: 0 <= i < |path| ==> path[i] in g && Along(path[i], events[i].to, events[i + 1])
  }

  /** A row read at some point of the run: the replay of a prefix of the log. */
  ghost predicate Snapshot(e: Entry, events: seq<Event>) {
    1 <= e.version <= |events| && e == Replay(events[..e.version])
  }

  ghost predicate ChangeSane(g: Workflow, seen: Entry, e: Edge, c: Change) {
    && e in g && e.from == seen.status && MayAct(seen, c.actor)
    && exists choice :: c == ChangeAlong(e, seen, c.actor, choice)
  }

  ghost predicate RowSane(l: Ledger, seen: Entry, c: Change, row: Entry) {
    Snapshot(row, l.events) && row.status == c.expected && seen.version <= row.version
  }

  ghost predicate WorkerSane(g: Workflow, l: Ledger, w: Worker) {
    match w
    case Idle => true
    case HasRead(seen, actor) => Snapshot(seen, l.events) && MayAct(seen, actor)
    case Decided(seen, e, c) => Snapshot(seen, l.events) && ChangeSane(g, seen, e, c)
    case Loaded(seen, e, c, row) => Snapshot(seen, l.events) && ChangeSane(g, seen, e, c) && RowSane(l, seen, c, row)
    case Counted(seen, e, c, row, sequence) =>
      && Snapshot(seen, l.events) && ChangeSane(g, seen, e, c) && RowSane(l, seen, c, row)
      && (row.version == l.entry.version ==> sequence == |l.events| + 1)
  }

  ghost predicate Inv(g: Workflow, s: System) {
    && LinearChain(g, s.ledger.events)
    && PathFits(g, s.ledger.events, s.path)
    && s.ledger.entry == Replay(s.ledger.events)
    && forall w :: w in s.workers ==> WorkerSane(g, s.ledger, s.workers[w])
  }

  lemma {:induction false} MaxSequenceOfChain(events: seq<Event>)
    requires forall i :: 0 <= i < |events| ==> events[i].sequence == i + 1
    ensures MaxSequence(events) == |events|
  {
    if events != [] { MaxSequenceOfChain(events[..|events| - 1]); }
  }

  lemma SnapshotGrows(e: Entry, events: seq<Event>, more: Event)
    requires Snapshot(e, events)
    ensures Snapshot(e, events + [more])
  {
    assert (events + [more])[..e.version] == events[..e.version];
  }

  lemma NowIsSnapshot(events: seq<Event>)
    requires events != []
    ensures Snapshot(Replay(events), events)
  {
    assert events[..|events|] == events;
  }

  /** A worker keeps what it knew when another one commits. */
  lemma WorkerSurvives(g: Workflow, before: Ledger, after: Ledger, event: Event, w: Worker)
    requires WorkerSane(g, before, w) && after.events == before.events + [event]
    requires before.entry.version == |before.events| && after.entry.version == |after.events|
    ensures WorkerSane(g, after, w)
  {
    if !w.Idle? { SnapshotGrows(w.seen, before.events, event); }
    if w.Loaded? || w.Counted? { SnapshotGrows(w.row, before.events, event); }
  }

  /** The row at the version check is the row that was loaded. */
  lemma CommitIsCurrent(g: Workflow, s: System, w: nat)
    requires Inv(g, s) && WorkerOf(s, w).Counted? && s.ledger.entry.version == WorkerOf(s, w).row.version
    ensures WorkerOf(s, w).row == s.ledger.entry && WorkerOf(s, w).sequence == |s.ledger.events| + 1
  {
    assert s.ledger.events[..|s.ledger.events|] == s.ledger.events;
  }

  lemma ChainGrows(g: Workflow, events: seq<Event>, e: Edge, event: Event)
    requires LinearChain(g, events) && e in g && Along(e, events[|events| - 1].to, event)
    requires event.sequence == |events| + 1 && event.prevHolder == events[|events| - 1].newHolder
    ensures LinearChain(g, events + [event])
  {
    var longer := events + [event];
    assert Moves(g, events[|events| - 1].to, event);
    assert forall i :: 0 <= i < |events| ==> longer[i] == events[i];
    assert longer[|events|] == event;
  }

  lemma PathGrows(g: Workflow, events: seq<Event>, path: seq<Edge>, e: Edge, event: Event)
    requires PathFits(g, events, path) && e in g && events != [] && Along(e, events[|events| - 1].to, event)
    ensures PathFits(g, events + [event], path + [e])
  {
    var longer, further := events + [event], path + [e];
    assert forall i :: 0 <= i < |events| ==> longer[i] == events[i];
    assert forall i :: 0 <= i < |path| ==> further[i] == path[i];
    assert longer[|events|] == event && further[|path|] == e;
  }

  lemma ReplayGrows(events: seq<Event>, event: Event)
    requires events != []
    ensures Replay(events + [event])
         == Entry(event.to, event.newHolder, |events| + 1, Replay(events).history + [event.to])
  {
    assert Statuses(events + [event]) == Statuses(events) + [event.to];
  }

  /** The event a commit appends moves the form along the decided edge. */
  lemma CommitAlong(g: Workflow, s: System, w: nat)
    requires Inv(g, s) && WorkerOf(s, w).Counted? && s.ledger.entry.version == WorkerOf(s, w).row.version
    ensures var me := WorkerOf(s, w);
            var last := s.ledger.events[|s.ledger.events| - 1];
            var event := EventFor(me.row, me.change, me.sequence);
            && me.edge in g && Along(me.edge, last.to, event)
            && event.sequence == |s.ledger.events| + 1 && event.prevHolder == last.newHolder
  {
    CommitIsCurrent(g, s, w);
  }

  /** A commit under the version check adds one event to the chain. */
  lemma CommitKeepsInv(g: Workflow, s: System, w: nat)
    requires Inv(g, s) && CanCommit(s, WorkerOf(s, w))
    ensures Inv(g, Step(g, s, Commit(w))) && |Step(g, s, Commit(w)).ledger.events| == |s.ledger.events| + 1
  {
    var me, events := WorkerOf(s, w), s.ledger.events;
    var event := EventFor(me.row, me.change, me.sequence);
    CommitIsCurrent(g, s, w);
    CommitAlong(g, s, w);
    ChainGrows(g, events, me.edge, event);
    PathGrows(g, events, s.path, me.edge, event);
    ReplayGrows(events, event);
    CommitKeepsWorkers(g, s, w);
  }

  lemma CommitKeepsWorkers(g: Workflow, s: System, w: nat)
    requires Inv(g, s) && CanCommit(s, WorkerOf(s, w)) && WorkerOf(s, w).row == s.ledger.entry
    ensures var next := Committed(s, w, WorkerOf(s, w));
            forall v :: v in next.workers ==> WorkerSane(g, next.ledger, next.workers[v])
  {
    var me := WorkerOf(s, w);
    var next := Committed(s, w, me);
    forall v | v in next.workers ensures WorkerSane(g, next.ledger, next.workers[v]) {
      if v != w {
        WorkerSurvives(g, s.ledger, next.ledger, EventFor(me.row, me.change, me.sequence), s.workers[v]);
      }
    }
  }

  lemma StepKeepsInv(g: Workflow, s: System, a: Action)
    requires Inv(g, s)
    ensures Inv(g, Step(g, s, a))
  {
    var me := WorkerOf(s, a.w);
    NowIsSnapshot(s.ledger.events);
    MaxSequenceOfChain(s.ledger.events);
    if a.Commit? && CanCommit(s, me) {
      CommitKeepsInv(g, s, a.w);
    } else {
      StepKeepsWorker(g, s, a);
    }
  }

  lemma StepKeepsWorker(g: Workflow, s: System, a: Action)
    requires Inv(g, s) && !(a.Commit? && CanCommit(s, WorkerOf(s, a.w)))
    ensures var next := Step(g, s, a);
            && next.ledger == s.ledger && next.path == s.path
            && WorkerSane(g, s.ledger, WorkerOf(next, a.w))
            && forall v :: v != a.w ==> WorkerOf(next, v) == WorkerOf(s, v)
  {
    NowIsSnapshot(s.ledger.events);
    MaxSequenceOfChain(s.ledger.events);
    var me := WorkerOf(s, a.w);
    if a.Decide? && me.HasRead? && a.edge in g && a.edge.from == me.seen.status {
      assert ChangeSane(g, me.seen, a.edge, ChangeAlong(a.edge, me.seen, me.actor, a.choice));
    }
  }

  lemma {:induction false} RunKeepsInv(g: Workflow, s: System, actions: seq<Action>)
    requires Inv(g, s)
    ensures Inv(g, Run(g, s, actions))
    decreases |actions|
  {
    if actions != [] {
      StepKeepsInv(g, s, actions[0]);
      RunKeepsInv(g, Step(g, s, actions[0]), actions[1..]);
    }
  }

  lemma StartInv(g: Workflow, status: Status, holder: Holder, actor: Holder, decision: Option<string>)
    ensures Inv(g, Start(status, holder, actor, decision))
  {
    assert Statuses(Created(status, holder, actor, decision).events) == [status];
  }

  lemma {:induction false} LogOnlyGrows(g: Workflow, s: System, actions: seq<Action>)
    ensures s.ledger.events <= Run(g, s, actions).ledger.events
    decreases |actions|
  {
    if actions != [] { LogOnlyGrows(g, Step(g, s, actions[0]), actions[1..]); }
  }

  /** In every interleaving, the committed events form one linear chain over the
      workflow, from the creation by its actor on, and replaying them gives the ledger
      row; no event is ever rewritten. */
  lemma EveryInterleavingIsLinear(g: Workflow, status: Status, holder: Holder, actor: Holder,
                                  decision: Option<string>, actions: seq<Action>, more: seq<Action>)
    ensures var last := Run(g, Start(status, holder, actor, decision), actions);
            && LinearChain(g, last.ledger.events)
            && last.ledger.entry == Replay(last.ledger.events)
            && last.ledger.events[0] == Event(1, None, status, decision, actor, None, holder)
            && last.ledger.events <= Run(g, last, more).ledger.events
  {
    StartInv(g, status, holder, actor, decision);
    RunKeepsInv(g, Start(status, holder, actor, decision), actions);
    LogOnlyGrows(g, Start(status, holder, actor, decision), actions);
    LogOnlyGrows(g, Run(g, Start(status, holder, actor, decision), actions), more);
  }

  lemma RunTwo(g: Workflow, s: System, a: Action, b: Action)
    ensures Run(g, s, [a, b]) == Step(g, Step(g, s, a), b)
  {
    assert [a, b][1..] == [b] && [b][1..] == [];
    assert Run(g, Step(g, s, a), [b]) == Run(g, Step(g, Step(g, s, a), b), []);
  }

  lemma RunThree(g: Workflow, s: System, a: Action, b: Action, c: Action)
    ensures Run(g, s, [a, b, c]) == Step(g, Step(g, Step(g, s, a), b), c)
  {
    assert [a, b, c][1..] == [b, c];
    RunTwo(g, Step(g, s, a), b, c);
  }

  lemma {:induction false} RunAppend(g: Workflow, s: System, a: seq<Action>, b: seq<Action>)
    ensures Run(g, s, a + b) == Run(g, Run(g, s, a), b)
    decreases |a|
  {
    if a == [] {
      assert a + b == b;
    } else {
      RunAppend(g, Step(g, s, a[0]), a[1..], b);
      assert (a + b)[0] == a[0] && (a + b)[1..] == a[1..] + b;
      assert Run(g, s, a + b) == Run(g, Step(g, s, a[0]), a[1..] + b);
    }
  }

  lemma {:induction false} OthersUntouched(g: Workflow, s: System, w: nat, actions: seq<Action>)
    requires forall a :: a in actions ==> a.w == w
    ensures forall v :: v != w ==> WorkerOf(Run(g, s, actions), v) == WorkerOf(s, v)
    decreases |actions|
  {
    if actions != [] {
      var next := Step(g, s, actions[0]);
      assert forall v :: v != w ==> WorkerOf(next, v) == WorkerOf(s, v) by { assert actions[0].w == w; }
      OthersUntouched(g, next, w, actions[1..]);
    }
  }

  function CommitSteps(w: nat): seq<Action> {
    [Load(w), Count(w), Commit(w)]
  }

  /** A lone worker's load, count and commit amount to the repository's single
      transaction. */
  lemma UninterruptedCommit(g: Workflow, s: System, w: nat)
    requires Inv(g, s) && WorkerOf(s, w).Decided? && s.ledger.entry.status == WorkerOf(s, w).change.expected
    ensures var c := WorkerOf(s, w).change;
            Run(g, s, CommitSteps(w)).ledger
            == Ledger(Updated(s.ledger.entry, c),
                      s.ledger.events + [EventFor(s.ledger.entry, c, MaxSequence(s.ledger.events) + 1)])
    ensures Inv(g, Run(g, s, CommitSteps(w)))
    ensures forall v :: v != w ==> WorkerOf(Run(g, s, CommitSteps(w)), v) == WorkerOf(s, v)
  {
    RunThree(g, s, Load(w), Count(w), Commit(w));
    CommitStepsEffect(g, s, w);
    RunKeepsInv(g, s, CommitSteps(w));
    OthersUntouched(g, s, w, CommitSteps(w));
  }

  lemma CommitStepsEffect(g: Workflow, s: System, w: nat)
    requires Inv(g, s) && WorkerOf(s, w).Decided? && s.ledger.entry.status == WorkerOf(s, w).change.expected
    ensures var c := WorkerOf(s, w).change;
            Step(g, Step(g, Step(g, s, Load(w)), Count(w)), Commit(w)).ledger
            == Ledger(Updated(s.ledger.entry, c),
                      s.ledger.events + [EventFor(s.ledger.entry, c, MaxSequence(s.ledger.events) + 1)])
  {
    MaxSequenceOfChain(s.ledger.events);
    var me := WorkerOf(s, w);
    var loaded := Step(g, s, Load(w));
    assert WorkerOf(loaded, w) == Loaded(me.seen, me.edge, me.change, s.ledger.entry);
    var counted := Step(g, loaded, Count(w));
    assert WorkerOf(counted, w)
        == Counted(me.seen, me.edge, me.change, s.ledger.entry, MaxSequence(s.ledger.events) + 1);
    assert CanCommit(counted, WorkerOf(counted, w));
  }

  // ---------------------------------------------------------------------
  // Who acted: the commit rechecks the status, not the holder
  // ---------------------------------------------------------------------

  /** Whoever moved the form held it at that moment (or nobody did). */
  ghost predicate ActorHeld(e: Event) {
    e.from.Some? && e.prevHolder.Some? ==> e.actor == e.prevHolder
  }

  ghost predicate AllActorsHeld(events: seq<Event>) {
    forall i :: 0 <= i < |events| ==> ActorHeld(events[i])
  }

  /** Edges of the workflow, each starting where the last one ended. */
  ghost predicate Walk(g: Workflow, w: seq<Edge>) {
    && w != [] && (forall i :: 0 <= i < |w| ==> w[i] in g)
    && forall i :: 1 <= i < |w| ==> w[i].from == w[i - 1].to
  }

  ghost predicate Round(g: Workflow, w: seq<Edge>) {
    Walk(g, w) && w[|w| - 1].to == w[0].from
  }

  ghost predicate AllClear(w: seq<Edge>) {
    forall i :: 0 <= i < |w| ==> w[i].rule.Clear?
  }

  ghost predicate AllKeep(w: seq<Edge>) {
    forall i :: 0 <= i < |w| ==> w[i].rule.Keep?
  }

  /** The edges keep the holder, or give the form to the actor, who is the holder
      if there is one. */
  ghost predicate AllHold(w: seq<Edge>) {
    forall i :: 0 <= i < |w| ==> Holds(w[i].rule)
  }

  predicate Holds(rule: Rule) {
    rule.Keep? || rule.ToActor?
  }

  /** The form can be at this status without a holder: it was created so, if `free`
      allows that, or an edge left it so and others kept it so. */
  ghost predicate Unheld(g: Workflow, free: bool, status: Status) {
    free || exists w: seq<Edge> :: Frees(g, w) && w[|w| - 1].to == status
  }

  ghost predicate Frees(g: Workflow, w: seq<Edge>) {
    Walk(g, w) && (w[0].rule.Clear? || w[0].rule.Chosen?) && forall i :: 1 <= i < |w| ==> w[i].rule.Keep?
  }

  ghost predicate NeverUnheld(g: Workflow, free: bool, w: seq<Edge>) {
    forall i :: 0 <= i < |w| ==> !Unheld(g, free, w[i].from)
  }

  /** Going round, the form never has a holder, or never changes the one it has. */
  ghost predicate RoundsKeepHolder(g: Workflow, free: bool) {
    forall w :: Round(g, w) ==> AllClear(w) || AllKeep(w) || (AllHold(w) && NeverUnheld(g, free, w))
  }

  lemma JoinRounds(g: Workflow, a: seq<Edge>, b: seq<Edge>)
    requires Round(g, a) && Round(g, b) && a[0].from == b[0].from
    ensures Round(g, a + b) && (a + b)[0] == a[0]
  {
    var w := a + b;
    assert forall i :: 0 <= i < |a| ==> w[i] == a[i];
    assert forall i :: |a| <= i < |w| ==> w[i] == b[i - |a|];
  }

  /** A round may start at any of its edges. */
  lemma Rotate(g: Workflow, w: seq<Edge>, k: nat)
    requires Round(g, w) && k < |w|
    ensures Round(g, w[k..] + w[..k]) && (w[k..] + w[..k])[0] == w[k]
  {
    var r := w[k..] + w[..k];
    assert forall i :: 0 <= i < |w| - k ==> r[i] == w[k + i];
    assert forall i :: |w| - k <= i < |w| ==> r[i] == w[i - (|w| - k)];
  }

  // Sound direction: whoever read the form still holds it when the form has gone
  // round, because the edges between read and commit form a round.

  ghost predicate OnHoldRound(g: Workflow, e: Edge) {
    Holds(e.rule) && exists w :: Round(g, w) && w[0] == e
  }

  /** Edges that hold the holder and can come round again did keep it. */
  ghost predicate KeptHolders(g: Workflow, events: seq<Event>, path: seq<Edge>)
    requires |path| + 1 == |events|
  {
    forall i :: 0 <= i < |path| && OnHoldRound(g, path[i]) ==> events[i + 1].newHolder == events[i + 1].prevHolder
  }

  /** The form had no holder only where it can be without one. */
  ghost predicate UnheldOnly(g: Workflow, free: bool, events: seq<Event>) {
    forall i :: 0 <= i < |events| && events[i].newHolder.None? ==> Unheld(g, free, events[i].to)
  }

  /** An edge that leaves no holder leaves the form where it can be without one. */
  lemma UnheldGoesOn(g: Workflow, free: bool, e: Edge)
    requires e in g && (e.rule.Keep? ==> Unheld(g, free, e.from)) && (e.rule.Clear? || e.rule.Chosen? || e.rule.Keep?)
    ensures Unheld(g, free, e.to)
  {
    if !free {
      if e.rule.Keep? {
        var w: seq<Edge> :| Frees(g, w) && w[|w| - 1].to == e.from;
        var longer := w + [e];
        assert longer[0] == w[0] && forall i :: 0 <= i < |w| ==> longer[i] == w[i];
        assert Frees(g, longer);
      } else {
        assert Frees(g, [e]);
      }
    }
  }

  lemma BetweenIsRound(g: Workflow, events: seq<Event>, path: seq<Edge>, i: nat, j: nat)
    requires PathFits(g, events, path) && i < j < |events| && events[i].to == events[j].to
    ensures Round(g, path[i..j]) && path[i].from == events[i].to
  {
    var w := path[i..j];
    forall k | 0 <= k < |w| ensures w[k] in g && w[k].from == events[i + k].to && w[k].to == events[i + k + 1].to {
      assert Along(path[i + k], events[i + k].to, events[i + k + 1]);
    }
  }

  /** A round of holding edges leaves the holder it found. */
  lemma {:induction false} KeptAcross(g: Workflow, events: seq<Event>, path: seq<Edge>, i: nat, j: nat)
    requires LinearChain(g, events) && PathFits(g, events, path) && KeptHolders(g, events, path)
    requires i <= j < |events| && forall k :: i <= k < j ==> OnHoldRound(g, path[k])
    ensures events[j].newHolder == events[i].newHolder
    decreases j - i
  {
    if i < j {
      KeptAcross(g, events, path, i, j - 1);
      assert OnHoldRound(g, path[j - 1]);
    }
  }

  lemma RoundHolds(g: Workflow, w: seq<Edge>, k: nat)
    requires Round(g, w) && AllHold(w) && k < |w|
    ensures OnHoldRound(g, w[k])
  {
    Rotate(g, w, k);
  }

  /** A form that returned to a status has the holder it had there, or none. */
  lemma ReturnHolder(g: Workflow, free: bool, events: seq<Event>, path: seq<Edge>, i: nat, j: nat)
    requires LinearChain(g, events) && PathFits(g, events, path) && KeptHolders(g, events, path)
    requires RoundsKeepHolder(g, free) && i < j < |events| && events[i].to == events[j].to
    ensures events[j].newHolder == None || events[j].newHolder == events[i].newHolder
  {
    var w := path[i..j];
    BetweenIsRound(g, events, path, i, j);
    if AllClear(w) {
      assert w[j - 1 - i].rule.Clear? && Along(path[j - 1], events[j - 1].to, events[j]);
    } else {
      assert AllHold(w);
      forall k | i <= k < j ensures OnHoldRound(g, path[k]) {
        RoundHolds(g, w, k - i);
        assert w[k - i] == path[k];
      }
      KeptAcross(g, events, path, i, j);
    }
  }

  /** And exactly the holder it had, when it is about to leave by a holding edge
      that comes round. */
  lemma ReturnToHold(g: Workflow, free: bool, events: seq<Event>, path: seq<Edge>, i: nat, j: nat, e: Edge)
    requires LinearChain(g, events) && PathFits(g, events, path) && KeptHolders(g, events, path)
    requires RoundsKeepHolder(g, free) && i < j < |events|
    requires events[i].to == events[j].to == e.from && OnHoldRound(g, e)
    ensures events[j].newHolder == events[i].newHolder
  {
    var w := path[i..j];
    BetweenIsRound(g, events, path, i, j);
    var c :| Round(g, c) && c[0] == e;
    JoinRounds(g, w, c);
    assert (w + c)[|w|] == e;
    assert AllHold(w + c);
    forall k | i <= k < j ensures OnHoldRound(g, path[k]) {
      RoundHolds(g, w + c, k - i);
      assert (w + c)[k - i] == path[k];
    }
    KeptAcross(g, events, path, i, j);
  }

  lemma SnapshotStatus(e: Entry, events: seq<Event>)
    requires Snapshot(e, events)
    ensures e.status == events[e.version - 1].to && e.holder == events[e.version - 1].newHolder
  {
    assert events[..e.version][e.version - 1] == events[e.version - 1];
  }

  ghost predicate Honest(g: Workflow, free: bool, s: System) {
    && Inv(g, s) && AllActorsHeld(s.ledger.events) && KeptHolders(g, s.ledger.events, s.path)
    && UnheldOnly(g, free, s.ledger.events)
  }

  /** At a commit, the holder is still the one that was read, or nobody. */
  lemma CommitHolder(g: Workflow, free: bool, s: System, w: nat)
    requires Honest(g, free, s) && RoundsKeepHolder(g, free) && CanCommit(s, WorkerOf(s, w))
    ensures var me := WorkerOf(s, w);
            && (s.ledger.entry.holder == None || s.ledger.entry.holder == me.seen.holder)
            && (OnHoldRound(g, me.edge) ==> s.ledger.entry.holder == me.seen.holder)
            && me.row == s.ledger.entry && MayAct(me.seen, me.change.actor)
  {
    var me, events := WorkerOf(s, w), s.ledger.events;
    CommitIsCurrent(g, s, w);
    SnapshotStatus(me.seen, events);
    SnapshotStatus(me.row, events);
    var i, j := me.seen.version - 1, me.row.version - 1;
    if i < j {
      ReturnHolder(g, free, events, s.path, i, j);
      if OnHoldRound(g, me.edge) { ReturnToHold(g, free, events, s.path, i, j, me.edge); }
    }
  }

  /** A form read or loaded without a holder was where it can be without one. */
  lemma SeenUnheld(g: Workflow, free: bool, events: seq<Event>, seen: Entry)
    requires UnheldOnly(g, free, events) && Snapshot(seen, events) && seen.holder.None?
    ensures Unheld(g, free, seen.status)
  {
    SnapshotStatus(seen, events);
  }

  lemma CommitUnheld(g: Workflow, free: bool, s: System, w: nat)
    requires Honest(g, free, s) && CanCommit(s, WorkerOf(s, w))
    ensures var me := WorkerOf(s, w);
            && (me.row.holder.None? ==> Unheld(g, free, me.edge.from))
            && (me.seen.holder.None? ==> Unheld(g, free, me.edge.from))
  {
    var me, events := WorkerOf(s, w), s.ledger.events;
    if me.row.holder.None? { SeenUnheld(g, free, events, me.row); }
    if me.seen.holder.None? { SeenUnheld(g, free, events, me.seen); }
  }

  /** What the decided edge leaves, in terms of what it found. */
  lemma CommitLeaves(g: Workflow, free: bool, s: System, w: nat)
    requires Honest(g, free, s) && RoundsKeepHolder(g, free) && CanCommit(s, WorkerOf(s, w))
    ensures var me := WorkerOf(s, w);
            && (OnHoldRound(g, me.edge) ==> me.change.newHolder == s.ledger.entry.holder)
            && (me.change.newHolder.None? ==> Unheld(g, free, me.change.to))
  {
    var me := WorkerOf(s, w);
    CommitHolder(g, free, s, w);
    CommitUnheld(g, free, s, w);
    var choice :| me.change == ChangeAlong(me.edge, me.seen, me.change.actor, choice);
    if me.change.newHolder.None? {
      UnheldGoesOn(g, free, me.edge);
    }
    if OnHoldRound(g, me.edge) && me.edge.rule.ToActor? {
      var round: seq<Edge> :| Round(g, round) && round[0] == me.edge;
      assert !Unheld(g, free, round[0].from);
    }
  }

  lemma StepStaysHonest(g: Workflow, free: bool, s: System, a: Action)
    requires Honest(g, free, s) && RoundsKeepHolder(g, free)
    ensures Honest(g, free, Step(g, s, a))
  {
    StepKeepsInv(g, s, a);
    var me := WorkerOf(s, a.w);
    if a.Commit? && CanCommit(s, me) {
      CommitHolder(g, free, s, a.w);
      CommitLeaves(g, free, s, a.w);
      CommitStaysHonest(g, free, s, a.w, EventFor(me.row, me.change, me.sequence));
    } else {
      StepKeepsWorker(g, s, a);
    }
  }

  lemma CommitStaysHonest(g: Workflow, free: bool, s: System, w: nat, event: Event)
    requires Honest(g, free, s) && WorkerOf(s, w).Counted? && event.from.Some?
    requires event.prevHolder.Some? ==> event.actor == event.prevHolder
    requires OnHoldRound(g, WorkerOf(s, w).edge) ==> event.newHolder == event.prevHolder
    requires event.newHolder.None? ==> Unheld(g, free, event.to)
    ensures AllActorsHeld(s.ledger.events + [event])
    ensures KeptHolders(g, s.ledger.events + [event], s.path + [WorkerOf(s, w).edge])
    ensures UnheldOnly(g, free, s.ledger.events + [event])
  {
    var events, path := s.ledger.events, s.path;
    assert forall i :: 0 <= i < |events| ==> (events + [event])[i] == events[i];
    assert forall i :: 0 <= i < |path| ==> (path + [WorkerOf(s, w).edge])[i] == path[i];
  }

  lemma {:induction false} RunStaysHonest(g: Workflow, free: bool, s: System, actions: seq<Action>)
    requires Honest(g, free, s) && RoundsKeepHolder(g, free)
    ensures Honest(g, free, Run(g, s, actions))
    decreases |actions|
  {
    if actions != [] {
      StepStaysHonest(g, free, s, actions[0]);
      RunStaysHonest(g, free, Step(g, s, actions[0]), actions[1..]);
    }
  }

  // Unsound direction: a round that can give the form to somebody else lets a
  // reader commit after it, and a round that both clears and keeps lets a stale
  // keeper bring an old holder back under another reader's feet.

  function HopSteps(w: nat, actor: string, e: Edge, choice: Holder): seq<Action> {
    [Read(w, actor), Decide(w, e, choice)] + CommitSteps(w)
  }

  /** Worker `w` takes the form over one edge, undisturbed; other workers keep
      what they have read. */
  lemma Hop(g: Workflow, s: System, w: nat, actor: string, e: Edge, choice: Holder)
    requires Inv(g, s) && MayAct(s.ledger.entry, actor) && e in g && e.from == s.ledger.entry.status
    ensures var after := Run(g, s, HopSteps(w, actor, e, choice));
            && Inv(g, after) && after.ledger.entry.status == e.to
            && after.ledger.entry.holder == NextHolder(e.rule, s.ledger.entry.holder, actor, choice)
            && (forall v :: v != w ==> WorkerOf(after, v) == WorkerOf(s, v))
  {
    var first := [Read(w, actor), Decide(w, e, choice)];
    RunTwo(g, s, first[0], first[1]);
    RunKeepsInv(g, s, first);
    OthersUntouched(g, s, w, first);
    RunAppend(g, s, first, CommitSteps(w));
    UninterruptedCommit(g, Run(g, s, first), w);
  }

  /** Who has the form after an edge: nobody, who had it, the edge's own node, the node
      chosen, or who took it there. */
  predicate HandsOver(rule: Rule, before: Holder, actor: string, choice: Holder, after: Holder) {
    && (rule.Clear? ==> after == None) && (rule.Keep? ==> after == before)
    && (rule.Fixed? ==> after == Some(rule.node)) && (rule.Chosen? ==> after == choice)
    && (rule.ToActor? ==> after == Some(actor))
  }

  /** A request that nothing interrupts moves the form along its edge exactly when the
      edge leaves its status and nobody but the actor holds it: one event that says who
      did what, and the row it leaves. Otherwise nothing happens. */
  lemma HopOutcome(g: Workflow, s: System, w: nat, actor: string, e: Edge, choice: Holder)
    requires Inv(g, s)
    ensures var before, after := s.ledger, Run(g, s, HopSteps(w, actor, e, choice)).ledger;
            if e in g && e.from == before.entry.status && before.entry.holder in [None, Some(actor)]
            then
              && HandsOver(e.rule, before.entry.holder, actor, choice, after.entry.holder)
              && after.entry.status == e.to && after.entry.version == before.entry.version + 1
              && after.entry.history == before.entry.history + [e.to]
              && after.events == before.events + [Event(|before.events| + 1, Some(e.from), e.to, Some(e.decision),
                                                        Some(actor), before.entry.holder, after.entry.holder)]
            else after == before
  {
    var first := [Read(w, actor), Decide(w, e, choice)];
    RunTwo(g, s, first[0], first[1]);
    RunAppend(g, s, first, CommitSteps(w));
    var decided := Run(g, s, first);
    MaxSequenceOfChain(s.ledger.events);
    if MayAct(s.ledger.entry, actor) && e in g && e.from == s.ledger.entry.status {
      RunKeepsInv(g, s, first);
      CommitStepsEffect(g, decided, w);
      RunThree(g, decided, Load(w), Count(w), Commit(w));
    } else {
      IdleCommits(g, decided, w);
    }
  }

  lemma IdleCommits(g: Workflow, s: System, w: nat)
    requires WorkerOf(s, w).Idle?
    ensures Run(g, s, CommitSteps(w)).ledger == s.ledger
  {
    RunThree(g, s, Load(w), Count(w), Commit(w));
    assert WorkerOf(Step(g, s, Load(w)), w).Idle?;
  }

  /** A hop by whoever holds the form, or by `other` when nobody does. */
  function HopBy(s: System, other: string, e: Edge): seq<Action> {
    HopSteps(1, if s.ledger.entry.holder.Some? then s.ledger.entry.holder.value else other, e, Some(other))
  }

  predicate Names(rule: Rule) {
    rule.Fixed? || rule.Chosen? || rule.ToActor?
  }

  ghost predicate Unnamed(g: Workflow, reader: string) {
    forall e :: e in g && e.rule.Fixed? ==> e.rule.node != reader
  }

  /** On the walk the form is taken from whoever has it. */
  ghost predicate Parts(walk: seq<Edge>) {
    !AllHold(walk)
  }

  /** Whether the form has a holder after a walk. */
  function HeldAfter(held: bool, walk: seq<Edge>): bool
    decreases |walk|
  {
    if walk == [] then held
    else HeldAfter(Names(walk[0].rule) || (walk[0].rule.Keep? && held), walk[1..])
  }

  lemma {:induction false} HeldByLast(held: bool, walk: seq<Edge>)
    requires walk != [] && Names(walk[|walk| - 1].rule)
    ensures HeldAfter(held, walk)
    decreases |walk|
  {
    if |walk| > 1 { HeldByLast(Names(walk[0].rule) || (walk[0].rule.Keep? && held), walk[1..]); }
  }

  lemma {:induction false} HeldByActor(held: bool, walk: seq<Edge>)
    requires AllHold(walk) && (held || !AllKeep(walk))
    ensures HeldAfter(held, walk)
    decreases |walk|
  {
    if walk != [] {
      var rest := walk[1..];
      assert forall i :: 0 <= i < |rest| ==> rest[i] == walk[i + 1];
      assert walk[0].rule.Keep? && AllKeep(rest) ==> AllKeep(walk);
      assert Holds(walk[0].rule);
      HeldByActor(Names(walk[0].rule) || (walk[0].rule.Keep? && held), rest);
    }
  }

  /** Along a walk the form never comes back to a reader no edge names. */
  lemma {:induction false} WalkAvoids(g: Workflow, s: System, walk: seq<Edge>, reader: string, other: string)
    returns (actions: seq<Action>)
    requires Inv(g, s) && Walk(g, walk) && walk[0].from == s.ledger.entry.status
    requires reader != other && Unnamed(g, reader)
    requires s.ledger.entry.holder != Some(reader) || Parts(walk)
    ensures var after := Run(g, s, actions);
            && Inv(g, after) && after.ledger.entry.status == walk[|walk| - 1].to
            && after.ledger.entry.holder != Some(reader)
            && (HeldAfter(s.ledger.entry.holder.Some?, walk) ==> after.ledger.entry.holder.Some?)
            && (forall v :: v != 1 ==> WorkerOf(after, v) == WorkerOf(s, v))
    decreases |walk|
  {
    var first := HopBy(s, other, walk[0]);
    Hop(g, s, 1, if s.ledger.entry.holder.Some? then s.ledger.entry.holder.value else other, walk[0], Some(other));
    var held := Run(g, s, first).ledger.entry.holder.Some?;
    assert held == (Names(walk[0].rule) || (walk[0].rule.Keep? && s.ledger.entry.holder.Some?));
    if |walk| == 1 {
      assert HeldAfter(held, walk[1..]) == held;
      actions := first;
    } else {
      var rest := walk[1..];
      assert rest[0] == walk[1] && forall i :: 0 <= i < |rest| ==> rest[i] == walk[i + 1];
      assert Holds(walk[0].rule) && AllHold(rest) ==> AllHold(walk);
      var more := WalkAvoids(g, Run(g, s, first), rest, reader, other);
      RunAppend(g, s, first, more);
      actions := first + more;
    }
  }

  /** A worker that commits what it decided on while somebody else holds the form. */
  lemma StaleCommit(g: Workflow, s: System, w: nat)
    requires Inv(g, s) && WorkerOf(s, w).Decided? && s.ledger.entry.status == WorkerOf(s, w).change.expected
    requires s.ledger.entry.holder.Some? && s.ledger.entry.holder != Some(WorkerOf(s, w).change.actor)
    ensures !AllActorsHeld(Run(g, s, CommitSteps(w)).ledger.events)
  {
    UninterruptedCommit(g, s, w);
    var events := Run(g, s, CommitSteps(w)).ledger.events;
    assert !ActorHeld(events[|s.ledger.events|]);
  }

  /** Some name that no edge of the workflow gives the form to. */
  lemma FreshName(g: Workflow) returns (name: string)
    ensures Unnamed(g, name)
  {
    var used := set e | e in g && e.rule.Fixed? :: e.rule.node;
    var names := seq(|used| + 1, i requires 0 <= i => seq(i, j => 'x'));
    forall i, j | 0 <= i < j < |names| ensures names[i] != names[j] {
      assert |names[i]| == i && |names[j]| == j;
    }
    var k := Pigeonhole(names, used);
    name := names[k];
    assert forall e :: e in g && e.rule.Fixed? ==> e.rule.node in used;
  }

  /** A worker reads the form and decides on an edge, and leaves it at that. */
  lemma Linger(g: Workflow, s: System, w: nat, actor: string, e: Edge, choice: Holder)
    requires Inv(g, s) && MayAct(s.ledger.entry, actor) && e in g && e.from == s.ledger.entry.status
    ensures var after := Run(g, s, [Read(w, actor), Decide(w, e, choice)]);
            && Inv(g, after) && after.ledger == s.ledger
            && WorkerOf(after, w) == Decided(s.ledger.entry, e, ChangeAlong(e, s.ledger.entry, actor, choice))
            && (forall v :: v != w ==> WorkerOf(after, v) == WorkerOf(s, v))
  {
    var steps := [Read(w, actor), Decide(w, e, choice)];
    RunTwo(g, s, steps[0], steps[1]);
    RunKeepsInv(g, s, steps);
    OthersUntouched(g, s, w, steps);
  }

  /** A round that ends with the form held, walked while a reader who may act
      lingers: the form has somebody else's name when the reader commits. */
  lemma NamingRound(g: Workflow, s: System, round: seq<Edge>, reader: string) returns (actions: seq<Action>)
    requires Inv(g, s) && Round(g, round) && round[0].from == s.ledger.entry.status
    requires HeldAfter(s.ledger.entry.holder.Some?, round) && Unnamed(g, reader) && MayAct(s.ledger.entry, reader)
    requires s.ledger.entry.holder.None? || Parts(round)
    ensures !AllActorsHeld(Run(g, s, actions).ledger.events)
  {
    var other := reader + "'";
    var stale := [Read(0, reader), Decide(0, round[0], None)];
    Linger(g, s, 0, reader, round[0], None);
    var s1 := Run(g, s, stale);
    var around := WalkAvoids(g, s1, round, reader, other);
    StaleCommit(g, Run(g, s1, around), 0);
    RunAppend(g, s1, around, CommitSteps(0));
    RunAppend(g, s, stale, around + CommitSteps(0));
    actions := stale + (around + CommitSteps(0));
  }

  /** Along clearing and keeping edges the form keeps its holder until it loses it. */
  lemma {:induction false} WalkLoses(g: Workflow, s: System, walk: seq<Edge>, other: string)
    returns (actions: seq<Action>)
    requires Inv(g, s) && Walk(g, walk) && walk[0].from == s.ledger.entry.status
    requires forall i :: 0 <= i < |walk| ==> walk[i].rule.Clear? || walk[i].rule.Keep?
    ensures var after := Run(g, s, actions);
            && Inv(g, after) && after.ledger.entry.status == walk[|walk| - 1].to
            && (s.ledger.entry.holder.None? || !AllKeep(walk) ==> after.ledger.entry.holder.None?)
            && (forall v :: v != 1 ==> WorkerOf(after, v) == WorkerOf(s, v))
    decreases |walk|
  {
    var first := HopBy(s, other, walk[0]);
    Hop(g, s, 1, if s.ledger.entry.holder.Some? then s.ledger.entry.holder.value else other, walk[0], Some(other));
    if |walk| == 1 {
      actions := first;
    } else {
      var rest := walk[1..];
      assert forall i :: 0 <= i < |rest| ==> rest[i] == walk[i + 1];
      assert walk[0].rule.Keep? && AllKeep(rest) ==> AllKeep(walk);
      var more := WalkLoses(g, Run(g, s, first), rest, other);
      RunAppend(g, s, first, more);
      actions := first + more;
    }
  }

  /** A worker has decided on an edge and will leave the form with `leaves`. */
  ghost predicate Waiting(s: System, w: nat, e: Edge, actor: string, leaves: Holder) {
    var me := WorkerOf(s, w);
    me.Decided? && me.change.expected == e.from && me.change.to == e.to && me.change.actor == actor
    && me.change.newHolder == leaves
  }

  ghost predicate Mixed(g: Workflow, round: seq<Edge>) {
    && Round(g, round) && round[0].rule.Keep? && !AllKeep(round)
    && forall i :: 0 <= i < |round| ==> round[i].rule.Clear? || round[i].rule.Keep?
  }

  /** First, a reader who holds the form decides to pass it on by the keeping edge,
      and lingers while the form goes round, loses its holder, and takes that edge. */
  lemma KeeperLingers(g: Workflow, round: seq<Edge>) returns (actions: seq<Action>)
    requires Mixed(g, round)
    ensures var after := Run(g, Start(round[0].from, Some("first"), None, None), actions);
            && Inv(g, after) && after.ledger.entry.status == round[0].to && after.ledger.entry.holder.None?
            && Waiting(after, 0, round[0], "first", Some("first"))
  {
    var s := Start(round[0].from, Some("first"), None, None);
    StartInv(g, round[0].from, Some("first"), None, None);
    var steps := [Read(0, "first"), Decide(0, round[0], None)];
    Linger(g, s, 0, "first", round[0], None);
    var lingering := Run(g, s, steps);
    var around := WalkLoses(g, lingering, round, "walker");
    var returned := Run(g, lingering, around);
    assert Walk(g, [round[0]]);
    var hop := WalkLoses(g, returned, [round[0]], "walker");
    RunAppend(g, lingering, around, hop);
    RunAppend(g, s, steps, around + hop);
    actions := steps + (around + hop);
  }

  /** Then a second reader, allowed because nobody holds the form, decides on the
      next edge, and lingers while the form goes on round. */
  lemma ReaderLingers(g: Workflow, round: seq<Edge>, s: System) returns (actions: seq<Action>)
    requires Mixed(g, round) && Inv(g, s) && s.ledger.entry.status == round[0].to && s.ledger.entry.holder.None?
    ensures |round| > 1
    ensures var after := Run(g, s, actions);
            && Inv(g, after) && after.ledger.entry.status == round[0].from && after.ledger.entry.holder.None?
            && WorkerOf(after, 0) == WorkerOf(s, 0)
            && WorkerOf(after, 2).Decided? && WorkerOf(after, 2).change.expected == round[0].to
            && WorkerOf(after, 2).change.actor == "second"
  {
    var rest := round[1..];
    assert |round| > 1 && forall i :: 0 <= i < |rest| ==> rest[i] == round[i + 1];
    var steps := [Read(2, "second"), Decide(2, rest[0], None)];
    Linger(g, s, 2, "second", rest[0], None);
    var lingering := Run(g, s, steps);
    var around := WalkLoses(g, lingering, rest, "walker");
    RunAppend(g, s, steps, around);
    actions := steps + around;
  }

  /** A round that keeps here and clears there: the first reader's stale decision
      brings its name back after the form had lost its holder, while the second
      reader has yet to commit. */
  lemma MixedRound(g: Workflow, round: seq<Edge>) returns (actions: seq<Action>)
    requires Mixed(g, round)
    ensures !AllActorsHeld(Run(g, Start(round[0].from, Some("first"), None, None), actions).ledger.events)
  {
    var s := Start(round[0].from, Some("first"), None, None);
    var keeper := KeeperLingers(g, round);
    var s1 := Run(g, s, keeper);
    var reader := ReaderLingers(g, round, s1);
    var s2 := Run(g, s1, reader);
    UninterruptedCommit(g, s2, 0);
    StaleCommit(g, Run(g, s2, CommitSteps(0)), 2);
    RunAppend(g, s2, CommitSteps(0), CommitSteps(2));
    RunAppend(g, s1, reader, CommitSteps(0) + CommitSteps(2));
    RunAppend(g, s, keeper, reader + (CommitSteps(0) + CommitSteps(2)));
    actions := keeper + (reader + (CommitSteps(0) + CommitSteps(2)));
  }

  /** A form created with a holder, brought to where it has none. */
  lemma ReachUnheld(g: Workflow, w: seq<Edge>) returns (actions: seq<Action>)
    requires Frees(g, w)
    ensures var after := Run(g, Start(w[0].from, Some("first"), None, None), actions);
            Inv(g, after) && after.ledger.entry.status == w[|w| - 1].to && after.ledger.entry.holder.None?
  {
    var s := Start(w[0].from, Some("first"), None, None);
    StartInv(g, w[0].from, Some("first"), None, None);
    var freeing := HopSteps(1, "first", w[0], None);
    Hop(g, s, 1, "first", w[0], None);
    if |w| == 1 {
      actions := freeing;
    } else {
      var rest := w[1..];
      assert forall i :: 0 <= i < |rest| ==> rest[i] == w[i + 1];
      var more := WalkLoses(g, Run(g, s, freeing), rest, "walker");
      RunAppend(g, s, freeing, more);
      actions := freeing + more;
    }
  }

  /** A form in some creation that `free` allows, and what happens to it, at the
      end of which the form is at this status without a holder. */
  lemma UnheldStart(g: Workflow, free: bool, at: Status)
    returns (status: Status, holder: Holder, actions: seq<Action>)
    requires Unheld(g, free, at)
    ensures free || holder.Some?
    ensures var after := Run(g, Start(status, holder, None, None), actions);
            Inv(g, after) && after.ledger.entry.status == at && after.ledger.entry.holder.None?
  {
    if free {
      status, holder, actions := at, None, [];
      StartInv(g, status, holder, None, None);
    } else {
      var w: seq<Edge> :| Frees(g, w) && w[|w| - 1].to == at;
      status, holder := w[0].from, Some("first");
      actions := ReachUnheld(g, w);
    }
  }

  /** A round on which the form has somebody's name at the end and was taken from
      its holder on the way. */
  lemma PartingRound(g: Workflow, round: seq<Edge>) returns (holder: Holder, actions: seq<Action>)
    requires Round(g, round) && Names(round[|round| - 1].rule) && Parts(round)
    ensures holder.Some? && !AllActorsHeld(Run(g, Start(round[0].from, holder, None, None), actions).ledger.events)
  {
    var reader := FreshName(g);
    holder := Some(reader);
    HeldByLast(true, round);
    StartInv(g, round[0].from, holder, None, None);
    actions := NamingRound(g, Start(round[0].from, holder, None, None), round, reader);
  }

  /** A round that keeps the holder or takes the actor, entered without a holder. */
  lemma UnheldRound(g: Workflow, free: bool, round: seq<Edge>)
    returns (status: Status, holder: Holder, actions: seq<Action>)
    requires Round(g, round) && AllHold(round) && !AllKeep(round) && Unheld(g, free, round[0].from)
    ensures free || holder.Some?
    ensures !AllActorsHeld(Run(g, Start(status, holder, None, None), actions).ledger.events)
  {
    var entering;
    status, holder, entering := UnheldStart(g, free, round[0].from);
    var s := Start(status, holder, None, None);
    var reader := FreshName(g);
    HeldByActor(false, round);
    var more := NamingRound(g, Run(g, s, entering), round, reader);
    RunAppend(g, s, entering, more);
    actions := entering + more;
  }

  /** The round started at one of its edges, with the same edges. */
  lemma Rotated(g: Workflow, w: seq<Edge>, k: nat) returns (round: seq<Edge>)
    requires Round(g, w) && k < |w|
    ensures Round(g, round) && round[0] == w[k] && forall e :: e in w <==> e in round
  {
    Rotate(g, w, k);
    round := w[k..] + w[..k];
    assert w == w[..k] + w[k..];
  }

  /** A round of keeping and actor edges that is not only keeping ones. */
  lemma HoldingRound(g: Workflow, free: bool, w: seq<Edge>, k: nat)
    returns (status: Status, holder: Holder, actions: seq<Action>)
    requires Round(g, w) && AllHold(w) && !AllKeep(w) && k < |w| && Unheld(g, free, w[k].from)
    ensures free || holder.Some?
    ensures !AllActorsHeld(Run(g, Start(status, holder, None, None), actions).ledger.events)
  {
    var round := Rotated(g, w, k);
    var j :| 0 <= j < |w| && !w[j].rule.Keep?;
    assert w[j] in round;
    assert forall i :: 0 <= i < |round| ==> round[i] in w;
    status, holder, actions := UnheldRound(g, free, round);
  }

  /** A round of clearing and keeping edges, some of each. */
  lemma ClearingRound(g: Workflow, w: seq<Edge>) returns (status: Status, actions: seq<Action>)
    requires Round(g, w) && !AllClear(w) && !AllKeep(w)
    requires forall i :: 0 <= i < |w| ==> w[i].rule.Clear? || w[i].rule.Keep?
    ensures !AllActorsHeld(Run(g, Start(status, Some("first"), None, None), actions).ledger.events)
  {
    var k :| 0 <= k < |w| && !w[k].rule.Clear?;
    var round := Rotated(g, w, k);
    var j :| 0 <= j < |w| && !w[j].rule.Keep?;
    assert w[j] in round;
    assert forall i :: 0 <= i < |round| ==> round[i] in w;
    status := round[0].from;
    actions := MixedRound(g, round);
  }

  /** Every other kind of round admits a commit by someone who no longer holds
      the form. */
  lemma RoundAdmitsStaleActor(g: Workflow, free: bool) returns (status: Status, holder: Holder, actions: seq<Action>)
    requires !RoundsKeepHolder(g, free)
    ensures free || holder.Some?
    ensures !AllActorsHeld(Run(g, Start(status, holder, None, None), actions).ledger.events)
  {
    var w: seq<Edge> :| Round(g, w) && !AllClear(w) && !AllKeep(w) && !(AllHold(w) && NeverUnheld(g, free, w));
    if AllHold(w) {
      var k :| 0 <= k < |w| && Unheld(g, free, w[k].from);
      status, holder, actions := HoldingRound(g, free, w, k);
    } else if k :| 0 <= k < |w| && Names(w[k].rule) {
      var round := NamedLast(g, w, k);
      holder, actions := PartingRound(g, round);
      status := round[0].from;
    } else {
      holder := Some("first");
      status, actions := ClearingRound(g, w);
    }
  }

  lemma NamedLast(g: Workflow, w: seq<Edge>, k: nat) returns (round: seq<Edge>)
    requires Round(g, w) && k < |w|
    requires !AllHold(w)
    ensures Round(g, round) && round[|round| - 1] == w[k] && Parts(round)
  {
    var j :| 0 <= j < |w| && !Holds(w[j].rule);
    if k == |w| - 1 {
      round := w;
    } else {
      Rotate(g, w, k + 1);
      round := w[k + 1..] + w[..k + 1];
      assert w == w[..k + 1] + w[k + 1..];
      assert w[j] in round;
    }
  }

  /** Rechecking only the status at commit is enough, in every interleaving, exactly
      when on every round of the workflow the form has no holder, or keeps the one
      it has: the edges all clear it; or all keep it; or keep it or take the actor,
      and the form is never on the round without a holder. Forms are created with a
      holder, or with or without one if `free`. */
  lemma HolderCheckSoundIff(g: Workflow, free: bool)
    ensures (forall status, holder: Holder, actor, decision, actions | free || holder.Some? ::
               AllActorsHeld(Run(g, Start(status, holder, actor, decision), actions).ledger.events))
            <==> RoundsKeepHolder(g, free)
  {
    if RoundsKeepHolder(g, free) {
      forall status, holder: Holder, actor, decision, actions | free || holder.Some?
        ensures AllActorsHeld(Run(g, Start(status, holder, actor, decision), actions).ledger.events)
      {
        StartInv(g, status, holder, actor, decision);
        RunStaysHonest(g, free, Start(status, holder, actor, decision), actions);
      }
    } else {
      var status, holder, actions := RoundAdmitsStaleActor(g, free);
    }
  }

  /** In particular without any round. */
  lemma AcyclicActorsHeld(g: Workflow, status: Status, holder: Holder, actor: Holder, decision: Option<string>,
                          actions: seq<Action>)
    requires !exists w :: Round(g, w)
    ensures AllActorsHeld(Run(g, Start(status, holder, actor, decision), actions).ledger.events)
  {
    HolderCheckSoundIff(g, true);
  }
}
