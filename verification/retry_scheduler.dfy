/** Retry records: failures write them, the scheduler claims and rewrites them,
    operators reset or cancel them. */
module RetryScheduler {
  import opened Prelude
  import opened RetryPolicy

  /** A task: the node it invokes and the session it runs in. */
  datatype Key = Key(node: string, session: string)

  /** Why a record's last attempt went wrong. */
  datatype Reason = NoReason | Message(text: string) | NodeNotFound | NothingToResume

  datatype Status = Pending | Claimed | Completed | Exhausted | Terminated | Cancelled

  datatype Record = Record(
    node: string, session: string, failure: FailureClass, status: Status, attempts: nat, nextAttempt: Option<int>,
    payload: Option<string>, error: Reason, claimedAt: Option<int>, completedAt: Option<int>)

  /** A failure event; terminal failures are not linked to a record. */
  datatype Event = Event(key: Key, failure: FailureClass, linked: bool)

  /** A failed invocation, as its handler sees it. */
  datatype Fault = Fault(node: string, session: string, failure: FailureClass, now: int, reset: Reset, error: Reason) {
    function TaskKey(): Key {
      Key(node, session)
    }
  }

  /** How far one failure handler has come: it reads the attempt count, writes the
      record, and logs the event, in three repository calls. `overtaken` notes that
      another handler wrote the record after the read. */
  datatype Handler = HasRead(fault: Fault, prior: nat, overtaken: bool) | HasWritten(fault: Fault) | Finished

  /** The records by task key, the failure log, the keys that scheduler passes have
      listed as due and not yet tried to claim, the handlers in order of start, and
      the keys that passes have claimed and not yet dealt with. */
  datatype State = State(
    records: map<Key, Record>, events: seq<Event>, listed: multiset<Key>, handlers: seq<Handler>,
    running: multiset<Key>)

  const EMPTY := State(map[], [], multiset{}, [], multiset{})

  const DUE_LIMIT := 20

  /** The text a task is stored under. */
  function KeyText(key: Key): string {
    "invoke_prompt:" + key.node + ":" + key.session
  }

  function Attempts(s: State, key: Key): nat {
    if key in s.records then s.records[key].attempts else 0
  }

  predicate Due(s: State, now: int, key: Key) {
    && key in s.records && s.records[key].status.Pending?
    && s.records[key].nextAttempt.Some? && s.records[key].nextAttempt.value <= now
  }

  function NextOf(s: State, key: Key): int {
    if key in s.records && s.records[key].nextAttempt.Some? then s.records[key].nextAttempt.value else 0
  }

  /** What the due query returns: the earliest due records, up to the limit. */
  ghost predicate DueList(s: State, now: int, due: seq<Key>) {
    && NoDup(due) && |due| <= DUE_LIMIT
    && (forall k :: k in due ==> Due(s, now, k))
    && (forall i, j :: 0 <= i < j < |due| ==> NextOf(s, due[i]) <= NextOf(s, due[j]))
    && (forall k :: Due(s, now, k) && k !in due ==>
          |due| == DUE_LIMIT && forall j :: j in due ==> NextOf(s, j) <= NextOf(s, k))
  }

  // ---------------------------------------------------------------------
  // Atomic steps
  // ---------------------------------------------------------------------

  datatype Update<T> = Unset | Set(value: T)

  function Assigned<T>(current: T, u: Update<T>): T {
    if u.Set? then u.value else current
  }

  /** A status write; the next attempt is always overwritten. */
  function Updated(r: Record, status: Status, nextAttempt: Option<int>, claimedAt: Update<Option<int>>,
                   completedAt: Update<Option<int>>, error: Update<Reason>): Record
  {
    r.(status := status, nextAttempt := nextAttempt, claimedAt := Assigned(r.claimedAt, claimedAt),
       completedAt := Assigned(r.completedAt, completedAt), error := Assigned(r.error, error))
  }

  datatype Action =
    | Begin(fault: Fault)
    | Write(handler: nat)
    | Log(handler: nat)
    | RetryNow(key: Key, now: int)
    | Cancel(key: Key, now: int)
    | List(now: int, due: seq<Key>)
    | Claim(key: Key, now: int)
    | Abort(key: Key, rest: seq<Key>)
    | Complete(key: Key, claimedAt: Option<int>, now: int)
    | DeferBack(key: Key)
    | GiveUp(key: Key, now: int, error: Reason)

  /** Whether a failure after `prior` counted ones is granted another attempt. */
  predicate Grants(f: Fault, prior: nat) {
    ComputeRetryDecision(prior, f.failure, f.now, f.reset).Retry?
  }

  /** The record a handler writes, when it read `prior` attempts. */
  function FailedRecord(f: Fault, prior: nat): Record {
    var decision := ComputeRetryDecision(prior, f.failure, f.now, f.reset);
    Record(f.node, f.session, f.failure, if decision.Retry? then Pending else Exhausted, prior + 1,
           if decision.Retry? then Some(decision.nextAttempt) else None, Some(f.session), f.error, None,
           if decision.Retry? then None else Some(f.now))
  }

  /** A handler starts: a terminal failure is logged at once, without a record. */
  function Begun(s: State, f: Fault): State {
    if f.failure.TerminalFailure? then s.(events := s.events + [Event(f.TaskKey(), f.failure, false)])
    else s.(handlers := s.handlers + [HasRead(f, Attempts(s, f.TaskKey()), false)])
  }

  predicate MayWrite(s: State, h: nat) {
    h < |s.handlers| && s.handlers[h].HasRead?
  }

  predicate MayLog(s: State, h: nat) {
    h < |s.handlers| && s.handlers[h].HasWritten?
  }

  predicate ReadsKey(handler: Handler, key: Key) {
    handler.HasRead? && handler.fault.TaskKey() == key
  }

  /** The handlers after one of them wrote: the others of its task are overtaken. */
  function AfterWrite(handlers: seq<Handler>, h: nat): (r: seq<Handler>)
    requires h < |handlers| && handlers[h].HasRead?
    ensures |r| == |handlers| && r[h] == HasWritten(handlers[h].fault)
    ensures forall i :: 0 <= i < |r| && i != h ==>
              r[i] == if ReadsKey(handlers[i], handlers[h].fault.TaskKey()) then handlers[i].(overtaken := true)
                      else handlers[i]
  {
    seq(|handlers|, i requires 0 <= i < |handlers| =>
      if i == h then HasWritten(handlers[h].fault)
      else if ReadsKey(handlers[i], handlers[h].fault.TaskKey()) then handlers[i].(overtaken := true)
      else handlers[i])
  }

  function Written(s: State, h: nat): State
    requires MayWrite(s, h)
  {
    var f := s.handlers[h].fault;
    s.(records := s.records[f.TaskKey() := FailedRecord(f, s.handlers[h].prior)], handlers := AfterWrite(s.handlers, h))
  }

  function Logged(s: State, h: nat): State
    requires MayLog(s, h)
  {
    var f := s.handlers[h].fault;
    s.(events := s.events + [Event(f.TaskKey(), f.failure, true)], handlers := s.handlers[h := Finished])
  }

  predicate Claimable(s: State, key: Key) {
    key in s.listed && key in s.records && s.records[key].status.Pending?
  }

  function WithStatus(s: State, key: Key, status: Status, nextAttempt: Option<int>, claimedAt: Update<Option<int>>,
                      completedAt: Update<Option<int>>, error: Update<Reason>): State
  {
    if key !in s.records then s
    else s.(records := s.records[key := Updated(s.records[key], status, nextAttempt, claimedAt, completedAt, error)])
  }

  /** A pass is done with a record it had claimed; only then does it write back. */
  function Ended(s: State, key: Key): State {
    s.(running := s.running - multiset{key})
  }

  ghost function Apply(s: State, a: Action): State {
    match a
    case Begin(fault) => Begun(s, fault)
    case Write(handler) => if MayWrite(s, handler) then Written(s, handler) else s
    case Log(handler) => if MayLog(s, handler) then Logged(s, handler) else s
    case RetryNow(key, now) => WithStatus(s, key, Pending, Some(now), Set(None), Set(None), Unset)
    case Cancel(key, now) => WithStatus(s, key, Cancelled, None, Set(None), Set(Some(now)), Unset)
    case List(now, due) => if DueList(s, now, due) then s.(listed := s.listed + multiset(due)) else s
    case Claim(key, now) =>
      var tried := s.(listed := s.listed - multiset{key});
      if Claimable(s, key)
      then tried.(records := s.records[key := s.records[key].(status := Claimed, claimedAt := Some(now))],
                  running := s.running + multiset{key})
      else tried
    case Abort(key, rest) => s.(listed := s.listed - multiset(rest), running := s.running - multiset{key})
    case Complete(key, claimedAt, now) =>
      if key in s.running then WithStatus(Ended(s, key), key, Completed, None, Set(claimedAt), Set(Some(now)), Unset)
      else s
    case DeferBack(key) =>
      if key in s.running then WithStatus(Ended(s, key), key, Pending, None, Set(None), Unset, Unset) else s
    case GiveUp(key, now, error) =>
      if key in s.running
      then WithStatus(Ended(s, key), key, Terminated, None, Set(Some(now)), Set(Some(now)), Set(error))
      else s
  }

  ghost function Run(s: State, actions: seq<Action>): State
    decreases |actions|
  {
    if actions == [] then s else Run(Apply(s, actions[0]), actions[1..])
  }

  // ---------------------------------------------------------------------
  // One scheduler pass
  // ---------------------------------------------------------------------

  /** How an invocation ends. */
  datatype Invocation = Done(now: int) | Fails(failure: FailureClass, now: int, reset: Reset, error: Reason) | Broken

  /** The session a retry runs in. */
  function RetrySession(r: Record): string {
    if r.payload.Some? && r.payload.value != "" then r.payload.value
    else if r.session != "" then r.session
    else "cli:retry"
  }

  /** The steps of a pass, and whether an exception ended it. */
  datatype Pass = Pass(actions: seq<Action>, raised: bool)

  /** The steps of one failure handler that nothing interrupts. */
  function FailureSteps(s: State, f: Fault): seq<Action> {
    if f.failure.TerminalFailure? then [Begin(f)] else [Begin(f), Write(|s.handlers|), Log(|s.handlers|)]
  }

  /** The failure of a retry, under the key of the session it ran in. */
  function RetryFault(r: Record, outcome: Invocation): Fault
    requires outcome.Fails?
  {
    Fault(r.node, RetrySession(r), outcome.failure, outcome.now, outcome.reset, outcome.error)
  }

  ghost function PassOne(s: State, key: Key, now: int, nodes: set<string>, outcome: Invocation): Pass {
    var claim := Claim(key, now);
    if !Claimable(s, key) then Pass([claim], false)
    else
      var r := s.records[key];
      if r.node !in nodes then Pass([claim, GiveUp(key, now, NodeNotFound)], false)
      else if r.error.NoReason? && r.payload.None? then
        Pass([claim, GiveUp(key, now, NothingToResume)], false)
      else
        match outcome
        case Done(at) => Pass([claim, Complete(key, Some(now), at)], false)
        case Broken => Pass([claim], true)
        case Fails(_, _, _, _) =>
          var steps := [claim] + FailureSteps(s, RetryFault(r, outcome));
          if Retried(s, r, outcome) then Pass(steps + [DeferBack(key)], false) else Pass(steps, true)
  }

  /** The state one record's handling leaves. */
  ghost function AfterOne(s: State, key: Key, now: int, nodes: set<string>, outcome: Invocation): State {
    var claimed := Apply(s, Claim(key, now));
    if !Claimable(s, key) then claimed else AfterClaimed(claimed, key, s.records[key], now, nodes, outcome)
  }

  ghost function AfterClaimed(claimed: State, key: Key, r: Record, now: int, nodes: set<string>, outcome: Invocation):
    State
  {
    if r.node !in nodes then Apply(claimed, GiveUp(key, now, NodeNotFound))
    else if r.error.NoReason? && r.payload.None? then
      Apply(claimed, GiveUp(key, now, NothingToResume))
    else
      AfterInvocation(claimed, key, r, now, outcome)
  }

  /** Whether handling a claimed record ends the pass with an exception. */
  predicate Raises(s: State, r: Record, nodes: set<string>, outcome: Invocation) {
    && r.node in nodes && !(r.error.NoReason? && r.payload.None?)
    && (outcome.Broken? || (outcome.Fails? && !Retried(s, r, outcome)))
  }

  /** The state one uninterrupted failure handler leaves. */
  ghost function AfterFailure(s: State, f: Fault): State {
    var begun := Begun(s, f);
    if f.failure.TerminalFailure? then begun else Logged(Written(begun, |s.handlers|), |s.handlers|)
  }

  ghost function AfterInvocation(claimed: State, key: Key, r: Record, now: int, outcome: Invocation): State {
    match outcome
    case Done(at) => Apply(claimed, Complete(key, Some(now), at))
    case Broken => claimed
    case Fails(_, _, _, _) =>
      var failed := AfterFailure(claimed, RetryFault(r, outcome));
      if Retried(claimed, r, outcome) then Apply(failed, DeferBack(key)) else failed
  }

  /** Whether a failed retry is granted another attempt. */
  predicate Retried(s: State, r: Record, outcome: Invocation)
    requires outcome.Fails?
  {
    var f := RetryFault(r, outcome);
    Grants(f, Attempts(s, f.TaskKey()))
  }

  lemma RunOne(s: State, a: Action)
    ensures Run(s, [a]) == Apply(s, a)
  {
    assert [a][1..] == [];
  }

  lemma RunTwo(s: State, a: Action, b: Action)
    ensures Run(s, [a, b]) == Apply(Apply(s, a), b)
  {
    assert [a, b][1..] == [b];
    RunOne(Apply(s, a), b);
  }

  lemma RunThree(s: State, a: Action, b: Action, c: Action)
    ensures Run(s, [a, b, c]) == Apply(Apply(Apply(s, a), b), c)
  {
    assert [a, b, c][1..] == [b, c];
    RunTwo(Apply(s, a), b, c);
  }

  lemma FailureRun(s: State, f: Fault)
    ensures Run(s, FailureSteps(s, f)) == AfterFailure(s, f)
  {
    if f.failure.TerminalFailure? {
      RunOne(s, Begin(f));
    } else {
      RunThree(s, Begin(f), Write(|s.handlers|), Log(|s.handlers|));
    }
  }

  lemma RunCons(s: State, a: Action, rest: seq<Action>)
    ensures Run(s, [a] + rest) == Run(Apply(s, a), rest)
  {
    assert ([a] + rest)[1..] == rest;
  }

  lemma {:induction false} RunAppend(s: State, a: seq<Action>, b: seq<Action>)
    ensures Run(s, a + b) == Run(Run(s, a), b)
    decreases |a|
  {
    if a == [] {
      assert a + b == b;
    } else {
      var rest := a[1..];
      assert (a + b)[1..] == rest + b && (a + b)[0] == a[0];
      RunAppend(Apply(s, a[0]), rest, b);
    }
  }

  lemma RetryRun(s: State, key: Key, now: int, r: Record, outcome: Invocation)
    requires Claimable(s, key) && r == s.records[key] && outcome.Fails?
    ensures var steps := [Claim(key, now)] + FailureSteps(s, RetryFault(r, outcome));
            Run(s, if Retried(s, r, outcome) then steps + [DeferBack(key)] else steps)
            == AfterInvocation(Apply(s, Claim(key, now)), key, r, now, outcome)
  {
    var claimed, f := Apply(s, Claim(key, now)), RetryFault(r, outcome);
    var steps := FailureSteps(s, f);
    ClaimKeepsAttempts(s, key, now, f.TaskKey());
    FailureRun(claimed, f);
    RunCons(s, Claim(key, now), steps);
    RunAppend(s, [Claim(key, now)] + steps, [DeferBack(key)]);
    RunOne(Run(s, [Claim(key, now)] + steps), DeferBack(key));
  }

  lemma AfterOneIsRun(s: State, key: Key, now: int, nodes: set<string>, outcome: Invocation)
    ensures Run(s, PassOne(s, key, now, nodes, outcome).actions) == AfterOne(s, key, now, nodes, outcome)
  {
    var actions := PassOne(s, key, now, nodes, outcome).actions;
    if |actions| == 1 {
      RunOne(s, actions[0]);
    } else if |actions| == 2 && (outcome.Done? || actions[1].GiveUp?) {
      RunTwo(s, actions[0], actions[1]);
    } else {
      RetryRun(s, key, now, s.records[key], outcome);
    }
  }

  lemma FailureKeepsListed(s: State, f: Fault)
    ensures AfterFailure(s, f).listed == s.listed && AfterFailure(s, f).running == s.running
  {
  }

  lemma ClaimKeepsAttempts(s: State, key: Key, now: int, other: Key)
    ensures var after := Apply(s, Claim(key, now));
            && Attempts(after, other) == Attempts(s, other) && after.handlers == s.handlers
            && after.listed == s.listed - multiset{key}
            && after.running == if Claimable(s, key) then s.running + multiset{key} else s.running
  {
  }

  /** Handling one listed key takes exactly that key off the listing, and leaves it
      running when an exception ends the pass. */
  lemma AfterClaimedListed(claimed: State, key: Key, r: Record, now: int, nodes: set<string>, outcome: Invocation)
    requires key in claimed.running
    ensures var after := AfterClaimed(claimed, key, r, now, nodes, outcome);
            && after.listed == claimed.listed
            && after.running == if Raises(claimed, r, nodes, outcome) then claimed.running
                                else claimed.running - multiset{key}
  {
    if outcome.Fails? { FailureKeepsListed(claimed, RetryFault(r, outcome)); }
  }

  lemma RaisesIff(s: State, key: Key, now: int, nodes: set<string>, outcome: Invocation)
    ensures PassOne(s, key, now, nodes, outcome).raised
       <==> Claimable(s, key) && Raises(Apply(s, Claim(key, now)), s.records[key], nodes, outcome)
  {
    if outcome.Fails? && Claimable(s, key) {
      ClaimKeepsAttempts(s, key, now, RetryFault(s.records[key], outcome).TaskKey());
    }
  }

  lemma AfterOneListed(s: State, key: Key, now: int, nodes: set<string>, outcome: Invocation)
    ensures var after := AfterOne(s, key, now, nodes, outcome);
            && after.listed == s.listed - multiset{key}
            && after.running == if PassOne(s, key, now, nodes, outcome).raised then s.running + multiset{key}
                                else s.running
  {
    var claimed := Apply(s, Claim(key, now));
    ClaimKeepsAttempts(s, key, now, key);
    RaisesIff(s, key, now, nodes, outcome);
    if Claimable(s, key) {
      assert (s.running + multiset{key}) - multiset{key} == s.running;
      AfterClaimedListed(claimed, key, s.records[key], now, nodes, outcome);
    }
  }

  ghost function PassAll(s: State, due: seq<Key>, now: int, nodes: set<string>, outcomes: seq<Invocation>): Pass
    requires |outcomes| == |due|
    decreases |due|
  {
    if due == [] then Pass([], false)
    else
      var one := PassOne(s, due[0], now, nodes, outcomes[0]);
      if one.raised then Pass(one.actions + [Abort(due[0], due[1..])], true)
      else
        var rest := PassAll(Run(s, one.actions), due[1..], now, nodes, outcomes[1..]);
        Pass(one.actions + rest.actions, rest.raised)
  }

  // ---------------------------------------------------------------------
  // The store and its operations
  // ---------------------------------------------------------------------

  /** A pass is its first record's handling, then the pass over the others; an
      exception drops the others. */
  lemma PassNext(s: State, due: seq<Key>, i: nat, now: int, nodes: set<string>, outcomes: seq<Invocation>)
    requires i < |due| == |outcomes|
    ensures multiset(due[i..]) == multiset{due[i]} + multiset(due[i + 1..])
    ensures var one := PassOne(s, due[i], now, nodes, outcomes[i]);
            var after := AfterOne(s, due[i], now, nodes, outcomes[i]);
            var rest := PassAll(s, due[i..], now, nodes, outcomes[i..]);
            if one.raised then rest.raised && Run(s, rest.actions) == Apply(after, Abort(due[i], due[i + 1..]))
            else
              var more := PassAll(after, due[i + 1..], now, nodes, outcomes[i + 1..]);
              rest.raised == more.raised && Run(s, rest.actions) == Run(after, more.actions)
  {
    var one := PassOne(s, due[i], now, nodes, outcomes[i]);
    AfterOneIsRun(s, due[i], now, nodes, outcomes[i]);
    assert due[i..][0] == due[i] && outcomes[i..][0] == outcomes[i];
    assert due[i..][1..] == due[i + 1..] && outcomes[i..][1..] == outcomes[i + 1..];
    assert due[i..] == [due[i]] + due[i + 1..];
    if one.raised {
      RunAppend(s, one.actions, [Abort(due[i], due[i + 1..])]);
      RunOne(Run(s, one.actions), Abort(due[i], due[i + 1..]));
    } else {
      RunAppend(s, one.actions, PassAll(Run(s, one.actions), due[i + 1..], now, nodes, outcomes[i + 1..]).actions);
    }
  }

  /** The pass over the keys from `i` on ends in `last`. */
  ghost predicate Remaining(s: State, due: seq<Key>, i: nat, now: int, nodes: set<string>, outcomes: seq<Invocation>,
                            last: State, raised: bool)
    requires i <= |due| == |outcomes|
    decreases |due| - i
  {
    if i == |due| then s == last && !raised
    else
      var after := AfterOne(s, due[i], now, nodes, outcomes[i]);
      && due[i] in s.listed
      && if PassOne(s, due[i], now, nodes, outcomes[i]).raised
         then Apply(after, Abort(due[i], due[i + 1..])) == last && raised
         else Remaining(after, due, i + 1, now, nodes, outcomes, last, raised)
  }

  lemma {:induction false} RemainingIsPass(s: State, due: seq<Key>, i: nat, now: int, nodes: set<string>,
                                           outcomes: seq<Invocation>)
    requires i <= |due| == |outcomes| && multiset(due[i..]) <= s.listed
    ensures var rest := PassAll(s, due[i..], now, nodes, outcomes[i..]);
            Remaining(s, due, i, now, nodes, outcomes, Run(s, rest.actions), rest.raised)
    decreases |due| - i
  {
    if i < |due| {
      PassNext(s, due, i, now, nodes, outcomes);
      AfterOneListed(s, due[i], now, nodes, outcomes[i]);
      if !PassOne(s, due[i], now, nodes, outcomes[i]).raised {
        RemainingIsPass(AfterOne(s, due[i], now, nodes, outcomes[i]), due, i + 1, now, nodes, outcomes);
      }
    }
  }

  lemma UnlistHead(listed: multiset<Key>, due: seq<Key>)
    requires due != [] && multiset(due) <= listed
    ensures multiset(due[1..]) <= listed - multiset{due[0]}
    ensures (listed - multiset{due[0]}) - multiset(due[1..]) == listed - multiset(due)
  {
    assert due == [due[0]] + due[1..];
    assert multiset(due) == multiset{due[0]} + multiset(due[1..]);
  }

  /** After a pass none of its keys is listed or running any more, however it ended. */
  lemma {:induction false} PassUnlists(s: State, due: seq<Key>, i: nat, now: int, nodes: set<string>,
                                       outcomes: seq<Invocation>, last: State, raised: bool)
    requires i <= |due| == |outcomes| && multiset(due[i..]) <= s.listed
    requires Remaining(s, due, i, now, nodes, outcomes, last, raised)
    ensures last.listed == s.listed - multiset(due[i..]) && last.running == s.running
    decreases |due| - i
  {
    if i < |due| {
      assert due[i..][0] == due[i] && due[i..][1..] == due[i + 1..];
      UnlistHead(s.listed, due[i..]);
      var after := AfterOne(s, due[i], now, nodes, outcomes[i]);
      AfterOneListed(s, due[i], now, nodes, outcomes[i]);
      if PassOne(s, due[i], now, nodes, outcomes[i]).raised {
        AbortUnlists(s, after, due[i], due[i + 1..]);
      } else {
        PassUnlists(after, due, i + 1, now, nodes, outcomes, last, raised);
      }
    }
  }

  lemma AbortUnlists(s: State, after: State, key: Key, rest: seq<Key>)
    requires after.running == s.running + multiset{key}
    ensures Apply(after, Abort(key, rest)).listed == after.listed - multiset(rest)
    ensures Apply(after, Abort(key, rest)).running == s.running
  {
    assert (s.running + multiset{key}) - multiset{key} == s.running;
  }

  class RetryStore {
    var records: map<Key, Record>
    var events: seq<Event>
    ghost var listed: multiset<Key>
    ghost var handlers: seq<Handler>
    ghost var running: multiset<Key>

    ghost function Contents(): State
      reads this
    {
      State(records, events, listed, handlers, running)
    }

    constructor ()
      ensures Contents() == EMPTY
    {
      records, events, listed, handlers, running := map[], [], multiset{}, [], multiset{};
    }

    method UpdateStatus(key: Key, status: Status, nextAttempt: Option<int>, claimedAt: Update<Option<int>>,
                        completedAt: Update<Option<int>>, error: Update<Reason>)
      returns (r: Option<Record>)
      modifies this
      ensures Contents() == WithStatus(old(Contents()), key, status, nextAttempt, claimedAt, completedAt, error)
      ensures r == if key in records then Some(records[key]) else None
    {
      if key !in records {
        return None;
      }
      var record := records[key].(status := status, nextAttempt := nextAttempt);
      if claimedAt.Set? {
        record := record.(claimedAt := claimedAt.value);
      }
      if completedAt.Set? {
        record := record.(completedAt := completedAt.value);
      }
      if error.Set? {
        record := record.(error := error.value);
      }
      records := records[key := record];
      r := Some(record);
    }

    /** The write-back of a record that the pass had claimed. */
    method WriteBack(key: Key, status: Status, claimedAt: Update<Option<int>>, completedAt: Update<Option<int>>,
                     error: Update<Reason>)
      modifies this
      ensures Contents() == WithStatus(Ended(old(Contents()), key), key, status, None, claimedAt, completedAt, error)
    {
      running := running - multiset{key};
      var _ := UpdateStatus(key, status, None, claimedAt, completedAt, error);
    }

    method ClaimAgentTaskRetry(key: Key, now: int) returns (r: Option<Record>)
      requires key in listed
      modifies this
      ensures Contents() == Apply(old(Contents()), Claim(key, now))
      ensures r.Some? <==> Claimable(old(Contents()), key)
      ensures r.Some? ==> key in records && r.value == records[key]
    {
      listed := listed - multiset{key};
      if key !in records || records[key].status != Pending {
        return None;
      }
      records := records[key := records[key].(status := Claimed, claimedAt := Some(now))];
      running := running + multiset{key};
      r := Some(records[key]);
    }

    /** Records a failure, uninterrupted, and answers whether it is deferred. */
    method HandleFailedPromptInvocation(f: Fault) returns (deferred: bool)
      modifies this
      ensures Contents() == Run(old(Contents()), FailureSteps(old(Contents()), f))
      ensures deferred <==> Grants(f, Attempts(old(Contents()), f.TaskKey()))
    {
      var key := f.TaskKey();
      ghost var handler := |handlers|;
      deferred := false;
      FailureRun(Contents(), f);
      if f.failure == TerminalFailure {
        events := events + [Event(key, f.failure, false)];
        return;
      }
      var prior := if key in records then records[key].attempts else 0;
      handlers := handlers + [HasRead(f, prior, false)];
      var decision := ComputeRetryDecision(prior, f.failure, f.now, f.reset);
      deferred := decision.Retry?;
      records := records[key := Record(f.node, f.session, f.failure, if deferred then Pending else Exhausted, prior + 1,
                                       if deferred then Some(decision.nextAttempt) else None, Some(f.session), f.error,
                                       None, if deferred then None else Some(f.now))];
      handlers := AfterWrite(handlers, handler);
      events := events + [Event(key, f.failure, true)];
      handlers := handlers[handler := Finished];
    }

    method RetryTaskNow(key: Key, now: int) returns (found: bool)
      modifies this
      ensures Contents() == Apply(old(Contents()), RetryNow(key, now)) && (found <==> key in old(records))
    {
      var r := UpdateStatus(key, Pending, Some(now), Set(None), Set(None), Unset);
      found := r.Some?;
    }

    method CancelRetry(key: Key, now: int) returns (found: bool)
      modifies this
      ensures Contents() == Apply(old(Contents()), Cancel(key, now)) && (found <==> key in old(records))
    {
      var r := UpdateStatus(key, Cancelled, None, Set(None), Set(Some(now)), Unset);
      found := r.Some?;
    }

    /** One due record: claim it, run the retry, write the outcome back. */
    method ProcessOne(key: Key, now: int, nodes: set<string>, outcome: Invocation) returns (raised: bool)
      requires key in listed
      modifies this
      ensures Contents() == AfterOne(old(Contents()), key, now, nodes, outcome)
      ensures raised == PassOne(old(Contents()), key, now, nodes, outcome).raised
    {
      raised := false;
      var claimed := ClaimAgentTaskRetry(key, now);
      if claimed.None? {
        return;
      }
      RaisesIff(old(Contents()), key, now, nodes, outcome);
      raised := HandleClaimed(key, claimed.value, now, nodes, outcome);
    }

    /** A claimed record: give it up, or run the retry. */
    method HandleClaimed(key: Key, record: Record, now: int, nodes: set<string>, outcome: Invocation)
      returns (raised: bool)
      requires record.claimedAt == Some(now) && key in running
      modifies this
      ensures Contents() == AfterClaimed(old(Contents()), key, record, now, nodes, outcome)
      ensures raised == Raises(old(Contents()), record, nodes, outcome)
    {
      raised := false;
      if record.node !in nodes {
        WriteBack(key, Terminated, Set(Some(now)), Set(Some(now)), Set(NodeNotFound));
        return;
      }
      if record.error.NoReason? && record.payload.None? {
        WriteBack(key, Terminated, Set(Some(now)), Set(Some(now)), Set(NothingToResume));
        return;
      }
      raised := InvokeRetry(key, record, now, outcome);
    }

    /** Runs the retry and writes its outcome back. */
    method InvokeRetry(key: Key, record: Record, now: int, outcome: Invocation) returns (raised: bool)
      requires record.claimedAt == Some(now) && key in running
      modifies this
      ensures Contents() == AfterInvocation(old(Contents()), key, record, now, outcome)
      ensures raised <==> outcome.Broken? || (outcome.Fails? && !Retried(old(Contents()), record, outcome))
    {
      raised := false;
      match outcome
      case Done(at) =>
        WriteBack(key, Completed, Set(record.claimedAt), Set(Some(at)), Unset);
      case Broken =>
        raised := true;
      case Fails(failure, at, reset, error) =>
        var fault := Fault(record.node, RetrySession(record), failure, at, reset, error);
        FailureRun(Contents(), fault);
        FailureKeepsListed(Contents(), fault);
        var deferred := HandleFailedPromptInvocation(fault);
        if deferred {
          WriteBack(key, Pending, Set(None), Unset, Unset);
        } else {
          raised := true;
        }
    }

    /** The records found due are taken one after the other. */
    method ProcessDueRetries(now: int, due: seq<Key>, nodes: set<string>, outcomes: seq<Invocation>)
      returns (raised: bool)
      requires DueList(Contents(), now, due) && |outcomes| == |due|
      modifies this
      ensures var start := Apply(old(Contents()), List(now, due));
              var pass := PassAll(start, due, now, nodes, outcomes);
              Contents() == Run(start, pass.actions) && raised == pass.raised
      ensures listed == old(listed) && running == old(running)
    {
      listed := listed + multiset(due);
      ghost var start := Contents();
      assert start == Apply(old(Contents()), List(now, due));
      ghost var pass := PassAll(start, due, now, nodes, outcomes);
      assert due[0..] == due && outcomes[0..] == outcomes;
      RemainingIsPass(start, due, 0, now, nodes, outcomes);
      PassUnlists(start, due, 0, now, nodes, outcomes, Run(start, pass.actions), pass.raised);
      raised := ProcessListed(now, due, nodes, outcomes, Run(start, pass.actions), pass.raised);
    }

    /** An exception ends the pass: it forgets what it had claimed and listed. */
    ghost method AbortPass(key: Key, rest: seq<Key>)
      modifies `listed, `running
      ensures Contents() == Apply(old(Contents()), Abort(key, rest))
    {
      listed := listed - multiset(rest);
      running := running - multiset{key};
    }

    method ProcessListed(now: int, due: seq<Key>, nodes: set<string>, outcomes: seq<Invocation>,
                         ghost last: State, ghost ends: bool)
      returns (raised: bool)
      requires |outcomes| == |due| && Remaining(Contents(), due, 0, now, nodes, outcomes, last, ends)
      modifies this
      ensures Contents() == last && raised == ends
    {
      raised := false;
      var i := 0;
      while i < |due|
        invariant 0 <= i <= |due| && !raised
        invariant Remaining(Contents(), due, i, now, nodes, outcomes, last, ends)
      {
        raised := ProcessOne(due[i], now, nodes, outcomes[i]);
        if raised {
          AbortPass(due[i], due[i + 1..]);
          return;
        }
        i := i + 1;
      }
    }
  }
}
