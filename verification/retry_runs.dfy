/** Retry records over whole runs: what is counted, what is granted, and what is
    forgotten. */
module RetryRuns {
  import opened Prelude
  import opened RetryPolicy
  import opened RetryScheduler
  import Directory

  // ---------------------------------------------------------------------
  // One record in one step
  // ---------------------------------------------------------------------

  predicate WritesKey(s: State, a: Action, key: Key) {
    a.Write? && MayWrite(s, a.handler) && ReadsKey(s.handlers[a.handler], key)
  }

  /** A status write that the step makes to a record. */
  function Restated(s: State, a: Action, r: Record): Record {
    match a
    case RetryNow(_, now) => Updated(r, Pending, Some(now), Set(None), Set(None), Unset)
    case Cancel(_, now) => Updated(r, Cancelled, None, Set(None), Set(Some(now)), Unset)
    case Claim(key, now) => if Claimable(s, key) then r.(status := Claimed, claimedAt := Some(now)) else r
    case Complete(key, claimedAt, now) =>
      if key in s.running then Updated(r, Completed, None, Set(claimedAt), Set(Some(now)), Unset) else r
    case DeferBack(key) => if key in s.running then Updated(r, Pending, None, Set(None), Unset, Unset) else r
    case GiveUp(key, now, error) =>
      if key in s.running then Updated(r, Terminated, None, Set(Some(now)), Set(Some(now)), Set(error)) else r
    case _ => r
  }

  predicate Names(a: Action, key: Key) {
    (a.RetryNow? || a.Cancel? || a.Claim? || a.Complete? || a.DeferBack? || a.GiveUp?) && a.key == key
  }

  /** The record of a task after a step. */
  function RecordAfter(s: State, a: Action, key: Key): Option<Record> {
    if WritesKey(s, a, key) then Some(FailedRecord(s.handlers[a.handler].fault, s.handlers[a.handler].prior))
    else if key !in s.records then None
    else Some(if Names(a, key) then Restated(s, a, s.records[key]) else s.records[key])
  }

  function RecordOf(s: State, key: Key): Option<Record> {
    if key in s.records then Some(s.records[key]) else None
  }

  lemma RecordAfterWriteBack(s: State, a: Action, key: Key)
    requires a.Complete? || a.DeferBack? || a.GiveUp?
    ensures RecordOf(Apply(s, a), key) == RecordAfter(s, a, key)
  {
  }

  lemma RecordAfterOperator(s: State, a: Action, key: Key)
    requires a.RetryNow? || a.Cancel?
    ensures RecordOf(Apply(s, a), key) == RecordAfter(s, a, key)
  {
  }

  lemma RecordAfterListing(s: State, a: Action, key: Key)
    requires a.List? || a.Claim? || a.Abort?
    ensures RecordOf(Apply(s, a), key) == RecordAfter(s, a, key)
  {
  }

  lemma RecordAfterFailure(s: State, a: Action, key: Key)
    requires a.Begin? || a.Write? || a.Log?
    ensures RecordOf(Apply(s, a), key) == RecordAfter(s, a, key)
  {
  }

  lemma RecordAfterStep(s: State, a: Action, key: Key)
    ensures RecordOf(Apply(s, a), key) == RecordAfter(s, a, key)
  {
    match a
    case Begin(_) => RecordAfterFailure(s, a, key);
    case Write(_) => RecordAfterFailure(s, a, key);
    case Log(_) => RecordAfterFailure(s, a, key);
    case RetryNow(_, _) => RecordAfterOperator(s, a, key);
    case Cancel(_, _) => RecordAfterOperator(s, a, key);
    case List(_, _) => RecordAfterListing(s, a, key);
    case Claim(_, _) => RecordAfterListing(s, a, key);
    case Abort(_, _) => RecordAfterListing(s, a, key);
    case _ => RecordAfterWriteBack(s, a, key);
  }

  /** Only a due key gets listed, only a claimed one gets to be running. */
  lemma ListedAfterStep(s: State, a: Action, key: Key)
    ensures key in Apply(s, a).listed ==> key in s.listed || (a.List? && Due(s, a.now, key))
    ensures key in Apply(s, a).running ==> key in s.running || (a.Claim? && a.key == key && Claimable(s, key))
  {
  }

  // ---------------------------------------------------------------------
  // Attempts are counted
  // ---------------------------------------------------------------------

  function LinkedEvents(events: seq<Event>, key: Key): nat {
    if events == [] then 0
    else
      var last := events[|events| - 1];
      LinkedEvents(events[..|events| - 1], key) + if last.linked && last.key == key then 1 else 0
  }

  lemma LinkedSnoc(events: seq<Event>, e: Event, key: Key)
    ensures LinkedEvents(events + [e], key) == LinkedEvents(events, key) + if e.linked && e.key == key then 1 else 0
  {
    assert (events + [e])[..|events|] == events;
  }

  /** The handlers that wrote a task's record and have not logged it yet. */
  ghost function Unlogged(handlers: seq<Handler>, key: Key): set<nat> {
    set h: nat | h < |handlers| && handlers[h].HasWritten? && handlers[h].fault.TaskKey() == key
  }

  /** The failures of a task so far: logged, and written but not yet logged. */
  ghost function Failures(s: State, key: Key): nat {
    LinkedEvents(s.events, key) + |Unlogged(s.handlers, key)|
  }

  ghost predicate Counted(s: State, key: Key) {
    Attempts(s, key) == Failures(s, key)
  }

  /** What a handler between read and write knows: less than there is, if it was
      overtaken or the count was already off. */
  ghost predicate ReadOk(s: State, key: Key, handler: Handler)
    requires handler.HasRead?
  {
    && handler.prior <= Failures(s, key)
    && (handler.overtaken || !Counted(s, key) ==> handler.prior < Failures(s, key))
    && (!handler.overtaken && Counted(s, key) ==> handler.prior == Attempts(s, key))
  }

  ghost predicate Consistent(s: State, key: Key) {
    && Attempts(s, key) <= Failures(s, key)
    && forall h :: 0 <= h < |s.handlers| && ReadsKey(s.handlers[h], key) ==> ReadOk(s, key, s.handlers[h])
  }

  /** The step is an overtaken handler's write. */
  predicate Disturbs(s: State, a: Action, key: Key) {
    a.Write? && MayWrite(s, a.handler) && ReadsKey(s.handlers[a.handler], key) && s.handlers[a.handler].overtaken
  }

  /** No other write to the task's record falls between a handler's read and its write. */
  ghost predicate Undisturbed(s: State, actions: seq<Action>, key: Key)
    decreases |actions|
  {
    actions == [] || (!Disturbs(s, actions[0], key) && Undisturbed(Apply(s, actions[0]), actions[1..], key))
  }

  /** A handler that nothing interrupts disturbs no task. */
  lemma UninterruptedIsUndisturbed(s: State, f: Fault, key: Key)
    ensures Undisturbed(s, FailureSteps(s, f), key)
  {
    var steps, h := FailureSteps(s, f), |s.handlers|;
    if !f.failure.TerminalFailure? {
      assert steps[1..] == [Write(h), Log(h)] && steps[1..][1..] == [Log(h)] && [Log(h)][1..] == [];
      assert Undisturbed(Written(Begun(s, f), h), [Log(h)], key);
    } else {
      assert steps[1..] == [];
    }
  }

  lemma WriteFailures(s: State, h: nat, key: Key)
    requires MayWrite(s, h)
    ensures Failures(Written(s, h), key) == Failures(s, key) + if ReadsKey(s.handlers[h], key) then 1 else 0
  {
    var before, after := Unlogged(s.handlers, key), Unlogged(Written(s, h).handlers, key);
    assert after == if ReadsKey(s.handlers[h], key) then before + {h} else before;
  }

  lemma LogFailures(s: State, h: nat, key: Key)
    requires MayLog(s, h)
    ensures Failures(Logged(s, h), key) == Failures(s, key)
  {
    var f := s.handlers[h].fault;
    var before, after := Unlogged(s.handlers, key), Unlogged(Logged(s, h).handlers, key);
    LinkedSnoc(s.events, Event(f.TaskKey(), f.failure, true), key);
    assert after == if f.TaskKey() == key then before - {h} else before;
  }

  lemma BeginFailures(s: State, f: Fault, key: Key)
    ensures Failures(Begun(s, f), key) == Failures(s, key)
  {
    LinkedSnoc(s.events, Event(f.TaskKey(), f.failure, false), key);
    assert Unlogged(Begun(s, f).handlers, key) == Unlogged(s.handlers, key);
  }

  lemma WriteCounts(s: State, h: nat, key: Key)
    requires Consistent(s, key) && MayWrite(s, h)
    ensures Consistent(Written(s, h), key)
    ensures Counted(Written(s, h), key) <==> Counted(s, key) && !Disturbs(s, Write(h), key)
  {
    WriteFailures(s, h, key);
    var after := Written(s, h);
    if ReadsKey(s.handlers[h], key) {
      assert ReadOk(s, key, s.handlers[h]);
      assert Attempts(after, key) == s.handlers[h].prior + 1;
      forall i | 0 <= i < |after.handlers| && ReadsKey(after.handlers[i], key)
        ensures ReadOk(after, key, after.handlers[i])
      {
        assert ReadOk(s, key, s.handlers[i]);
      }
    } else {
      SameReads(s, after, key);
    }
  }

  /** A step that changes neither a task's count nor its failures, and whose
      handlers read what they read before. */
  lemma SameReads(s: State, after: State, key: Key)
    requires Consistent(s, key) && Attempts(after, key) == Attempts(s, key) && Failures(after, key) == Failures(s, key)
    requires forall i :: 0 <= i < |after.handlers| && ReadsKey(after.handlers[i], key) ==>
               || (i < |s.handlers| && s.handlers[i] == after.handlers[i])
               || (!after.handlers[i].overtaken && after.handlers[i].prior == Attempts(s, key))
    ensures Consistent(after, key) && (Counted(after, key) <==> Counted(s, key))
  {
    forall i | 0 <= i < |after.handlers| && ReadsKey(after.handlers[i], key)
      ensures ReadOk(after, key, after.handlers[i])
    {
      assert i < |s.handlers| && s.handlers[i] == after.handlers[i] ==> ReadOk(s, key, s.handlers[i]);
    }
  }

  lemma OtherStepFacts(s: State, a: Action, key: Key)
    requires !a.Begin? && !a.Write? && !a.Log?
    ensures var after := Apply(s, a);
            Attempts(after, key) == Attempts(s, key) && after.events == s.events && after.handlers == s.handlers
  {
    RecordAfterStep(s, a, key);
    AttemptsOfRecord(s, a, key);
    OtherStepKeeps(s, a);
  }

  lemma AttemptsOfRecord(s: State, a: Action, key: Key)
    requires !a.Write?
    ensures RecordAfter(s, a, key).Some? <==> key in s.records
    ensures key in s.records ==> RecordAfter(s, a, key).value.attempts == s.records[key].attempts
  {
  }

  lemma OtherStepKeeps(s: State, a: Action)
    requires !a.Begin? && !a.Write? && !a.Log?
    ensures Apply(s, a).events == s.events && Apply(s, a).handlers == s.handlers
  {
  }

  lemma StepCounts(s: State, a: Action, key: Key)
    requires Consistent(s, key)
    ensures Consistent(Apply(s, a), key)
    ensures Counted(Apply(s, a), key) <==> Counted(s, key) && !Disturbs(s, a, key)
  {
    if a.Begin? {
      BeginFailures(s, a.fault, key);
      SameReads(s, Begun(s, a.fault), key);
    } else if a.Write? {
      if MayWrite(s, a.handler) { WriteCounts(s, a.handler, key); }
    } else if a.Log? {
      if MayLog(s, a.handler) {
        LogFailures(s, a.handler, key);
        SameReads(s, Logged(s, a.handler), key);
      }
    } else {
      OtherStepFacts(s, a, key);
      SameReads(s, Apply(s, a), key);
    }
  }

  lemma {:induction false} RunStaysConsistent(s: State, actions: seq<Action>, key: Key)
    requires Consistent(s, key)
    ensures Consistent(Run(s, actions), key)
    ensures Counted(Run(s, actions), key) <==> Counted(s, key) && Undisturbed(s, actions, key)
    decreases |actions|
  {
    if actions != [] {
      StepCounts(s, actions[0], key);
      RunStaysConsistent(Apply(s, actions[0]), actions[1..], key);
    }
  }

  lemma EmptyIsConsistent(key: Key)
    ensures Consistent(EMPTY, key) && Counted(EMPTY, key)
  {
    assert Unlogged(EMPTY.handlers, key) == {};
  }

  /** Over every run of handlers, scheduler passes and operators, interleaved in
      any way: a task's attempt count is the number of its failures, logged or
      about to be, if and only if no handler's write of the task's record was
      overtaken. Once off, it stays off. */
  lemma AttemptsAreCountedIff(actions: seq<Action>, key: Key)
    ensures Counted(Run(EMPTY, actions), key) <==> Undisturbed(EMPTY, actions, key)
  {
    EmptyIsConsistent(key);
    RunStaysConsistent(EMPTY, actions, key);
  }

  // ---------------------------------------------------------------------
  // Deferrals are bounded
  // ---------------------------------------------------------------------

  function FailureOf(f: Fault): Failure {
    Failure(f.failure, f.now, f.reset)
  }

  /** The delay a step grants a task, if it grants it another attempt. */
  function GrantedBy(s: State, a: Action, key: Key): seq<int> {
    if !WritesKey(s, a, key) then []
    else
      var f := s.handlers[a.handler].fault;
      var decision := ComputeRetryDecision(s.handlers[a.handler].prior, f.failure, f.now, f.reset);
      if decision.Retry? then [decision.delay] else []
  }

  /** The failure of a task that a step records. */
  function FailureBy(s: State, a: Action, key: Key): seq<Failure> {
    if WritesKey(s, a, key) then [FailureOf(s.handlers[a.handler].fault)]
    else if a.Begin? && a.fault.failure.TerminalFailure? && a.fault.TaskKey() == key then [FailureOf(a.fault)]
    else []
  }

  /** The delays a run grants a task. */
  ghost function Granted(s: State, actions: seq<Action>, key: Key): seq<int>
    decreases |actions|
  {
    if actions == [] then [] else GrantedBy(s, actions[0], key) + Granted(Apply(s, actions[0]), actions[1..], key)
  }

  ghost function FailuresIn(s: State, actions: seq<Action>, key: Key): seq<Failure>
    decreases |actions|
  {
    if actions == [] then [] else FailureBy(s, actions[0], key) + FailuresIn(Apply(s, actions[0]), actions[1..], key)
  }

  lemma ChainStep(f: Failure, rest: seq<Failure>, attempts: nat)
    ensures ChainDelays([f] + rest, attempts)
         == (var decision := ComputeRetryDecision(attempts, f.failure, f.now, f.reset);
             if decision.Retry? then [decision.delay] else []) + ChainDelays(rest, NextAttempts(f, attempts))
  {
    assert ([f] + rest)[1..] == rest;
  }

  /** Reads in progress are of non-terminal failures. */
  ghost predicate Countable(s: State) {
    forall h :: 0 <= h < |s.handlers| && s.handlers[h].HasRead? ==> !s.handlers[h].fault.failure.TerminalFailure?
  }

  lemma StepGrants(s: State, a: Action, key: Key)
    requires Consistent(s, key) && Counted(s, key) && Countable(s) && !Disturbs(s, a, key)
    ensures Countable(Apply(s, a))
    ensures FailureBy(s, a, key) == [] ==>
              GrantedBy(s, a, key) == [] && Attempts(Apply(s, a), key) == Attempts(s, key)
    ensures FailureBy(s, a, key) != [] ==>
              var f := FailureBy(s, a, key)[0];
              var decision := ComputeRetryDecision(Attempts(s, key), f.failure, f.now, f.reset);
              && FailureBy(s, a, key) == [f]
              && GrantedBy(s, a, key) == (if decision.Retry? then [decision.delay] else [])
              && Attempts(Apply(s, a), key) == NextAttempts(f, Attempts(s, key))
  {
    if WritesKey(s, a, key) {
      assert ReadOk(s, key, s.handlers[a.handler]);
    } else if !a.Begin? && !a.Write? && !a.Log? {
      OtherStepFacts(s, a, key);
    }
  }

  /** In a run that leaves a task's handlers undisturbed, the delays granted to
      the task are those of one chain of its failures. */
  lemma {:induction false} GrantedIsChain(s: State, actions: seq<Action>, key: Key)
    requires Consistent(s, key) && Counted(s, key) && Countable(s) && Undisturbed(s, actions, key)
    ensures Granted(s, actions, key) == ChainDelays(FailuresIn(s, actions, key), Attempts(s, key))
    ensures |Granted(s, actions, key)|
         == Min(Attempts(Run(s, actions), key), MAX_ATTEMPTS) - Min(Attempts(s, key), MAX_ATTEMPTS)
    ensures Attempts(Run(s, actions), key) >= Attempts(s, key)
    decreases |actions|
  {
    if actions != [] {
      var a, next := actions[0], Apply(s, actions[0]);
      var rest := FailuresIn(next, actions[1..], key);
      StepCounts(s, a, key);
      StepGrants(s, a, key);
      GrantedIsChain(next, actions[1..], key);
      if FailureBy(s, a, key) == [] {
        assert [] + rest == rest && [] + Granted(next, actions[1..], key) == Granted(next, actions[1..], key);
      } else {
        ChainStep(FailureBy(s, a, key)[0], rest, Attempts(s, key));
      }
    }
  }

  /** Unless its handlers overtake one another, a task is granted at most eight
      retries over every run, and their delays total at most 8 days. */
  lemma AtMostEightDeferrals(actions: seq<Action>, key: Key)
    requires Undisturbed(EMPTY, actions, key)
    ensures |Granted(EMPTY, actions, key)| <= MAX_ATTEMPTS
    ensures Sum(Granted(EMPTY, actions, key)) <= 8 * DAY_SECONDS
  {
    EmptyIsConsistent(key);
    GrantedIsChain(EMPTY, actions, key);
    ChainTotal(FailuresIn(EMPTY, actions, key));
  }

  // Handlers that overlap are all granted a retry.

  /** `n` handlers of one failure start, then the handlers from `first` on write. */
  function Overlapping(n: nat, first: nat, last: nat, f: Fault): seq<Action>
    decreases n + Max(last - first, 0)
  {
    if n > 0 then [Begin(f)] + Overlapping(n - 1, first, last, f)
    else if first < last then [Write(first)] + Overlapping(0, first + 1, last, f)
    else []
  }

  /** From `first` on, all handlers have read `prior` attempts for the failure. */
  ghost predicate AllRead(handlers: seq<Handler>, first: nat, f: Fault, prior: nat) {
    forall h :: first <= h < |handlers| ==>
      handlers[h].HasRead? && handlers[h].fault == f && handlers[h].prior == prior
  }

  lemma {:induction false} WritesGrantAll(s: State, first: nat, f: Fault, prior: nat)
    requires first <= |s.handlers| && AllRead(s.handlers, first, f, prior) && Grants(f, prior)
    ensures |Granted(s, Overlapping(0, first, |s.handlers|, f), f.TaskKey())| == |s.handlers| - first
    decreases |s.handlers| - first
  {
    if first < |s.handlers| {
      var rest := Overlapping(0, first + 1, |s.handlers|, f);
      assert ([Write(first)] + rest)[1..] == rest;
      WritesGrantAll(Written(s, first), first + 1, f, prior);
    }
  }

  lemma {:induction false} BeginsThenWrites(s: State, n: nat, f: Fault)
    requires AllRead(s.handlers, 0, f, Attempts(s, f.TaskKey())) && Grants(f, Attempts(s, f.TaskKey()))
    ensures |Granted(s, Overlapping(n, 0, |s.handlers| + n, f), f.TaskKey())| == |s.handlers| + n
    decreases n
  {
    if n == 0 {
      WritesGrantAll(s, 0, f, Attempts(s, f.TaskKey()));
    } else {
      var rest := Overlapping(n - 1, 0, |s.handlers| + n, f);
      assert ([Begin(f)] + rest)[1..] == rest;
      BeginsThenWrites(Begun(s, f), n - 1, f);
    }
  }

  /** If they all read before the first writes, any number of handlers of one task
      is granted a retry each: nine, say, where eight is the limit. */
  lemma OverlappingHandlersAllDefer(n: nat, f: Fault)
    requires !f.failure.TerminalFailure?
    ensures |Granted(EMPTY, Overlapping(n, 0, n, f), f.TaskKey())| == n
  {
    BeginsThenWrites(EMPTY, n, f);
  }

  // ---------------------------------------------------------------------
  // Claims alternate with write-backs
  // ---------------------------------------------------------------------

  ghost predicate StatusIs(s: State, key: Key, status: Status) {
    key in s.records && s.records[key].status == status
  }

  ghost predicate Claims(s: State, a: Action, key: Key) {
    a.Claim? && a.key == key && Claimable(s, key)
  }

  /** A step that makes a record pending that was not. */
  ghost predicate WritesBack(s: State, a: Action, key: Key) {
    !StatusIs(s, key, Pending) && StatusIs(Apply(s, a), key, Pending)
  }

  /** Between two claims of a record it was written back to pending. */
  lemma {:induction false} WrittenBackBetweenClaims(s: State, between: seq<Action>, key: Key, first: Action,
                                                    second: Action)
    requires Claims(s, first, key) && Claims(Run(Apply(s, first), between), second, key)
    ensures exists k :: 0 <= k < |between| && WritesBack(Run(Apply(s, first), between[..k]), between[k], key)
  {
    assert StatusIs(Apply(s, first), key, Claimed);
    var k := BecomesPending(Apply(s, first), between, key);
  }

  lemma {:induction false} BecomesPending(s: State, actions: seq<Action>, key: Key) returns (k: nat)
    requires !StatusIs(s, key, Pending) && StatusIs(Run(s, actions), key, Pending)
    ensures k < |actions| && WritesBack(Run(s, actions[..k]), actions[k], key)
    decreases |actions|
  {
    var next := Apply(s, actions[0]);
    if StatusIs(next, key, Pending) {
      k := 0;
      assert actions[..0] == [];
    } else {
      var j := BecomesPending(next, actions[1..], key);
      k := j + 1;
      assert actions[..k][0] == actions[0] && actions[..k][1..] == actions[1..][..j];
    }
  }

  // ---------------------------------------------------------------------
  // Pending is not always scheduled
  // ---------------------------------------------------------------------

  ghost predicate Scheduled(s: State) {
    forall key :: StatusIs(s, key, Pending) ==> s.records[key].nextAttempt.Some?
  }

  /** A step keeps every pending record scheduled unless it is the scheduler's
      write after a retry was deferred again. */
  lemma ScheduledIff(s: State, a: Action)
    requires Scheduled(s)
    ensures Scheduled(Apply(s, a)) <==> !(a.DeferBack? && a.key in s.running && a.key in s.records)
  {
    forall key ensures RecordOf(Apply(s, a), key) == RecordAfter(s, a, key) {
      RecordAfterStep(s, a, key);
    }
    ScheduledByRecords(s, a, Apply(s, a));
  }

  lemma ScheduledByRecords(s: State, a: Action, after: State)
    requires Scheduled(s) && forall key :: RecordOf(after, key) == RecordAfter(s, a, key)
    ensures Scheduled(after) <==> !(a.DeferBack? && a.key in s.running && a.key in s.records)
  {
    if a.DeferBack? && a.key in s.running && a.key in s.records {
      assert RecordOf(after, a.key) == RecordAfter(s, a, a.key);
      assert StatusIs(after, a.key, Pending);
    } else {
      forall key | StatusIs(after, key, Pending) ensures after.records[key].nextAttempt.Some? {
        assert RecordOf(after, key) == RecordAfter(s, a, key);
        assert key in s.records && !WritesKey(s, a, key) && !Names(a, key) ==> StatusIs(s, key, Pending);
      }
    }
  }

  /** Not claimed, not listed, and not due at any time. */
  ghost predicate Forgotten(s: State, key: Key) {
    && key in s.records && s.records[key].status != Claimed && key !in s.listed
    && (s.records[key].status.Pending? ==> s.records[key].nextAttempt.None?)
  }

  /** A new failure of the task, or an operator asking for it. */
  predicate Revives(s: State, a: Action, key: Key) {
    WritesKey(s, a, key) || (a.RetryNow? && a.key == key)
  }

  ghost predicate NeverRevived(s: State, actions: seq<Action>, key: Key)
    decreases |actions|
  {
    actions == [] || (!Revives(s, actions[0], key) && NeverRevived(Apply(s, actions[0]), actions[1..], key))
  }

  lemma {:induction false} ForgottenStays(s: State, actions: seq<Action>, key: Key)
    requires Forgotten(s, key) && NeverRevived(s, actions, key)
    ensures Forgotten(Run(s, actions), key)
    decreases |actions|
  {
    if actions != [] {
      StaysForgotten(s, actions[0], key);
      ForgottenStays(Apply(s, actions[0]), actions[1..], key);
    }
  }

  lemma StaysForgotten(s: State, a: Action, key: Key)
    requires Forgotten(s, key) && !Revives(s, a, key)
    ensures Forgotten(Apply(s, a), key)
  {
    RecordAfterStep(s, a, key);
    ListedAfterStep(s, a, key);
    ForgottenByRecord(s, a, Apply(s, a), key);
  }

  lemma ForgottenByRecord(s: State, a: Action, after: State, key: Key)
    requires Forgotten(s, key) && !Revives(s, a, key) && RecordOf(after, key) == RecordAfter(s, a, key)
    requires key in after.listed ==> key in s.listed || (a.List? && Due(s, a.now, key))
    ensures Forgotten(after, key)
  {
  }

  lemma DeferralLeaves(s: State, key: Key, now: int, nodes: set<string>, outcome: Invocation)
    requires Claimable(s, key) && DeferBack(key) in PassOne(s, key, now, nodes, outcome).actions
    ensures var after := AfterOne(s, key, now, nodes, outcome);
            StatusIs(after, key, Pending) && after.records[key].nextAttempt.None?
  {
    var claimed, f := Apply(s, Claim(key, now)), RetryFault(s.records[key], outcome);
    ClaimKeepsAttempts(s, key, now, f.TaskKey());
    FailureKeepsListed(claimed, f);
    FailureKeepsRecord(claimed, f, key);
    assert key in AfterFailure(claimed, f).running;
  }

  lemma FailureKeepsRecord(s: State, f: Fault, key: Key)
    requires key in s.records
    ensures key in AfterFailure(s, f).records
  {
  }

  /** A scheduled retry that is deferred again is granted a next attempt and then
      forgotten: no scheduler pass, however late, claims it before the task fails
      anew or an operator asks for it. */
  lemma DeferredRetryIsForgotten(s: State, key: Key, now: int, nodes: set<string>, outcome: Invocation,
                                 later: seq<Action>)
    requires Claimable(s, key) && s.listed[key] == 1
    requires DeferBack(key) in PassOne(s, key, now, nodes, outcome).actions
    requires NeverRevived(Run(s, PassOne(s, key, now, nodes, outcome).actions), later, key)
    ensures var after := Run(s, PassOne(s, key, now, nodes, outcome).actions);
            StatusIs(after, key, Pending) && after.records[key].nextAttempt.None? && Forgotten(Run(after, later), key)
  {
    var actions := PassOne(s, key, now, nodes, outcome).actions;
    AfterOneIsRun(s, key, now, nodes, outcome);
    AfterOneListed(s, key, now, nodes, outcome);
    DeferralLeaves(s, key, now, nodes, outcome);
    ForgottenStays(Run(s, actions), later, key);
  }

  // ---------------------------------------------------------------------
  // Claimed records that no pass returns to
  // ---------------------------------------------------------------------

  /** Claimed, though no pass is dealing with it. */
  ghost predicate Stranded(s: State, key: Key) {
    StatusIs(s, key, Claimed) && key !in s.running
  }

  /** A new failure of the task, or an operator acting on it. */
  predicate Rescues(s: State, a: Action, key: Key) {
    Revives(s, a, key) || (a.Cancel? && a.key == key)
  }

  ghost predicate NeverRescued(s: State, actions: seq<Action>, key: Key)
    decreases |actions|
  {
    actions == [] || (!Rescues(s, actions[0], key) && NeverRescued(Apply(s, actions[0]), actions[1..], key))
  }

  lemma StaysStranded(s: State, a: Action, key: Key)
    requires Stranded(s, key) && !Rescues(s, a, key)
    ensures Stranded(Apply(s, a), key) && !Claims(s, a, key) && forall now :: !Due(s, now, key)
  {
    RecordAfterStep(s, a, key);
    ListedAfterStep(s, a, key);
    StrandedByRecord(s, a, Apply(s, a), key);
  }

  lemma StrandedByRecord(s: State, a: Action, after: State, key: Key)
    requires Stranded(s, key) && !Rescues(s, a, key) && RecordOf(after, key) == RecordAfter(s, a, key)
    requires key in after.running ==> key in s.running || (a.Claim? && a.key == key && Claimable(s, key))
    ensures Stranded(after, key)
  {
  }

  lemma {:induction false} StrandedStays(s: State, actions: seq<Action>, key: Key)
    requires Stranded(s, key) && NeverRescued(s, actions, key)
    ensures Stranded(Run(s, actions), key) && forall now :: !Due(Run(s, actions), now, key)
    decreases |actions|
  {
    if actions != [] {
      StaysStranded(s, actions[0], key);
      StrandedStays(Apply(s, actions[0]), actions[1..], key);
    }
  }

  /** How an exception leaves the record it was raised for. */
  lemma RaisedRecord(s: State, key: Key, now: int, nodes: set<string>, outcome: Invocation)
    requires PassOne(s, key, now, nodes, outcome).raised
    ensures Claimable(s, key) && (outcome.Broken? || outcome.Fails?)
    ensures StatusIs(AfterOne(s, key, now, nodes, outcome), key, Claimed) <==>
              || outcome.Broken? || outcome.failure.TerminalFailure?
              || RetryFault(s.records[key], outcome).TaskKey() != key
  {
    if outcome.Fails? {
      var claimed, f := Apply(s, Claim(key, now)), RetryFault(s.records[key], outcome);
      ClaimKeepsAttempts(s, key, now, f.TaskKey());
      FailureRecord(claimed, f, key);
    }
  }

  lemma FailureRecord(s: State, f: Fault, key: Key)
    requires key in s.records
    ensures key in AfterFailure(s, f).records
    ensures AfterFailure(s, f).records[key]
         == if f.failure.TerminalFailure? || f.TaskKey() != key then s.records[key]
            else FailedRecord(f, Attempts(s, key))
  {
  }

  /** An exception that ends a pass leaves the record it was raised for claimed
      exactly when the invocation broke, failed for good, or counted as another
      task's; and then no pass, however late, finds it due or claims it before the
      task fails anew or an operator acts. */
  lemma AbortedRetryIsStranded(s: State, key: Key, now: int, nodes: set<string>, outcome: Invocation, rest: seq<Key>,
                               later: seq<Action>)
    requires PassOne(s, key, now, nodes, outcome).raised && key !in s.running
    ensures Claimable(s, key) && (outcome.Broken? || outcome.Fails?)
    ensures var after := Apply(Run(s, PassOne(s, key, now, nodes, outcome).actions), Abort(key, rest));
            && (Stranded(after, key) <==>
                  || outcome.Broken? || outcome.failure.TerminalFailure?
                  || RetryFault(s.records[key], outcome).TaskKey() != key)
            && (Stranded(after, key) && NeverRescued(after, later, key) ==>
                  Stranded(Run(after, later), key) && forall at :: !Due(Run(after, later), at, key))
  {
    var one := AfterOne(s, key, now, nodes, outcome);
    AfterOneIsRun(s, key, now, nodes, outcome);
    AfterOneListed(s, key, now, nodes, outcome);
    RaisedRecord(s, key, now, nodes, outcome);
    var after := Apply(one, Abort(key, rest));
    assert after.records == one.records && key !in after.running;
    if Stranded(after, key) && NeverRescued(after, later, key) {
      StrandedStays(after, later, key);
    }
  }

  // ---------------------------------------------------------------------
  // A retry runs under its own key
  // ---------------------------------------------------------------------

  /** Records sit under the key of the invocation that failed. */
  ghost predicate Keyed(s: State) {
    forall key :: key in s.records ==>
      var r := s.records[key]; key == Key(r.node, r.session) && r.payload == Some(r.session)
  }

  lemma StepKeepsKeyed(s: State, a: Action)
    requires Keyed(s)
    ensures Keyed(Apply(s, a))
  {
    var after := Apply(s, a);
    forall key | key in after.records
      ensures var r := after.records[key]; key == Key(r.node, r.session) && r.payload == Some(r.session)
    {
      RecordAfterStep(s, a, key);
      KeyedByRecord(s, a, key);
    }
  }

  lemma KeyedByRecord(s: State, a: Action, key: Key)
    requires Keyed(s) && RecordAfter(s, a, key).Some?
    ensures var r := RecordAfter(s, a, key).value; key == Key(r.node, r.session) && r.payload == Some(r.session)
  {
  }

  lemma {:induction false} RunKeepsKeyed(s: State, actions: seq<Action>)
    requires Keyed(s)
    ensures Keyed(Run(s, actions))
    decreases |actions|
  {
    if actions != [] {
      StepKeepsKeyed(s, actions[0]);
      RunKeepsKeyed(Apply(s, actions[0]), actions[1..]);
    }
  }

  /** After any run from an empty store, a retry counts against its own record
      exactly when the session has a name; it runs in that session, or in a common one. */
  lemma RetryKeyIff(actions: seq<Action>, key: Key)
    requires key in Run(EMPTY, actions).records
    ensures var r := Run(EMPTY, actions).records[key];
            && (Key(r.node, RetrySession(r)) == key <==> key.session != "")
            && RetrySession(r) == if key.session != "" then key.session else "cli:retry"
  {
    RunKeepsKeyed(EMPTY, actions);
    assert |"cli:retry"| == 9;
  }

  /** Tasks of nodes with generated ids are stored under different texts. */
  lemma KeyTextInjective(a: Key, b: Key)
    requires Directory.LooksLikeUuid(a.node) && Directory.LooksLikeUuid(b.node) && KeyText(a) == KeyText(b)
    ensures a == b
  {
    var n := |"invoke_prompt:"|;
    assert a.node == KeyText(a)[n..n + 36] && b.node == KeyText(b)[n..n + 36];
    assert a.session == KeyText(a)[n + 37..] && b.session == KeyText(b)[n + 37..];
  }
}
