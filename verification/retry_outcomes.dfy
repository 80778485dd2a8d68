/** What becomes of a record: after a failure, after a retry, after an operator. */
module RetryOutcomes {
  import opened Prelude
  import opened RetryPolicy
  import opened RetryScheduler
  import opened RetryRuns

  // ---------------------------------------------------------------------
  // After a failure
  // ---------------------------------------------------------------------

  /** What a failure leaves in the record of its task. */
  predicate Records(r: Record, f: Fault, prior: nat) {
    && r.node == f.node && r.session == f.session && r.payload == Some(f.session) && r.failure == f.failure
    && r.error == f.error && r.attempts == prior + 1 && r.claimedAt == None
    && if prior >= 8 then r.status == Exhausted && r.nextAttempt == None && r.completedAt == Some(f.now)
       else
         && r.status == Pending && r.completedAt == None && r.nextAttempt.Some?
         && (r.nextAttempt.value - f.now) % SECOND == 0 && r.nextAttempt.value >= f.now + 60 * SECOND
         && DelayOf(prior, f.failure, f.now, f.reset, (r.nextAttempt.value - f.now) / SECOND)
  }

  lemma FailedRecords(f: Fault, prior: nat)
    requires !f.failure.TerminalFailure?
    ensures Records(FailedRecord(f, prior), f, prior)
  {
    GrantedIff(prior, f.failure, f.now, f.reset);
  }

  /** A failure that nothing interrupts says in its task's record what went wrong,
      counts it, and leaves it pending for its delay, or exhausted after the eighth;
      a terminal one leaves every record alone. Either way it is logged. */
  lemma FailureIsRecorded(s: State, f: Fault)
    ensures var key, after := f.TaskKey(), AfterFailure(s, f);
            && (if f.failure.TerminalFailure? then after.records == s.records
                else
                  && after.records.Keys == s.records.Keys + {key}
                  && Records(after.records[key], f, Attempts(s, key))
                  && forall other :: other in s.records && other != key ==> after.records[other] == s.records[other])
            && after.events == s.events + [Event(key, f.failure, !f.failure.TerminalFailure?)]
  {
    if !f.failure.TerminalFailure? { FailedRecords(f, Attempts(s, f.TaskKey())); }
  }

  /** Whatever the record's status becomes, no attempt is scheduled before an instant. */
  ghost predicate NotBefore(s: State, key: Key, t: int) {
    key in s.records && (s.records[key].status.Pending? && s.records[key].nextAttempt.Some? ==>
                           s.records[key].nextAttempt.value >= t)
  }

  lemma StaysNotBefore(s: State, a: Action, key: Key, t: int)
    requires NotBefore(s, key, t) && !Revives(s, a, key)
    ensures NotBefore(Apply(s, a), key, t)
  {
    RecordAfterStep(s, a, key);
    NotBeforeByRecord(s, a, Apply(s, a), key, t);
  }

  lemma NotBeforeByRecord(s: State, a: Action, after: State, key: Key, t: int)
    requires NotBefore(s, key, t) && !Revives(s, a, key) && RecordOf(after, key) == RecordAfter(s, a, key)
    ensures NotBefore(after, key, t)
  {
  }

  lemma {:induction false} NotBeforeStays(s: State, actions: seq<Action>, key: Key, t: int)
    requires NotBefore(s, key, t) && NeverRevived(s, actions, key)
    ensures NotBefore(Run(s, actions), key, t)
    decreases |actions|
  {
    if actions != [] {
      StaysNotBefore(s, actions[0], key, t);
      NotBeforeStays(Apply(s, actions[0]), actions[1..], key, t);
    }
  }

  /** After a failure handler's write, however the handlers and passes interleave: the
      task is not due before the granted delay is over, at least a minute after the
      failure, unless it fails anew or an operator asks for it. */
  lemma NotDueBeforeDelay(s: State, h: nat, later: seq<Action>, at: int)
    requires MayWrite(s, h) && Grants(s.handlers[h].fault, s.handlers[h].prior)
    requires NeverRevived(Written(s, h), later, s.handlers[h].fault.TaskKey())
    ensures var f := s.handlers[h].fault;
            var granted := ComputeRetryDecision(s.handlers[h].prior, f.failure, f.now, f.reset).delay;
            Due(Run(Written(s, h), later), at, f.TaskKey()) ==> at >= f.now + granted * SECOND >= f.now + 60 * SECOND
  {
    var f := s.handlers[h].fault;
    var decision := ComputeRetryDecision(s.handlers[h].prior, f.failure, f.now, f.reset);
    GrantedIff(s.handlers[h].prior, f.failure, f.now, f.reset);
    NotBeforeStays(Written(s, h), later, f.TaskKey(), f.now + decision.delay * SECOND);
  }

  // ---------------------------------------------------------------------
  // After a retry
  // ---------------------------------------------------------------------

  /** How a claimed record's story ends without another failure: a vanished node or
      nothing to resume terminates it with that reason, a success completes it, and
      neither counts an attempt. */
  lemma RetryEnds(s: State, key: Key, now: int, nodes: set<string>, outcome: Invocation)
    requires Claimable(s, key)
    requires var r := s.records[key];
             outcome.Done? || r.node !in nodes || (r.error.NoReason? && r.payload.None?)
    ensures var before, after := s.records[key], AfterOne(s, key, now, nodes, outcome);
            && key in after.records
            && after.records[key]
               == if before.node !in nodes then GivenUp(before, now, NodeNotFound)
                  else if before.error.NoReason? && before.payload.None? then GivenUp(before, now, NothingToResume)
                  else before.(status := Completed, nextAttempt := None, claimedAt := Some(now),
                               completedAt := Some(outcome.now))
  {
    var claimed := Apply(s, Claim(key, now));
    assert key in claimed.running && claimed.records[key] == s.records[key].(status := Claimed, claimedAt := Some(now));
  }

  function GivenUp(before: Record, now: int, reason: Reason): Record {
    before.(status := Terminated, error := reason, nextAttempt := None, claimedAt := Some(now),
            completedAt := Some(now))
  }

  /** While a pass lists fewer than twenty records, it lists every one that is due. */
  lemma EveryDueIsListed(s: State, now: int, due: seq<Key>, key: Key)
    requires DueList(s, now, due) && |due| < 20 && Due(s, now, key)
    ensures key in due && key in Apply(s, List(now, due)).listed
  {
  }

  // ---------------------------------------------------------------------
  // After an operator
  // ---------------------------------------------------------------------

  /** Asking for a known task makes it due from that instant on, as if it had never
      been claimed or completed; no other task changes. */
  lemma RetryNowIsDue(s: State, key: Key, now: int, at: int)
    ensures var after := Apply(s, RetryNow(key, now));
            && (Due(after, at, key) <==> key in s.records && at >= now)
            && (key in s.records ==>
                  after.records[key] == s.records[key].(status := Pending, nextAttempt := Some(now), claimedAt := None,
                                                        completedAt := None))
            && forall other :: other != key ==> RecordOf(after, other) == RecordOf(s, other)
  {
  }

  /** Not pending, and no pass is about to write it back. */
  ghost predicate Settled(s: State, key: Key) {
    StatusIs(s, key, Cancelled) && key !in s.running
  }

  lemma StaysSettled(s: State, a: Action, key: Key)
    requires Settled(s, key) && !Revives(s, a, key)
    ensures Settled(Apply(s, a), key) && !Claims(s, a, key)
  {
    RecordAfterStep(s, a, key);
    ListedAfterStep(s, a, key);
    SettledByRecord(s, a, Apply(s, a), key);
  }

  lemma SettledByRecord(s: State, a: Action, after: State, key: Key)
    requires Settled(s, key) && !Revives(s, a, key) && RecordOf(after, key) == RecordAfter(s, a, key)
    requires key in after.running ==> key in s.running || (a.Claim? && a.key == key && Claimable(s, key))
    ensures Settled(after, key)
  {
  }

  lemma {:induction false} SettledStays(s: State, actions: seq<Action>, key: Key)
    requires Settled(s, key) && NeverRevived(s, actions, key)
    ensures Settled(Run(s, actions), key)
    decreases |actions|
  {
    if actions != [] {
      StaysSettled(s, actions[0], key);
      SettledStays(Apply(s, actions[0]), actions[1..], key);
    }
  }

  lemma OneStep(s: State, a: Action, key: Key)
    requires !Revives(s, a, key)
    ensures NeverRevived(s, [a], key) && Run(s, [a]) == Apply(s, a)
  {
    assert [a][1..] == [];
    assert NeverRevived(Apply(s, a), [], key);
    RunOne(s, a);
  }

  lemma DeferredAfterCancel(s: State, key: Key, now: int)
    requires key in s.records && key in s.running
    ensures !StatusIs(Apply(Apply(s, Cancel(key, now)), DeferBack(key)), key, Cancelled)
  {
  }

  /** A cancelled task is never due again before it fails anew or is asked for; and it
      stays cancelled, over every such run, if and only if no pass was running it when
      it was cancelled: the pass's write-back would overwrite the status. */
  lemma CancelledStaysIff(s: State, key: Key, now: int)
    requires key in s.records
    ensures var cancelled := Apply(s, Cancel(key, now));
            && cancelled.records[key] == s.records[key].(status := Cancelled, nextAttempt := None, claimedAt := None,
                                                         completedAt := Some(now))
            && (forall later, at :: NeverRevived(cancelled, later, key) ==> !Due(Run(cancelled, later), at, key))
            && (key !in s.running <==>
                  forall later :: NeverRevived(cancelled, later, key) ==>
                    StatusIs(Run(cancelled, later), key, Cancelled))
  {
    var cancelled := Apply(s, Cancel(key, now));
    forall later, at | NeverRevived(cancelled, later, key) ensures !Due(Run(cancelled, later), at, key) {
      NotBeforeStays(cancelled, later, key, at + 1);
    }
    if key !in s.running {
      forall later | NeverRevived(cancelled, later, key) ensures StatusIs(Run(cancelled, later), key, Cancelled) {
        SettledStays(cancelled, later, key);
      }
    } else {
      OneStep(cancelled, DeferBack(key), key);
      DeferredAfterCancel(s, key, now);
      assert !StatusIs(Run(cancelled, [DeferBack(key)]), key, Cancelled);
    }
  }
}
