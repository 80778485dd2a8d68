/** When a failed invocation is tried again. Instants are microseconds since a
    midnight, UTC; delays are whole seconds. */
module RetryPolicy {
  import opened Prelude

  datatype FailureClass = Transient | BudgetRecoverable | TerminalFailure

  const SECOND := 1_000_000
  const DAY_SECONDS := 86_400
  const DAY := 86_400_000_000
  const HOUR_SECONDS := 3_600
  const TRANSIENT_DELAYS: seq<nat> := [60, 300, 900, 3600, 21600]
  const BUDGET_FALLBACK_HOURS: seq<nat> := [6, 12, 24]
  const MAX_ATTEMPTS := 8

  /** A daily reset, to the minute. */
  datatype Clock = Clock(hour: nat, minute: nat) {
    predicate Valid() {
      hour < 24 && minute < 60
    }

    function OfDay(): int {
      (hour * 60 + minute) * 60 * SECOND
    }
  }

  /** A configured reset time; an unusable one counts as none. */
  type Reset = r: Option<Clock> | r.Some? ==> r.value.Valid() witness None

  datatype Decision = Retry(delay: nat, nextAttempt: int) | Stop

  /** The next instant at which the day's clock shows the reset time. */
  function NextReset(now: int, clock: Clock): int {
    var candidate := now / DAY * DAY + clock.OfDay();
    if candidate <= now then candidate + DAY else candidate
  }

  function DelayUntilNextReset(now: int, reset: Reset): Option<int> {
    if reset.None? then None else Some(Max((NextReset(now, reset.value) - now) / SECOND, 0))
  }

  function FallbackDelay(attempts: nat): nat {
    BUDGET_FALLBACK_HOURS[Min(attempts, |BUDGET_FALLBACK_HOURS| - 1)] * HOUR_SECONDS
  }

  function BudgetDelay(attempts: nat, now: int, reset: Reset): (delay: nat)
    ensures delay >= FallbackDelay(attempts)
  {
    var untilReset := DelayUntilNextReset(now, reset);
    if untilReset.None? then FallbackDelay(attempts) else Max(untilReset.value, FallbackDelay(attempts))
  }

  function ComputeRetryDecision(attempts: nat, failure: FailureClass, now: int, reset: Reset): Decision {
    if attempts >= MAX_ATTEMPTS || failure.TerminalFailure? then Stop
    else if failure.Transient? then
      var delay := TRANSIENT_DELAYS[Min(attempts, |TRANSIENT_DELAYS| - 1)];
      Retry(delay, now + delay * SECOND)
    else
      var delay := BudgetDelay(attempts, now, reset);
      Retry(delay, now + delay * SECOND)
  }

  lemma DayAndClock(day: int, rest: int)
    requires 0 <= rest < DAY
    ensures (day * DAY + rest) / DAY == day && (day * DAY + rest) % DAY == rest
  {
  }

  /** The next reset is the first instant after now at which the clock shows it. */
  lemma NextResetIsNext(now: int, clock: Clock, t: int)
    requires clock.Valid()
    ensures now < NextReset(now, clock) <= now + DAY
    ensures NextReset(now, clock) % DAY == clock.OfDay()
    ensures clock.OfDay() == (clock.hour * 3_600 + clock.minute * 60) * 1_000_000
    ensures t > now && t % DAY == clock.OfDay() ==> t >= NextReset(now, clock)
  {
    var today, of := now / DAY, clock.OfDay();
    assert 0 <= of < DAY;
    DayAndClock(today, of);
    DayAndClock(today + 1, of);
    if t > now && t % DAY == of && t < NextReset(now, clock) {
      ResetDays(now, t, of);
    }
  }

  lemma ResetDays(now: int, t: int, of: int)
    requires t > now && 0 <= of < DAY && t % DAY == of
    ensures t >= now / DAY * DAY + of
    ensures now / DAY * DAY + of <= now ==> t >= now / DAY * DAY + of + DAY
  {
    var today, day := now / DAY, t / DAY;
    assert t == day * DAY + of && now == today * DAY + now % DAY;
    assert day >= today;
    if day > today {
      assert (today + 1) * DAY <= day * DAY;
    }
  }

  lemma UntilResetWithinDay(now: int, clock: Clock)
    requires clock.Valid()
    ensures 0 <= DelayUntilNextReset(now, Some(clock)).value <= DAY_SECONDS
    ensures var delay := DelayUntilNextReset(now, Some(clock)).value;
            NextReset(now, clock) - SECOND < now + delay * SECOND <= NextReset(now, clock)
  {
    NextResetIsNext(now, clock, now);
  }

  /** A budget delay lies between 6 and 24 hours. */
  lemma BudgetDelayBounds(attempts: nat, now: int, reset: Reset)
    ensures 6 * HOUR_SECONDS <= BudgetDelay(attempts, now, reset) <= 24 * HOUR_SECONDS
  {
    if reset.Some? { UntilResetWithinDay(now, reset.value); }
  }

  /** It never shrinks as attempts grow, the clock being the same. */
  lemma BudgetDelayMonotone(fewer: nat, more: nat, now: int, reset: Reset)
    requires fewer <= more
    ensures BudgetDelay(fewer, now, reset) <= BudgetDelay(more, now, reset)
  {
    assert FallbackDelay(fewer) <= FallbackDelay(more);
  }

  /** The attempt lands on the reset, or less than a second before it, exactly
      when the reset is no nearer than the fallback delay. */
  lemma LandsOnResetIff(attempts: nat, now: int, clock: Clock)
    requires clock.Valid() && attempts < MAX_ATTEMPTS
    ensures var next := ComputeRetryDecision(attempts, BudgetRecoverable, now, Some(clock)).nextAttempt;
            var reset := NextReset(now, clock);
            reset - SECOND < next <= reset <==> reset - now >= FallbackDelay(attempts) * SECOND
  {
    UntilResetWithinDay(now, clock);
    var untilReset := DelayUntilNextReset(now, Some(clock)).value;
    assert NextReset(now, clock) - now >= FallbackDelay(attempts) * SECOND <==> untilReset >= FallbackDelay(attempts);
  }

  /** How long a budget failure waits when no reset lies further ahead. */
  function LeastBudgetDelay(attempts: nat): nat {
    if attempts == 0 then 21_600 else if attempts == 1 then 43_200 else 86_400
  }

  /** A transient failure waits by its attempt; a budget failure at least so long, and
      no longer unless the reset is further ahead. */
  predicate DelayOf(attempts: nat, failure: FailureClass, now: int, reset: Reset, delay: nat) {
    && (failure.Transient? ==>
          delay == if attempts == 0 then 60 else if attempts == 1 then 300 else if attempts == 2 then 900
                   else if attempts == 3 then 3_600 else 21_600)
    && (failure.BudgetRecoverable? ==>
          && delay >= LeastBudgetDelay(attempts)
          && (delay > LeastBudgetDelay(attempts) ==>
                reset.Some? && NextReset(now, reset.value) - now >= delay * SECOND))
  }

  /** A failure is granted another attempt exactly if it is not terminal and fewer
      than eight were counted before, and then exactly its delay later. */
  lemma GrantedIff(attempts: nat, failure: FailureClass, now: int, reset: Reset)
    ensures var decision := ComputeRetryDecision(attempts, failure, now, reset);
            && (decision.Retry? <==> attempts < 8 && !failure.TerminalFailure?)
            && (decision.Retry? ==>
                  && decision.nextAttempt == now + decision.delay * SECOND && decision.delay >= 60
                  && DelayOf(attempts, failure, now, reset, decision.delay))
  {
    BudgetDelayBounds(attempts, now, reset);
    if reset.Some? { UntilResetWithinDay(now, reset.value); }
  }

  /** Each further failure of a kind waits at least as long, the clock being the same. */
  lemma DelaysNeverShrink(fewer: nat, more: nat, failure: FailureClass, now: int, reset: Reset)
    requires fewer <= more < 8 && !failure.TerminalFailure?
    ensures var sooner := ComputeRetryDecision(fewer, failure, now, reset);
            var later := ComputeRetryDecision(more, failure, now, reset);
            sooner.Retry? && later.Retry? && sooner.delay <= later.delay
  {
    GrantedIff(fewer, failure, now, reset);
    GrantedIff(more, failure, now, reset);
    BudgetDelayMonotone(fewer, more, now, reset);
  }

  // ---------------------------------------------------------------------
  // Whole chains
  // ---------------------------------------------------------------------

  /** One failure of a task: its class, when it happened, and the reset time then. */
  datatype Failure = Failure(failure: FailureClass, now: int, reset: Reset)

  /** The delays granted to the failures of one task, counting from `attempts`;
      a terminal failure is not counted. */
  function ChainDelays(failures: seq<Failure>, attempts: nat): seq<int>
    decreases |failures|
  {
    if failures == [] then []
    else
      var f := failures[0];
      var decision := ComputeRetryDecision(attempts, f.failure, f.now, f.reset);
      (if decision.Retry? then [decision.delay] else []) + ChainDelays(failures[1..], NextAttempts(f, attempts))
  }

  function NextAttempts(f: Failure, attempts: nat): nat {
    if f.failure.TerminalFailure? then attempts else attempts + 1
  }

  lemma {:induction false} ChainBound(failures: seq<Failure>, attempts: nat)
    ensures |ChainDelays(failures, attempts)| <= Max(MAX_ATTEMPTS - attempts, 0)
    ensures Sum(ChainDelays(failures, attempts)) <= |ChainDelays(failures, attempts)| * DAY_SECONDS
    decreases |failures|
  {
    if failures != [] {
      var f := failures[0];
      var decision := ComputeRetryDecision(attempts, f.failure, f.now, f.reset);
      var rest := ChainDelays(failures[1..], NextAttempts(f, attempts));
      ChainBound(failures[1..], NextAttempts(f, attempts));
      if decision.Retry? {
        BudgetDelayBounds(attempts, f.now, f.reset);
        assert ([decision.delay] + rest)[1..] == rest;
      } else {
        assert [] + rest == rest;
      }
    }
  }

  /** For any mix of failures, terminal ones included, at most eight retries are
      granted and their delays total at most 8 days. */
  lemma ChainTotal(failures: seq<Failure>)
    ensures |ChainDelays(failures, 0)| <= MAX_ATTEMPTS
    ensures Sum(ChainDelays(failures, 0)) <= 8 * DAY_SECONDS
  {
    ChainBound(failures, 0);
  }

  lemma {:induction false} DailyChain(attempts: nat, n: nat)
    requires attempts + n == MAX_ATTEMPTS
    ensures Sum(ChainDelays(seq(n, i => Failure(BudgetRecoverable, 0, Some(Clock(0, 0)))), attempts)) == n * DAY_SECONDS
    decreases n
  {
    if n > 0 {
      var failures := seq(n, i => Failure(BudgetRecoverable, 0, Some(Clock(0, 0))));
      var rest := seq(n - 1, i => Failure(BudgetRecoverable, 0, Some(Clock(0, 0))));
      assert failures[1..] == rest;
      DailyChain(attempts + 1, n - 1);
      assert BudgetDelay(attempts, 0, Some(Clock(0, 0))) == DAY_SECONDS;
      assert ([DAY_SECONDS] + ChainDelays(rest, attempts + 1))[1..] == ChainDelays(rest, attempts + 1);
    }
  }

  /** The bound is reached: eight budget failures, each exactly at the reset. */
  lemma ChainTotalReached()
    ensures exists failures :: Sum(ChainDelays(failures, 0)) == 8 * DAY_SECONDS
  {
    DailyChain(0, 8);
  }
}
