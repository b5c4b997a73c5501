/**
 The keepalive touch of the authenticated session (bridge/src/runtime.ts): who owns the
 touch in flight, and when the next one is due.

 A touch suspends at its awaits, so it is split into the segments Tick, Settle and Finish;
 browser closes, relaunches and other callbacks may run between any two of them.  The locals
 that a suspended touch keeps are its `Flight`.
 */
module SessionTouch {
  import opened Wrappers

  const TOUCH_INTERVAL_MS := 300_000
  const SHORT_RETRY_MS := 30_000

  datatype Outcome = Ok | Reauth | Failed | Stale | Threw

  /** The context, with its keeper manager, and the generation a touch started under. */
  datatype Flight = Flight(context: nat, generation: nat, settled: bool)

  datatype State = State(
    stopped: bool,
    generation: nat,
    context: Option<nat>,
    launches: nat,
    nextAt: Option<int>,
    failures: nat,
    operation: Option<nat>,
    inFlight: bool,
    symbols: nat,
    flights: map<nat, Flight>)

  datatype Event =
    | Tick(now: int, ready: bool)
    | Settle(op: nat, outcome: Outcome, now: int)
    | Finish(op: nat)
    | ContextClosed(context: nat, generation: nat)
    | Launched
    | GenerationAdvanced
    | TouchWanted
    | PolicyWanted
    | Stopped

  const INITIAL := State(false, 0, None, 0, None, 0, None, false, 0, map[])

  // ---------------------------------------------------------------------------
  // One segment
  // ---------------------------------------------------------------------------

  function Pow2(n: nat): nat { if n == 0 then 1 else 2 * Pow2(n - 1) }

  function Min(a: int, b: int): int { if a < b then a else b }

  /** The delay after an applied outcome; `failures` already counts a failed one. */
  function RetryMs(outcome: Outcome, failures: nat): int
    requires outcome == Failed ==> failures > 0
  {
    match outcome
    case Ok => TOUCH_INTERVAL_MS
    case Failed => Min(TOUCH_INTERVAL_MS, SHORT_RETRY_MS * Pow2(Min(4, failures - 1)))
    case _ => SHORT_RETRY_MS
  }

  /** An unset time is filled in, and a time too far ahead is pulled back. */
  function Scheduled(nextAt: Option<int>, now: int): int {
    var next := nextAt.GetOr(now + TOUCH_INTERVAL_MS);
    if next - now > TOUCH_INTERVAL_MS then now + TOUCH_INTERVAL_MS else next
  }

  predicate Admitted(s: State, ready: bool) { !s.stopped && s.context.Some? && ready }

  function TickStep(s: State, now: int, ready: bool): State {
    if !Admitted(s, ready) then s
    else
      var next := Scheduled(s.nextAt, now);
      var t := s.(nextAt := Some(next));
      if now < next || s.inFlight then t
      else t.(operation := Some(s.symbols), inFlight := true, symbols := s.symbols + 1,
              flights := s.flights[s.symbols := Flight(s.context.value, s.generation, false)])
  }

  /** Nothing the touch started under has been replaced. */
  predicate IsCurrent(s: State, op: nat) {
    && op in s.flights && !s.stopped && s.flights[op].generation == s.generation
    && s.context == Some(s.flights[op].context) && s.operation == Some(op)
  }

  /** The `finally` block. */
  function Release(s: State, op: nat): State {
    var t := s.(flights := s.flights - {op});
    if s.operation == Some(op) then t.(operation := None, inFlight := false) else t
  }

  function SettleStep(s: State, op: nat, outcome: Outcome, now: int): State {
    if op !in s.flights || s.flights[op].settled then s
    else if outcome == Threw || !IsCurrent(s, op) then Release(s, op)
    else if outcome == Stale then Release(s.(nextAt := Some(now + SHORT_RETRY_MS)), op)
    else
      var failures := if outcome == Failed then s.failures + 1 else 0;
      var t := s.(failures := failures, nextAt := Some(now + RetryMs(outcome, failures)));
      if outcome == Ok then t.(flights := t.flights[op := t.flights[op].(settled := true)]) else Release(t, op)
  }

  function Step(s: State, e: Event): State {
    match e
    case Tick(now, ready) => TickStep(s, now, ready)
    case Settle(op, outcome, now) => SettleStep(s, op, outcome, now)
    case Finish(op) => if op in s.flights && s.flights[op].settled then Release(s, op) else s
    case ContextClosed(context, generation) =>
      if s.stopped || generation != s.generation || s.context != Some(context) then s
      else s.(context := None, operation := None, inFlight := false)
    case Launched =>
      s.(context := Some(s.launches), launches := s.launches + 1, nextAt := None, failures := 0,
         operation := None, inFlight := false)
    case GenerationAdvanced => s.(generation := s.generation + 1)
    case TouchWanted => s.(nextAt := Some(0))
    case PolicyWanted => if s.nextAt == None then s.(nextAt := Some(0)) else s
    case Stopped => s.(stopped := true)
  }

  function After(es: seq<Event>): State {
    if es == [] then INITIAL else Step(After(es[..|es| - 1]), es[|es| - 1])
  }

  // ---------------------------------------------------------------------------
  // The closure variables of the runtime
  // ---------------------------------------------------------------------------

  class SessionKeeper {
    var stopped: bool
    var activeContextGeneration: nat
    var currentContext: Option<nat>
    var launches: nat
    var nextSessionTouchAtMs: Option<int>
    var sessionTouchFailures: nat
    var sessionTouchOperation: Option<nat>
    var sessionTouchInFlight: bool
    var symbols: nat
    var flights: map<nat, Flight>

    function View(): State
      reads this
    {
      State(stopped, activeContextGeneration, currentContext, launches, nextSessionTouchAtMs,
            sessionTouchFailures, sessionTouchOperation, sessionTouchInFlight, symbols, flights)
    }

    constructor ()
      ensures View() == INITIAL
    {
      stopped, activeContextGeneration, currentContext, launches := false, 0, None, 0;
      nextSessionTouchAtMs, sessionTouchFailures, sessionTouchOperation := None, 0, None;
      sessionTouchInFlight, symbols, flights := false, 0, map[];
    }

    /** `touchAuthenticatedSessionIfDue` up to its first await. */
    method TouchIfDue(now: int, ready: bool)
      modifies this
      ensures View() == Step(old(View()), Tick(now, ready))
    {
      if stopped || currentContext == None || !ready {
        return;
      }
      if nextSessionTouchAtMs == None {
        nextSessionTouchAtMs := Some(now + TOUCH_INTERVAL_MS);
      }
      if nextSessionTouchAtMs.value - now > TOUCH_INTERVAL_MS {
        nextSessionTouchAtMs := Some(now + TOUCH_INTERVAL_MS);
      }
      if now < nextSessionTouchAtMs.value || sessionTouchInFlight {
        return;
      }
      flights := flights[symbols := Flight(currentContext.value, activeContextGeneration, false)];
      sessionTouchOperation := Some(symbols);
      sessionTouchInFlight := true;
      symbols := symbols + 1;
    }

    /** The `finally` block of one touch. */
    method ReleaseTouch(op: nat)
      modifies this
      ensures View() == Release(old(View()), op)
    {
      flights := flights - {op};
      if sessionTouchOperation == Some(op) {
        sessionTouchOperation := None;
        sessionTouchInFlight := false;
      }
    }

    /** A suspended touch hears from the keeper page. */
    method SettleTouch(op: nat, outcome: Outcome, now: int)
      requires op in flights && !flights[op].settled
      modifies this
      ensures View() == Step(old(View()), Settle(op, outcome, now))
    {
      var flight := flights[op];
      if outcome == Threw || stopped || flight.generation != activeContextGeneration ||
         currentContext != Some(flight.context) || sessionTouchOperation != Some(op) {
        ReleaseTouch(op);
        return;
      }
      if outcome == Stale {
        nextSessionTouchAtMs := Some(now + SHORT_RETRY_MS);
        ReleaseTouch(op);
        return;
      }
      sessionTouchFailures := if outcome == Failed then sessionTouchFailures + 1 else 0;
      nextSessionTouchAtMs := Some(now + RetryMs(outcome, sessionTouchFailures));
      if outcome == Ok {
        flights := flights[op := flight.(settled := true)];
      } else {
        ReleaseTouch(op);
      }
    }

    method OnContextClose(context: nat, generation: nat)
      modifies this
      ensures View() == Step(old(View()), ContextClosed(context, generation))
    {
      if stopped || generation != activeContextGeneration || currentContext != Some(context) {
        return;
      }
      currentContext := None;
      sessionTouchOperation := None;
      sessionTouchInFlight := false;
    }

    method OnLaunched()
      modifies this
      ensures View() == Step(old(View()), Launched)
    {
      currentContext := Some(launches);
      launches := launches + 1;
      nextSessionTouchAtMs := None;
      sessionTouchFailures := 0;
      sessionTouchOperation := None;
      sessionTouchInFlight := false;
    }
  }

  // ---------------------------------------------------------------------------
  // Ownership
  // ---------------------------------------------------------------------------

  predicate Owned(s: State) {
    && (s.inFlight <==> s.operation.Some?)
    && (s.operation.Some? ==> s.operation.value in s.flights)
    && (forall op :: op in s.flights ==> op < s.symbols)
  }

  /** In flight means owned, and the owner is a touch that has not finished. */
  lemma {:induction false} RunIsOwned(es: seq<Event>)
    ensures Owned(After(es))
  {
    if es != [] {
      RunIsOwned(es[..|es| - 1]);
      StepKeepsOwned(After(es[..|es| - 1]), es[|es| - 1]);
    }
  }

  lemma StepKeepsOwned(s: State, e: Event)
    requires Owned(s)
    ensures Owned(Step(s, e))
  {
  }

  lemma StepNeverRevives(s: State, e: Event, op: nat)
    requires op < s.symbols && s.operation != Some(op)
    ensures op < Step(s, e).symbols && Step(s, e).operation != Some(op)
  {
  }

  lemma {:induction false} RetiredStaysRetired(es: seq<Event>, i: nat, op: nat)
    requires i <= |es| && op < After(es[..i]).symbols && After(es[..i]).operation != Some(op)
    ensures op < After(es).symbols && After(es).operation != Some(op)
  {
    if i < |es| {
      var pre := es[..|es| - 1];
      assert pre[..i] == es[..i];
      RetiredStaysRetired(pre, i, op);
      StepNeverRevives(After(pre), es[|es| - 1], op);
    } else {
      assert es[..i] == es;
    }
  }

  predicate SameSchedule(s: State, t: State) {
    s.nextAt == t.nextAt && s.failures == t.failures && s.operation == t.operation && s.inFlight == t.inFlight
  }

  /** The browser the touches ran against is gone: a relaunch, or a close of the current context. */
  predicate Replaces(s: State, e: Event) {
    || e.Launched?
    || (e.ContextClosed? && !s.stopped && e.generation == s.generation && s.context == Some(e.context))
  }

  lemma LastStep(es: seq<Event>, i: nat)
    requires i < |es|
    ensures After(es[..i + 1]) == Step(After(es[..i]), es[i])
  {
    assert es[..i + 1][..i] == es[..i];
  }

  /** A touch begun before a close or relaunch, completing at any later time, leaves its
      successor's schedule, failure count and in-flight flag alone. */
  lemma RetiredTouchIsInert(es: seq<Event>, i: nat, j: nat)
    requires i < j < |es| && Replaces(After(es[..i]), es[i])
    requires (es[j].Settle? || es[j].Finish?) && es[j].op < After(es[..i]).symbols
    ensures SameSchedule(After(es[..j]), After(es[..j + 1]))
  {
    LastStep(es, i);
    assert es[..j][..i + 1] == es[..i + 1];
    RetiredStaysRetired(es[..j], i + 1, es[j].op);
    LastStep(es, j);
  }

  // ---------------------------------------------------------------------------
  // Retry delays
  // ---------------------------------------------------------------------------

  predicate Applied(s: State, e: Event) {
    e.Settle? && e.op in s.flights && !s.flights[e.op].settled && IsCurrent(s, e.op) && e.outcome != Threw
  }

  lemma {:induction false} Pow2Grows(m: nat, n: nat)
    requires m <= n
    ensures 1 <= Pow2(m) <= Pow2(n)
  {
    if n > m { Pow2Grows(m, n - 1); }
    else if m > 0 { Pow2Grows(m - 1, m - 1); }
  }

  /** Failed touches in a row, counted from the history alone: since the last success, renewed
      login or relaunch. */
  function FailedInARow(es: seq<Event>): nat {
    if es == [] then 0
    else
      var pre, e := es[..|es| - 1], es[|es| - 1];
      if Resets(After(pre), e) then 0
      else FailedInARow(pre) + if Applied(After(pre), e) && e.outcome == Failed then 1 else 0
  }

  lemma {:induction false} FailuresAreCounted(es: seq<Event>)
    ensures After(es).failures == FailedInARow(es)
  {
    if es != [] { FailuresAreCounted(es[..|es| - 1]); }
  }

  /** Half a minute, doubled with each failure in a row, up to five minutes. */
  function BackOff(failures: nat): int {
    if failures <= 1 then 30_000
    else if failures == 2 then 60_000
    else if failures == 3 then 120_000
    else if failures == 4 then 240_000
    else 300_000
  }

  lemma PowersOfBackOff(failures: nat)
    requires failures > 0
    ensures Min(TOUCH_INTERVAL_MS, SHORT_RETRY_MS * Pow2(Min(4, failures - 1))) == BackOff(failures)
  {
    assert Pow2(0) == 1 && Pow2(1) == 2 && Pow2(2) == 4 && Pow2(3) == 8 && Pow2(4) == 16;
  }

  /** The delay of every applied outcome, and what becomes of the touch: a success waits five
      minutes and still has its session to save, anything else is over; failures in a row back
      off, and the count is taken from the history. */
  lemma AppliedDelayExactly(es: seq<Event>, e: Event)
    requires Applied(After(es), e)
    ensures var t := After(es + [e]);
            && t.nextAt == Some(e.now + match e.outcome
                                        case Ok => 300_000
                                        case Failed => BackOff(FailedInARow(es) + 1)
                                        case _ => 30_000)
            && (e.outcome == Ok ==>
                t.inFlight && t.operation == Some(e.op) && e.op in t.flights && t.flights[e.op].settled)
            && (e.outcome != Ok ==> !t.inFlight && t.operation == None && e.op !in t.flights)
            && (e.outcome in {Ok, Reauth} ==> t.failures == 0)
            && (e.outcome == Failed ==> t.failures == FailedInARow(es) + 1)
            && (e.outcome == Stale ==> t.failures == FailedInARow(es))
  {
    assert (es + [e])[..|es|] == es;
    FailuresAreCounted(es);
    RunIsOwned(es);
    if e.outcome == Failed { PowersOfBackOff(After(es).failures + 1); }
  }

  /** A touch that is no longer current, or that threw, leaves schedule and failures alone and is
      over; so is one that finishes after its success. */
  lemma OtherwiseTheTouchJustEnds(es: seq<Event>, e: Event)
    requires (e.Settle? && e.op in After(es).flights && !After(es).flights[e.op].settled && !Applied(After(es), e))
             || (e.Finish? && e.op in After(es).flights && After(es).flights[e.op].settled)
    ensures var s, t := After(es), After(es + [e]);
            && t.nextAt == s.nextAt && t.failures == s.failures && e.op !in t.flights
            && t.operation == (if s.operation == Some(e.op) then None else s.operation)
            && (t.inFlight <==> t.operation.Some?)
  {
    assert (es + [e])[..|es|] == es;
    RunIsOwned(es);
  }

  /** Every applied outcome schedules the next touch between half a minute and five minutes ahead. */
  lemma AppliedDelayIsBounded(s: State, e: Event)
    requires Applied(s, e)
    ensures Step(s, e).nextAt.Some? && SHORT_RETRY_MS <= Step(s, e).nextAt.value - e.now <= TOUCH_INTERVAL_MS
  {
    Pow2Grows(0, Min(4, s.failures));
  }

  predicate Resets(s: State, e: Event) { e.Launched? || (Applied(s, e) && e.outcome in {Ok, Reauth}) }

  lemma {:induction false} FailuresOnlyGrow(es: seq<Event>, i: nat)
    requires i <= |es|
    requires forall k: int :: i <= k < |es| ==> !Resets(After(es[..k]), es[k])
    ensures After(es[..i]).failures <= After(es).failures
  {
    if i < |es| {
      var pre := es[..|es| - 1];
      assert forall k: int :: 0 <= k <= |pre| ==> pre[..k] == es[..k];
      FailuresOnlyGrow(pre, i);
      assert !Resets(After(es[..|pre|]), es[|pre|]);
      StepKeepsFailures(After(pre), es[|pre|]);
    } else {
      assert es[..i] == es;
    }
  }

  lemma StepKeepsFailures(s: State, e: Event)
    requires !Resets(s, e)
    ensures s.failures <= Step(s, e).failures
  {
  }

  lemma FailureWaits(s: State, e: Event)
    requires Applied(s, e) && e.outcome == Failed
    ensures Step(s, e).nextAt == Some(e.now + RetryMs(Failed, s.failures + 1))
  {
  }

  lemma RetriesGrow(m: nat, n: nat)
    requires m <= n
    ensures RetryMs(Failed, m + 1) <= RetryMs(Failed, n + 1)
  {
    Pow2Grows(Min(4, m), Min(4, n));
  }

  /** With no success, renewed login or relaunch in between, a later failure waits at least as long. */
  lemma FailureDelaysGrow(es: seq<Event>, i: nat, j: nat)
    requires i < j < |es|
    requires Applied(After(es[..i]), es[i]) && es[i].outcome == Failed
    requires Applied(After(es[..j]), es[j]) && es[j].outcome == Failed
    requires forall k: int :: i < k < j ==> !Resets(After(es[..k]), es[k])
    ensures After(es[..i + 1]).nextAt.Some? && After(es[..j + 1]).nextAt.Some?
    ensures After(es[..i + 1]).nextAt.value - es[i].now <= After(es[..j + 1]).nextAt.value - es[j].now
  {
    LastStep(es, i);
    LastStep(es, j);
    var pre := es[..j];
    assert forall k: int :: 0 <= k <= j ==> pre[..k] == es[..k];
    FailuresOnlyGrow(pre, i + 1);
    StepKeepsFailures(After(es[..i]), es[i]);
    FailureWaits(After(es[..i]), es[i]);
    FailureWaits(After(es[..j]), es[j]);
    RetriesGrow(After(es[..i]).failures, After(es[..j]).failures);
  }

  // ---------------------------------------------------------------------------
  // The schedule cannot stall
  // ---------------------------------------------------------------------------

  predicate DueBy(s: State, t: int) { s.nextAt.Some? && s.nextAt.value <= t }

  lemma StepKeepsDue(s: State, e: Event, t: int)
    requires DueBy(s, t) && 0 <= t && !Applied(s, e) && !e.Launched?
    ensures DueBy(Step(s, e), t)
  {
  }

  /** Nothing is applied and the browser is not relaunched. */
  predicate IsQuiet(s: State, e: Event) { !Applied(s, e) && !e.Launched? }

  lemma {:induction false} StaysDue(es: seq<Event>, i: nat, t: int)
    requires i <= |es| && 0 <= t && DueBy(After(es[..i]), t)
    requires forall k: int :: i <= k < |es| ==> IsQuiet(After(es[..k]), es[k])
    ensures DueBy(After(es), t)
  {
    if i < |es| {
      var n := |es| - 1;
      forall k: int | i <= k < n
        ensures IsQuiet(After(es[..n][..k]), es[..n][k])
      {
        assert es[..n][..k] == es[..k];
      }
      assert es[..n][..i] == es[..i];
      StaysDue(es[..n], i, t);
      assert IsQuiet(After(es[..n]), es[n]);
      StepKeepsDue(After(es[..n]), es[n], t);
    } else {
      assert es[..i] == es;
    }
  }

  /** Whatever the clock does in between, a keeper that is ready at one tick and again five
      minutes later has a touch in flight, unless one completed or the browser was relaunched. */
  lemma MaintenanceNeverStalls(es: seq<Event>, i: nat, j: nat)
    requires i < j < |es| && es[i].Tick? && es[j].Tick?
    requires Admitted(After(es[..i]), es[i].ready) && Admitted(After(es[..j]), es[j].ready)
    requires 0 <= es[i].now && es[i].now + TOUCH_INTERVAL_MS <= es[j].now
    requires forall k: int :: i < k < j ==> !Applied(After(es[..k]), es[k]) && !es[k].Launched?
    ensures After(es[..j + 1]).inFlight && After(es[..j + 1]).operation.Some?
  {
    LastStep(es, i);
    LastStep(es, j);
    var pre := es[..j];
    assert forall k: int :: 0 <= k <= j ==> pre[..k] == es[..k];
    StaysDue(pre, i + 1, es[i].now + TOUCH_INTERVAL_MS);
    RunIsOwned(es[..j]);
  }

  // ---------------------------------------------------------------------------
  // When a touch starts
  // ---------------------------------------------------------------------------

  predicate Starts(s: State, e: Event) { Step(s, e).symbols > s.symbols }

  /** A touch starts exactly at a tick that finds the keeper ready, no touch in flight and a time
      that has come; it belongs to the current browser and generation.  A tick without one still
      sets a missing time, and pulls one back that is more than five minutes ahead. */
  lemma TouchStartsExactly(es: seq<Event>, e: Event)
    ensures var s, t := After(es), After(es + [e]);
            && (Starts(s, e) <==>
                && e.Tick? && e.ready && !s.stopped && s.context.Some? && !s.inFlight
                && s.nextAt.Some? && s.nextAt.value <= e.now)
            && (Starts(s, e) ==>
                  && t.inFlight && t.operation == Some(s.symbols) && t.symbols == s.symbols + 1
                  && t.flights == s.flights[s.symbols := Flight(s.context.value, s.generation, false)])
            && (e.Tick? && e.ready && !s.stopped && s.context.Some? ==>
                  && t.nextAt.Some? && t.nextAt.value <= e.now + 300_000
                  && (s.nextAt.Some? && s.nextAt.value <= e.now + 300_000 ==> t.nextAt == s.nextAt)
                  && (s.nextAt.None? || s.nextAt.value > e.now + 300_000 ==> t.nextAt.value == e.now + 300_000))
  {
    assert (es + [e])[..|es|] == es;
  }

  predicate NotBefore(s: State, t: int) { s.nextAt.Some? && s.nextAt.value >= t }

  /** Nothing asks for another time, and the clock is not more than five minutes behind. */
  predicate LeavesTime(s: State, e: Event, t: int) {
    !Applied(s, e) && e != TouchWanted && !e.Launched? && (e.Tick? ==> t <= e.now + 300_000)
  }

  lemma StepKeepsTime(s: State, e: Event, t: int)
    requires NotBefore(s, t) && LeavesTime(s, e, t)
    ensures NotBefore(Step(s, e), t)
  {
  }

  lemma {:induction false} TimeIsLeft(es: seq<Event>, i: nat, t: int)
    requires i <= |es| && NotBefore(After(es[..i]), t)
    requires forall k: int :: i <= k < |es| ==> LeavesTime(After(es[..k]), es[k], t)
    ensures NotBefore(After(es), t)
  {
    if i < |es| {
      var pre := es[..|es| - 1];
      assert forall k: int :: 0 <= k <= |pre| ==> pre[..k] == es[..k];
      TimeIsLeft(pre, i, t);
      assert LeavesTime(After(es[..|pre|]), es[|pre|], t);
      StepKeepsTime(After(pre), es[|pre|], t);
    } else {
      assert es[..i] == es;
    }
  }

  /** No touch starts before the time that the last outcome set, unless one was asked for, another
      outcome was applied, the browser was relaunched or the clock was set back. */
  lemma NoTouchTooEarly(es: seq<Event>, i: nat, j: nat)
    requires i < j < |es| && Applied(After(es[..i]), es[i])
    requires After(es[..i + 1]).nextAt.Some?
    requires forall k: int :: i < k <= j ==> LeavesTime(After(es[..k]), es[k], After(es[..i + 1]).nextAt.value)
    ensures Starts(After(es[..j]), es[j]) ==> es[j].now >= After(es[..i + 1]).nextAt.value
  {
    var t := After(es[..i + 1]).nextAt.value;
    var pre := es[..j];
    assert forall k: int :: 0 <= k <= j ==> pre[..k] == es[..k];
    TimeIsLeft(pre, i + 1, t);
  }

  /** A touch that was asked for starts at the next tick that finds the keeper ready and nothing in
      flight, unless another outcome is applied or the browser relaunched in between. */
  lemma WantedTouchStarts(es: seq<Event>, i: nat, j: nat)
    requires i < j < |es| && es[j].Tick? && es[j].now >= 0 && Admitted(After(es[..j]), es[j].ready)
    requires es[i] == TouchWanted || (es[i] == PolicyWanted && After(es[..i]).nextAt == None)
    requires forall k: int :: i < k < j ==> !Applied(After(es[..k]), es[k]) && !es[k].Launched?
    requires !After(es[..j]).inFlight
    ensures Starts(After(es[..j]), es[j])
  {
    LastStep(es, i);
    var pre := es[..j];
    assert forall k: int :: 0 <= k <= j ==> pre[..k] == es[..k];
    StaysDue(pre, i + 1, 0);
  }

  /** Asking for the policy leaves a time that is already set. */
  lemma PolicyLeavesTime(es: seq<Event>)
    requires After(es).nextAt.Some?
    ensures After(es + [PolicyWanted]) == After(es)
  {
    assert (es + [PolicyWanted])[..|es|] == es;
  }

  // ---------------------------------------------------------------------------
  // Browsers, generations and the end
  // ---------------------------------------------------------------------------

  predicate Closed(s: State) { s.context == None }

  lemma {:induction false} ClosedUntilLaunch(es: seq<Event>, i: nat)
    requires i <= |es| && Closed(After(es[..i]))
    requires forall k: int :: i <= k < |es| ==> !es[k].Launched?
    ensures Closed(After(es))
  {
    if i < |es| {
      var pre := es[..|es| - 1];
      assert pre[..i] == es[..i];
      ClosedUntilLaunch(pre, i);
      assert !es[|pre|].Launched?;
    } else {
      assert es[..i] == es;
    }
  }

  /** From a close of the current browser to the next launch no touch starts or is applied. */
  lemma ClosedBrowserIsLeftAlone(es: seq<Event>, i: nat, j: nat)
    requires i < j < |es| && es[i].ContextClosed? && Replaces(After(es[..i]), es[i])
    requires forall k: int :: i < k < j ==> !es[k].Launched?
    ensures !Starts(After(es[..j]), es[j]) && !Applied(After(es[..j]), es[j])
  {
    LastStep(es, i);
    var pre := es[..j];
    assert forall k: int :: 0 <= k <= j ==> pre[..k] == es[..k];
    ClosedUntilLaunch(pre, i + 1);
  }

  /** A close that does not concern the current browser and generation changes nothing. */
  lemma OtherCloseIsIgnored(es: seq<Event>, context: nat, generation: nat)
    requires generation != After(es).generation || After(es).context != Some(context) || After(es).stopped
    ensures After(es + [ContextClosed(context, generation)]) == After(es)
  {
    assert (es + [ContextClosed(context, generation)])[..|es|] == es;
  }

  lemma {:induction false} LaunchesOnlyGrow(es: seq<Event>, i: nat)
    requires i <= |es|
    ensures After(es[..i]).launches <= After(es).launches
  {
    if i < |es| {
      var pre := es[..|es| - 1];
      assert pre[..i] == es[..i];
      LaunchesOnlyGrow(pre, i);
    } else {
      assert es[..i] == es;
    }
  }

  /** Every launch brings a browser of its own, so that a late close of an earlier one is ignored. */
  lemma BrowsersAreDistinct(es: seq<Event>, i: nat, j: nat)
    requires i < j < |es| && es[i].Launched? && es[j].Launched?
    ensures After(es[..i + 1]).context.Some? && After(es[..j + 1]).context.Some?
    ensures After(es[..i + 1]).context != After(es[..j + 1]).context
  {
    LastStep(es, i);
    LastStep(es, j);
    assert es[..j][..i + 1] == es[..i + 1];
    LaunchesOnlyGrow(es[..j], i + 1);
  }

  /** A relaunch forgets the time, so that the first ready tick starts nothing and waits five
      minutes from then. */
  lemma LaunchStartsAfresh(es: seq<Event>, now: int)
    requires !After(es).stopped
    ensures var launched := es + [Launched];
            !Starts(After(launched), Tick(now, true))
            && After(launched + [Tick(now, true)]).nextAt == Some(now + 300_000)
            && !After(launched).inFlight
  {
    assert (es + [Launched])[..|es|] == es;
    assert (es + [Launched] + [Tick(now, true)])[..|es| + 1] == es + [Launched];
  }

  predicate Retired(s: State, op: nat, generation: nat) {
    op < s.symbols && s.generation > generation && (op in s.flights ==> s.flights[op].generation <= generation)
  }

  lemma StepKeepsRetired(s: State, e: Event, op: nat, generation: nat)
    requires Owned(s) && Retired(s, op, generation)
    ensures Retired(Step(s, e), op, generation)
  {
  }

  lemma {:induction false} RetiredForGood(es: seq<Event>, i: nat, op: nat, generation: nat)
    requires i <= |es| && Retired(After(es[..i]), op, generation)
    ensures Retired(After(es), op, generation)
  {
    if i < |es| {
      var pre := es[..|es| - 1];
      assert pre[..i] == es[..i];
      RetiredForGood(pre, i, op, generation);
      RunIsOwned(pre);
      StepKeepsRetired(After(pre), es[|es| - 1], op, generation);
    } else {
      assert es[..i] == es;
    }
  }

  predicate Dated(s: State) { forall op :: op in s.flights ==> s.flights[op].generation <= s.generation }

  lemma {:induction false} RunIsDated(es: seq<Event>)
    ensures Dated(After(es))
  {
    if es != [] { RunIsDated(es[..|es| - 1]); }
  }

  /** Once the generation has advanced, no touch begun before it is applied. */
  lemma AdvancedGenerationRetires(es: seq<Event>, i: nat, j: nat)
    requires i < j < |es| && es[i] == GenerationAdvanced
    requires es[j].Settle? && es[j].op < After(es[..i]).symbols
    ensures !Applied(After(es[..j]), es[j])
  {
    LastStep(es, i);
    RunIsDated(es[..i]);
    assert es[..j][..i + 1] == es[..i + 1];
    assert Retired(After(es[..i + 1]), es[j].op, After(es[..i]).generation);
    RetiredForGood(es[..j], i + 1, es[j].op, After(es[..i]).generation);
  }

  lemma {:induction false} StopLasts(es: seq<Event>, i: nat)
    requires i <= |es| && After(es[..i]).stopped
    ensures After(es).stopped
  {
    if i < |es| {
      var pre := es[..|es| - 1];
      assert pre[..i] == es[..i];
      StopLasts(pre, i);
    } else {
      assert es[..i] == es;
    }
  }

  /** After a stop no touch starts and none is applied. */
  lemma StoppedForGood(es: seq<Event>, i: nat, j: nat)
    requires i < j < |es| && es[i] == Stopped
    ensures !Starts(After(es[..j]), es[j]) && !Applied(After(es[..j]), es[j])
  {
    LastStep(es, i);
    assert es[..j][..i + 1] == es[..i + 1];
    StopLasts(es[..j], i + 1);
  }
}
