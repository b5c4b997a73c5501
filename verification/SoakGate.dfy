/**
 The deployment gate over a finished soak (tools/haos-soak-deployment-gate-core.ts), and what
 an eligible verdict says about the log behind it.

 Run metadata and summary have passed their parsers, so their timestamps are canonical and
 stand for their milliseconds.
 */
module SoakGate {
  import opened Wrappers
  import opened SoakEvaluation
  import SoakCleanLog
  import SoakReport

  const MINIMUM_DURATION_MS := 259_200_000
  const MAXIMUM_INTERVAL_MS := 300_000
  const MINIMUM_SAMPLES := 865
  const MAXIMUM_GROWTH_BYTES := 268_435_456

  datatype RunStatus = Running | RunCompleted | Interrupted
  datatype RunMetadata = RunMetadata(status: RunStatus, startedAtMs: int, expectedEndAtMs: int, durationMs: int,
                                     intervalMs: int)
  datatype Integrity = Integrity(digestIsHex: bool, digestMatches: bool)

  datatype Reason =
    | RunNotCompleted | SoakNotPassed | SummaryNotCompleted | DurationBelowMinimum | IntervalAboveMaximum
    | RunSummaryMismatch | CompletionTimeInvalid | TooFewSamples | SampleErrorsPresent | SuccessfulSampleMismatch
    | FailuresPresent | SampleGapExceeded | MemoryGrowthExceeded | CompletionEvidenceMissing
    | CounterEvidenceInvalid | SummaryHashMissing | SummaryHashInvalid | SummaryHashMismatch

  datatype EvidenceState = Eligible | EvidencePending | Blocked

  datatype GateResult = GateResult(deploymentEligible: bool, evidenceState: EvidenceState, reasons: seq<Reason>)

  predicate MetadataAndSummaryMatch(m: RunMetadata, s: Evaluation) {
    && m.expectedEndAtMs == m.startedAtMs + m.durationMs
    && s.expectedEndAtMs == s.startedAtMs + s.durationMs
    && m.startedAtMs == s.startedAtMs && m.expectedEndAtMs == s.expectedEndAtMs
    && m.durationMs == s.durationMs && m.intervalMs == s.intervalMs
  }

  predicate CompletionTimeIsValid(s: Evaluation) {
    s.lastSampledAtMs.Some? && s.lastSampledAtMs.value >= s.expectedEndAtMs
  }

  predicate HasCompleteEvidence(s: Evaluation) {
    s.baseline.Some? && s.final.Some? && s.memoryStartMedian.Some? && s.memoryEndMedian.Some?
    && s.memoryPeak.Some? && s.memoryGrowth.Some?
  }

  predicate CountsAddUp(h: Health) {
    h.uniqueLogicalEventCount + h.duplicateEventCount == h.decodedDeviceEventCount
  }

  predicate NotBelow(a: Option<nat>, b: Option<nat>) { a.Some? && b.Some? && b.value >= a.value }

  predicate CounterEvidenceIsValid(b: Health, f: Health) {
    && b.observedDeviceCount > 0 && f.observedDeviceCount > 0
    && b.inventoryDeviceCount.Some? && f.inventoryDeviceCount == b.inventoryDeviceCount
    && NotBelow(b.inventorySequence, f.inventorySequence)
    && NotBelow(b.eventSequence, f.eventSequence)
    && f.protocolChangeCount == b.protocolChangeCount
    && f.restartCount == b.restartCount
    && f.protocolInvalidFrameCount == b.protocolInvalidFrameCount
    && CountsAddUp(b) && CountsAddUp(f)
    && f.decodedDeviceEventCount >= b.decodedDeviceEventCount
    && f.uniqueLogicalEventCount >= b.uniqueLogicalEventCount
    && f.duplicateEventCount >= b.duplicateEventCount
  }

  /** When the gate gives a reason. */
  predicate Applies(r: Reason, m: RunMetadata, s: Evaluation, i: Option<Integrity>) {
    match r
    case RunNotCompleted => m.status != RunCompleted
    case SoakNotPassed => s.status != Pass
    case SummaryNotCompleted => !s.completed
    case DurationBelowMinimum => m.durationMs < MINIMUM_DURATION_MS
    case IntervalAboveMaximum => m.intervalMs > MAXIMUM_INTERVAL_MS
    case RunSummaryMismatch => !MetadataAndSummaryMatch(m, s)
    case CompletionTimeInvalid => !CompletionTimeIsValid(s)
    case TooFewSamples => s.sampleCount < MINIMUM_SAMPLES
    case SampleErrorsPresent => s.errorSampleCount > 0
    case SuccessfulSampleMismatch => s.successfulSampleCount != s.sampleCount || s.errorSampleCount != 0
    case FailuresPresent => s.failures != {}
    case SampleGapExceeded => s.maxGapMs > 2 * s.intervalMs
    case MemoryGrowthExceeded => GrowthExceeds(s.memoryGrowth, MAXIMUM_GROWTH_BYTES)
    case CompletionEvidenceMissing => !HasCompleteEvidence(s)
    case CounterEvidenceInvalid =>
      HasCompleteEvidence(s) && !CounterEvidenceIsValid(s.baseline.value.health, s.final.value.health)
    case SummaryHashMissing => m.status == RunCompleted && i.None?
    case SummaryHashInvalid => m.status == RunCompleted && i.Some? && !i.value.digestIsHex
    case SummaryHashMismatch => m.status == RunCompleted && i.Some? && i.value.digestIsHex && !i.value.digestMatches
  }

  method Push(reasons: seq<Reason>, holds: bool, r: Reason) returns (all: seq<Reason>)
    ensures forall x :: x in all <==> x in reasons || (holds && x == r)
  {
    all := if holds then reasons + [r] else reasons;
  }

  method PushRunReasons(m: RunMetadata, s: Evaluation) returns (reasons: seq<Reason>)
    ensures forall x :: x in reasons <==>
              || (x == RunNotCompleted && m.status != RunCompleted)
              || (x == SoakNotPassed && s.status != Pass)
              || (x == SummaryNotCompleted && !s.completed)
              || (x == DurationBelowMinimum && m.durationMs < MINIMUM_DURATION_MS)
              || (x == IntervalAboveMaximum && m.intervalMs > MAXIMUM_INTERVAL_MS)
              || (x == RunSummaryMismatch && !MetadataAndSummaryMatch(m, s))
              || (x == CompletionTimeInvalid && !CompletionTimeIsValid(s))
  {
    reasons := Push([], m.status != RunCompleted, RunNotCompleted);
    reasons := Push(reasons, s.status != Pass, SoakNotPassed);
    reasons := Push(reasons, !s.completed, SummaryNotCompleted);
    reasons := Push(reasons, m.durationMs < MINIMUM_DURATION_MS, DurationBelowMinimum);
    reasons := Push(reasons, m.intervalMs > MAXIMUM_INTERVAL_MS, IntervalAboveMaximum);
    reasons := Push(reasons, !MetadataAndSummaryMatch(m, s), RunSummaryMismatch);
    reasons := Push(reasons, !CompletionTimeIsValid(s), CompletionTimeInvalid);
  }

  method PushSampleReasons(s: Evaluation, before: seq<Reason>) returns (reasons: seq<Reason>)
    ensures forall x :: x in reasons <==>
              || x in before
              || (x == TooFewSamples && s.sampleCount < MINIMUM_SAMPLES)
              || (x == SampleErrorsPresent && s.errorSampleCount > 0)
              || (x == SuccessfulSampleMismatch
                  && (s.successfulSampleCount != s.sampleCount || s.errorSampleCount != 0))
              || (x == FailuresPresent && s.failures != {})
              || (x == SampleGapExceeded && s.maxGapMs > 2 * s.intervalMs)
              || (x == MemoryGrowthExceeded && GrowthExceeds(s.memoryGrowth, MAXIMUM_GROWTH_BYTES))
  {
    reasons := Push(before, s.sampleCount < MINIMUM_SAMPLES, TooFewSamples);
    reasons := Push(reasons, s.errorSampleCount > 0, SampleErrorsPresent);
    reasons := Push(reasons,
                    s.successfulSampleCount + s.errorSampleCount != s.sampleCount
                      || s.successfulSampleCount != s.sampleCount,
                    SuccessfulSampleMismatch);
    reasons := Push(reasons, s.failures != {}, FailuresPresent);
    reasons := Push(reasons, s.maxGapMs > s.intervalMs * 2, SampleGapExceeded);
    reasons := Push(reasons, GrowthExceeds(s.memoryGrowth, MAXIMUM_GROWTH_BYTES), MemoryGrowthExceeded);
  }

  method PushEvidenceReasons(m: RunMetadata, s: Evaluation, i: Option<Integrity>, before: seq<Reason>)
    returns (reasons: seq<Reason>)
    ensures forall x :: x in reasons <==>
              || x in before
              || (x == CompletionEvidenceMissing && Applies(CompletionEvidenceMissing, m, s, i))
              || (x == CounterEvidenceInvalid && Applies(CounterEvidenceInvalid, m, s, i))
              || (x == SummaryHashMissing && Applies(SummaryHashMissing, m, s, i))
              || (x == SummaryHashInvalid && Applies(SummaryHashInvalid, m, s, i))
              || (x == SummaryHashMismatch && Applies(SummaryHashMismatch, m, s, i))
  {
    if !HasCompleteEvidence(s) {
      reasons := Push(before, true, CompletionEvidenceMissing);
    } else {
      var valid := CounterEvidenceIsValid(s.baseline.value.health, s.final.value.health);
      reasons := Push(before, !valid, CounterEvidenceInvalid);
    }
    if m.status == RunCompleted {
      if i.None? {
        reasons := Push(reasons, true, SummaryHashMissing);
      } else if !i.value.digestIsHex {
        reasons := Push(reasons, true, SummaryHashInvalid);
      } else {
        reasons := Push(reasons, !i.value.digestMatches, SummaryHashMismatch);
      }
    }
  }

  /** `evaluateSoakDeploymentGate`: exactly the reasons that apply, and eligible without any. */
  method EvaluateGate(m: RunMetadata, s: Evaluation, i: Option<Integrity>) returns (g: GateResult)
    ensures forall r :: r in g.reasons <==> Applies(r, m, s, i)
    ensures g.deploymentEligible <==> IsEligible(m, s, i)
    ensures g.evidenceState == if g.deploymentEligible then Eligible
                               else if m.status == Running || s.status == Pending then EvidencePending else Blocked
  {
    var reasons := PushRunReasons(m, s);
    reasons := PushSampleReasons(s, reasons);
    reasons := PushEvidenceReasons(m, s, i, reasons);
    var eligible := reasons == [];
    assert !eligible ==> reasons[0] in reasons;
    g := GateResult(eligible,
                    if eligible then Eligible
                    else if m.status == Running || s.status == Pending then EvidencePending else Blocked,
                    reasons);
  }

  predicate IsEligible(m: RunMetadata, s: Evaluation, i: Option<Integrity>) {
    forall r :: !Applies(r, m, s, i)
  }

  // ---------------------------------------------------------------------------
  // What eligibility says about the log
  // ---------------------------------------------------------------------------

  /** Every rule an eligible log obeys, observation by observation. */
  predicate SoundSamples(obs: seq<Observation>) {
    forall k :: 0 <= k < |obs| ==>
      && obs[k].Measured? && obs[k].sample.health.live && obs[k].sample.health.ready
      && obs[k].sample.health.state == "CONNECTED"
      && At(obs[k]).ms.Some?
  }

  function TimeAt(obs: seq<Observation>, k: int): int
    requires 0 <= k < |obs|
  {
    At(obs[k]).ms.GetOr(0)
  }

  function HealthAt(obs: seq<Observation>, k: int): Health
    requires 0 <= k < |obs| && obs[k].Measured?
  {
    obs[k].sample.health
  }

  predicate CountersNotBelow(a: Health, b: Health) {
    && a.decodedDeviceEventCount <= b.decodedDeviceEventCount
    && a.uniqueLogicalEventCount <= b.uniqueLogicalEventCount
    && a.duplicateEventCount <= b.duplicateEventCount
  }

  predicate ShortStep(obs: seq<Observation>, k: int, limit: int)
    requires 0 < k < |obs|
  {
    0 <= TimeAt(obs, k) - TimeAt(obs, k - 1) <= limit
  }

  predicate Gapless(obs: seq<Observation>, limit: int) {
    forall k :: 0 < k < |obs| ==> ShortStep(obs, k, limit)
  }

  predicate Monotone(obs: seq<Observation>)
    requires SoundSamples(obs)
  {
    forall i, j :: 0 <= i <= j < |obs| ==>
      TimeAt(obs, i) <= TimeAt(obs, j) && CountersNotBelow(HealthAt(obs, i), HealthAt(obs, j))
  }

  predicate IsClean(obs: seq<Observation>, options: Options) { Failures(obs, options) == {} }

  lemma NoFailures(obs: seq<Observation>, options: Options, code: FailureCode)
    requires IsClean(obs, options)
    ensures !Fails(code, obs, options)
  {
    assert code !in Failures(obs, options);
  }

  /** A log without failures has a readable sample everywhere. */
  lemma CleanLogIsDense(obs: seq<Observation>, options: Options)
    requires IsClean(obs, options)
    ensures |Samples(obs)| == |obs| && |Times(obs)| == |obs|
    ensures forall k :: 0 <= k < |obs| ==> obs[k].Measured? && Samples(obs)[k] == obs[k].sample
    ensures forall k :: 0 <= k < |obs| ==> At(obs[k]).ms.Some? && Times(obs)[k] == TimeAt(obs, k)
  {
    NoFailures(obs, options, SampleError);
    NoFailures(obs, options, TimestampInvalid);
    AllMeasured(obs);
    AllDated(obs);
  }

  predicate IsSampleCode(code: FailureCode) {
    code !in {SampleError, TimestampInvalid, TimestampOrder, SampleGap, InsufficientSamples, MemoryGrowth}
  }

  /** No sample of such a log breaks a rule about samples. */
  lemma SampleRule(obs: seq<Observation>, options: Options, code: FailureCode, k: nat)
    requires IsClean(obs, options) && k < |obs| && IsSampleCode(code)
    ensures obs[0].Measured? && obs[k].Measured? && (k > 0 ==> obs[k - 1].Measured?)
    ensures !SampleFails(code, obs[0].sample, if k == 0 then None else Some(obs[k - 1].sample), obs[k].sample)
  {
    CleanLogIsDense(obs, options);
    NoFailures(obs, options, code);
    assert !SampleFailsAt(code, Samples(obs), k);
  }

  lemma TimeRule(obs: seq<Observation>, options: Options, code: FailureCode, k: nat)
    requires IsClean(obs, options) && 0 < k < |obs| && code in {TimestampOrder, SampleGap}
    ensures !StepFails(code, TimeAt(obs, k - 1), TimeAt(obs, k), options.intervalMs)
  {
    CleanLogIsDense(obs, options);
    NoFailures(obs, options, code);
    assert !StepFailsAt(code, Times(obs), k, options.intervalMs);
  }

  /** So every sample is live, ready and connected. */
  lemma CleanSamplesAreSound(obs: seq<Observation>, options: Options)
    requires IsClean(obs, options)
    ensures SoundSamples(obs)
  {
    CleanLogIsDense(obs, options);
    forall k | 0 <= k < |obs|
      ensures obs[k].sample.health.live && obs[k].sample.health.ready && obs[k].sample.health.state == "CONNECTED"
    {
      SampleRule(obs, options, NotLive, k);
      SampleRule(obs, options, NotReady, k);
      SampleRule(obs, options, StateNotConnected, k);
    }
  }

  lemma AdjacentTimes(obs: seq<Observation>, options: Options, k: nat)
    requires 0 < k < |obs| && IsClean(obs, options)
    ensures ShortStep(obs, k, 2 * options.intervalMs)
  {
    TimeRule(obs, options, TimestampOrder, k);
    TimeRule(obs, options, SampleGap, k);
  }

  lemma AdjacentCounters(obs: seq<Observation>, options: Options, k: nat)
    requires 0 < k < |obs| && SoundSamples(obs)
    requires IsClean(obs, options)
    ensures CountersNotBelow(HealthAt(obs, k - 1), HealthAt(obs, k))
  {
    SampleRule(obs, options, CounterRegression, k);
  }

  /** Along the log, times and the three event counters never fall. */
  lemma {:induction false} NeverFall(obs: seq<Observation>, options: Options, i: nat, j: nat)
    requires i <= j < |obs| && SoundSamples(obs)
    requires IsClean(obs, options)
    ensures TimeAt(obs, i) <= TimeAt(obs, j)
    ensures CountersNotBelow(HealthAt(obs, i), HealthAt(obs, j))
    decreases j - i
  {
    if i < j {
      NeverFall(obs, options, i, j - 1);
      AdjacentTimes(obs, options, j);
      AdjacentCounters(obs, options, j);
    }
  }

  /** No restart, protocol change or invalid frame was counted on top of the first sample's. */
  lemma NothingOnTopOfBaseline(obs: seq<Observation>, options: Options, k: nat)
    requires k < |obs| && SoundSamples(obs)
    requires IsClean(obs, options)
    ensures var first, h := HealthAt(obs, 0), HealthAt(obs, k);
            h.restartCount <= first.restartCount && h.protocolChangeCount <= first.protocolChangeCount
            && h.protocolInvalidFrameCount <= first.protocolInvalidFrameCount
  {
    SampleRule(obs, options, RuntimeRestarted, k);
    SampleRule(obs, options, ProtocolChanged, k);
    SampleRule(obs, options, InvalidFrameIncrease, k);
  }

  lemma EligibleSummary(m: RunMetadata, s: Evaluation, i: Option<Integrity>)
    requires IsEligible(m, s, i)
    ensures s.failures == {} && s.sampleCount >= MINIMUM_SAMPLES && s.errorSampleCount == 0
    ensures m.durationMs == s.durationMs >= MINIMUM_DURATION_MS && m.intervalMs == s.intervalMs <= MAXIMUM_INTERVAL_MS
    ensures m.startedAtMs == s.startedAtMs
    ensures CompletionTimeIsValid(s) && !GrowthExceeds(s.memoryGrowth, MAXIMUM_GROWTH_BYTES) && s.memoryGrowth.Some?
    ensures m.status == RunCompleted && i.Some? && i.value.digestMatches
  {
    assert !Applies(FailuresPresent, m, s, i) && !Applies(TooFewSamples, m, s, i)
           && !Applies(SampleErrorsPresent, m, s, i);
    assert !Applies(DurationBelowMinimum, m, s, i) && !Applies(IntervalAboveMaximum, m, s, i);
    assert !Applies(RunSummaryMismatch, m, s, i) && !Applies(CompletionTimeInvalid, m, s, i);
    assert !Applies(MemoryGrowthExceeded, m, s, i) && !Applies(CompletionEvidenceMissing, m, s, i);
    assert !Applies(RunNotCompleted, m, s, i) && !Applies(SummaryHashMissing, m, s, i);
    assert !Applies(SummaryHashInvalid, m, s, i) && !Applies(SummaryHashMismatch, m, s, i);
  }

  lemma CleanLogIsGapless(obs: seq<Observation>, options: Options)
    requires IsClean(obs, options)
    ensures SoundSamples(obs) && Gapless(obs, 2 * options.intervalMs) && Monotone(obs)
  {
    CleanSamplesAreSound(obs, options);
    forall k: int | 0 < k < |obs|
      ensures ShortStep(obs, k, 2 * options.intervalMs)
    {
      AdjacentTimes(obs, options, k);
    }
    forall a: int, b: int | 0 <= a <= b < |obs|
      ensures TimeAt(obs, a) <= TimeAt(obs, b) && CountersNotBelow(HealthAt(obs, a), HealthAt(obs, b))
    {
      NeverFall(obs, options, a, b);
    }
  }

  /** End to end: if the gate lets a deployment go ahead on the summary of a log, the log is a
      gapless record of a healthy system over the whole duration. */
  lemma EligibleLogIsSound(obs: seq<Observation>, options: Options, m: RunMetadata, i: Option<Integrity>)
    requires Evaluate(obs, options).Ok? && IsEligible(m, Evaluate(obs, options).evaluation, i)
    ensures |obs| >= MINIMUM_SAMPLES && SoundSamples(obs)
    ensures Gapless(obs, 2 * options.intervalMs) && Monotone(obs)
    ensures options.intervalMs <= MAXIMUM_INTERVAL_MS && options.durationMs >= MINIMUM_DURATION_MS
    ensures TimeAt(obs, |obs| - 1) >= options.startedAtMs + options.durationMs
    ensures var growth := Growth(MemoryOf(Samples(obs)));
            growth.Some? && growth.value <= MAXIMUM_GROWTH_BYTES as real
    ensures SoakCleanLog.IsCleanRun(obs, options)
  {
    EligibleSummary(m, Evaluate(obs, options).evaluation, i);
    CleanLogIsGapless(obs, options);
    SoakCleanLog.CleanRunExactly(obs, options);
  }

  // ---------------------------------------------------------------------------
  // Exactly which logs pass
  // ---------------------------------------------------------------------------

  /** The first and the last sample prove activity: both see devices, the inventory is known and
      the same, both sequences are known and not lower at the end, and events add up. */
  predicate ProvesActivity(first: Health, last: Health) {
    && first.observedDeviceCount >= 1 && last.observedDeviceCount >= 1
    && first.inventoryDeviceCount.Some? && last.inventoryDeviceCount == first.inventoryDeviceCount
    && first.inventorySequence.Some? && last.inventorySequence.Some?
    && first.inventorySequence.value <= last.inventorySequence.value
    && first.eventSequence.Some? && last.eventSequence.Some?
    && first.eventSequence.value <= last.eventSequence.value
    && first.protocolChangeCount == last.protocolChangeCount && first.restartCount == last.restartCount
    && first.protocolInvalidFrameCount == last.protocolInvalidFrameCount
    && first.decodedDeviceEventCount == first.uniqueLogicalEventCount + first.duplicateEventCount
    && last.decodedDeviceEventCount == last.uniqueLogicalEventCount + last.duplicateEventCount
  }

  /** The run's metadata describe the evaluated run, and it has completed. */
  predicate DescribesRun(m: RunMetadata, options: Options) {
    && m.status == RunCompleted && m.startedAtMs == options.startedAtMs && m.durationMs == options.durationMs
    && m.intervalMs == options.intervalMs && m.expectedEndAtMs == options.startedAtMs + options.durationMs
  }

  /** A clean run of at least 865 samples over at least 72 hours, five minutes apart at most, that
      ended in time, grew by at most 256 MiB and proves activity. */
  predicate IsPassingRun(obs: seq<Observation>, options: Options) {
    && SoakCleanLog.IsCleanRun(obs, options) && |obs| >= 865
    && options.durationMs >= 259_200_000 && options.intervalMs <= 300_000
    && obs[|obs| - 1].sample.at.ms.value >= options.startedAtMs + options.durationMs
    && (var growth := Growth(MemoryOf(Samples(obs))); growth.Some? && growth.value <= 268_435_456.0)
    && ProvesActivity(obs[0].sample.health, obs[|obs| - 1].sample.health)
  }

  predicate HashMatches(i: Option<Integrity>) { i.Some? && i.value.digestIsHex && i.value.digestMatches }

  lemma {:induction false} MediansOfSamples(memory: seq<nat>)
    requires memory != []
    ensures StartMedian(memory).Some? && EndMedian(memory).Some? && Peak(memory).Some? && Growth(memory).Some?
  {
  }

  /** The evaluation of a clean run, as the gate reads it. */
  lemma {:induction false} CleanReport(obs: seq<Observation>, options: Options)
    requires Evaluate(obs, options).Ok? && SoakCleanLog.IsCleanRun(obs, options) && obs != []
    ensures var s := Evaluate(obs, options).evaluation;
            && s.failures == {} && s.sampleCount == s.successfulSampleCount == |obs| && s.errorSampleCount == 0
            && s.startedAtMs == options.startedAtMs && s.expectedEndAtMs == options.startedAtMs + options.durationMs
            && s.durationMs == options.durationMs && s.intervalMs == options.intervalMs
            && s.lastSampledAtMs == Some(obs[|obs| - 1].sample.at.ms.value)
            && (s.completed <==> obs[|obs| - 1].sample.at.ms.value >= options.startedAtMs + options.durationMs)
            && s.status == (if s.completed then Pass else Pending)
            && s.maxGapMs <= 2 * options.intervalMs
            && s.memoryGrowth == Growth(MemoryOf(Samples(obs)))
            && s.baseline == Some(Counters(obs[0].sample.health))
            && s.final == Some(Counters(obs[|obs| - 1].sample.health)) && HasCompleteEvidence(s)
  {
    SoakCleanLog.CleanRunExactly(obs, options);
    SoakCleanLog.FitLogIsDense(obs);
    MediansOfSamples(MemoryOf(Samples(obs)));
    CleanGap(obs, options);
  }

  lemma {:induction false} CleanGap(obs: seq<Observation>, options: Options)
    requires SoakCleanLog.IsCleanRun(obs, options) && ValidOptions(options)
    ensures MaxGap(Times(obs)) <= 2 * options.intervalMs
  {
    SoakCleanLog.FitLogIsDense(obs);
    var times := Times(obs);
    if MaxGap(times) > 0 {
      var k :| 0 < k < |times| && GapAt(times, k) == MaxGap(times);
      assert SoakCleanLog.FollowsWellAt(obs, k, options.intervalMs);
    }
  }

  /** The gate reads the counters of the first and the last sample as their proof of activity; that
      events did not fall is already in the clean run. */
  lemma {:induction false} CountersProveActivity(obs: seq<Observation>, options: Options)
    requires SoakCleanLog.IsCleanRun(obs, options) && obs != []
    ensures CounterEvidenceIsValid(obs[0].sample.health, obs[|obs| - 1].sample.health) <==>
            ProvesActivity(obs[0].sample.health, obs[|obs| - 1].sample.health)
  {
    SoakCleanLog.CleanRunExactly(obs, options);
    CleanSamplesAreSound(obs, options);
    NeverFall(obs, options, 0, |obs| - 1);
  }

  lemma {:induction false} PassingRunIsEligible(
    obs: seq<Observation>, options: Options, m: RunMetadata, s: Evaluation, i: Option<Integrity>)
    requires Evaluate(obs, options) == Ok(s) && IsPassingRun(obs, options) && DescribesRun(m, options) && HashMatches(i)
    ensures IsEligible(m, s, i)
  {
    PassingRunFacts(obs, options);
    RunReasonsExactly(obs, options, m, s, i);
    MetadataReasonsExactly(obs, options, m, s, i);
    SampleReasonsExactly(obs, options, m, s, i);
    EvidenceReasonsExactly(obs, options, m, s, i);
    HashReasonsExactly(m, s, i);
    forall r: Reason
      ensures !Applies(r, m, s, i)
    {
      match r {
        case RunNotCompleted => case SoakNotPassed => case SummaryNotCompleted => case DurationBelowMinimum =>
        case IntervalAboveMaximum => case RunSummaryMismatch => case CompletionTimeInvalid => case TooFewSamples =>
        case SampleErrorsPresent => case SuccessfulSampleMismatch => case FailuresPresent => case SampleGapExceeded =>
        case MemoryGrowthExceeded => case CompletionEvidenceMissing => case CounterEvidenceInvalid =>
        case SummaryHashMissing => case SummaryHashInvalid => case SummaryHashMismatch =>
      }
    }
  }

  lemma {:induction false} PassingRunFacts(obs: seq<Observation>, options: Options)
    requires IsPassingRun(obs, options)
    ensures Failures(obs, options) == {} && EndsInTime(obs, options) && |Samples(obs)| == |obs|
    ensures var first, last := Samples(obs)[0].health, Samples(obs)[|Samples(obs)| - 1].health;
            ProvesActivity(first, last) && CountersNotBelow(first, last)
  {
    SoakCleanLog.CleanRunExactly(obs, options);
    SoakCleanLog.FitLogIsDense(obs);
    CountersProveActivity(obs, options);
    EvidenceMeans(obs[0].sample.health, obs[|obs| - 1].sample.health);
  }

  lemma {:induction false} EligibleRunDescribed(m: RunMetadata, s: Evaluation, i: Option<Integrity>)
    requires IsEligible(m, s, i)
    ensures m.status == RunCompleted && MetadataAndSummaryMatch(m, s) && HashMatches(i)
    ensures HasCompleteEvidence(s) && CounterEvidenceIsValid(s.baseline.value.health, s.final.value.health)
  {
    assert !Applies(RunNotCompleted, m, s, i) && !Applies(RunSummaryMismatch, m, s, i);
    assert !Applies(SummaryHashMissing, m, s, i) && !Applies(SummaryHashInvalid, m, s, i);
    assert !Applies(SummaryHashMismatch, m, s, i);
    assert !Applies(CompletionEvidenceMissing, m, s, i) && !Applies(CounterEvidenceInvalid, m, s, i);
  }

  /** The gate lets a deployment go ahead on the summary of a log exactly if the log is a passing
      run, the metadata describe it, and the summary's hash was given and matches. */
  lemma {:induction false} EligibleExactly(
    obs: seq<Observation>, options: Options, m: RunMetadata, i: Option<Integrity>)
    requires Evaluate(obs, options).Ok?
    ensures IsEligible(m, Evaluate(obs, options).evaluation, i) <==>
            IsPassingRun(obs, options) && DescribesRun(m, options) && HashMatches(i)
  {
    if IsEligible(m, Evaluate(obs, options).evaluation, i) {
      EligibleLogIsSound(obs, options, m, i);
      EligibleRunDescribed(m, Evaluate(obs, options).evaluation, i);
      CleanReport(obs, options);
      CountersProveActivity(obs, options);
    }
    if IsPassingRun(obs, options) && DescribesRun(m, options) && HashMatches(i) {
      PassingRunIsEligible(obs, options, m, Evaluate(obs, options).evaluation, i);
    }
  }

  // ---------------------------------------------------------------------------
  // What each reason says of the log
  // ---------------------------------------------------------------------------

  predicate EndsInTime(obs: seq<Observation>, options: Options) {
    var times := Times(obs);
    times != [] && times[|times| - 1] >= options.startedAtMs + options.durationMs
  }

  lemma {:induction false} EvaluatedEnd(obs: seq<Observation>, options: Options)
    requires Evaluate(obs, options).Ok?
    ensures var s := Evaluate(obs, options).evaluation;
            && (s.completed <==> EndsInTime(obs, options)) && (CompletionTimeIsValid(s) <==> EndsInTime(obs, options))
            && (s.status == Pass <==> Failures(obs, options) == {} && EndsInTime(obs, options))
  {
    SoakReport.ReportExactly(obs, options);
  }

  lemma RunReasonsMean(m: RunMetadata, s: Evaluation, i: Option<Integrity>)
    ensures Applies(RunNotCompleted, m, s, i) <==> m.status != RunCompleted
    ensures Applies(SoakNotPassed, m, s, i) <==> s.status != Pass
    ensures Applies(SummaryNotCompleted, m, s, i) <==> !s.completed
    ensures Applies(CompletionTimeInvalid, m, s, i) <==> !CompletionTimeIsValid(s)
  {
  }

  lemma {:induction false} RunReasonsExactly(
    obs: seq<Observation>, options: Options, m: RunMetadata, s: Evaluation, i: Option<Integrity>)
    requires Evaluate(obs, options) == Ok(s)
    ensures Applies(RunNotCompleted, m, s, i) <==> m.status != RunCompleted
    ensures Applies(SoakNotPassed, m, s, i) <==> Failures(obs, options) != {} || !EndsInTime(obs, options)
    ensures Applies(SummaryNotCompleted, m, s, i) <==> !EndsInTime(obs, options)
    ensures Applies(CompletionTimeInvalid, m, s, i) <==> !EndsInTime(obs, options)
  {
    RunReasonsMean(m, s, i);
    EvaluatedEnd(obs, options);
  }

  lemma MetadataReasonsMean(m: RunMetadata, s: Evaluation, i: Option<Integrity>)
    ensures Applies(DurationBelowMinimum, m, s, i) <==> m.durationMs < 259_200_000
    ensures Applies(IntervalAboveMaximum, m, s, i) <==> m.intervalMs > 300_000
    ensures Applies(RunSummaryMismatch, m, s, i) <==> !MetadataAndSummaryMatch(m, s)
  {
  }

  lemma {:induction false} EvaluatedPlan(obs: seq<Observation>, options: Options)
    requires Evaluate(obs, options).Ok?
    ensures var s := Evaluate(obs, options).evaluation;
            && s.startedAtMs == options.startedAtMs && s.expectedEndAtMs == options.startedAtMs + options.durationMs
            && s.durationMs == options.durationMs && s.intervalMs == options.intervalMs
  {
    SoakReport.ReportExactly(obs, options);
  }

  lemma {:induction false} MetadataReasonsExactly(
    obs: seq<Observation>, options: Options, m: RunMetadata, s: Evaluation, i: Option<Integrity>)
    requires Evaluate(obs, options) == Ok(s)
    ensures Applies(DurationBelowMinimum, m, s, i) <==> m.durationMs < 259_200_000
    ensures Applies(IntervalAboveMaximum, m, s, i) <==> m.intervalMs > 300_000
    ensures Applies(RunSummaryMismatch, m, s, i) <==> !DescribesRun(m.(status := RunCompleted), options)
  {
    EvaluatedPlan(obs, options);
    MetadataReasonsMean(m, s, i);
  }

  /** A gap beyond twice the interval is the failure of that name. */
  lemma {:induction false} GapReason(obs: seq<Observation>, options: Options)
    requires Evaluate(obs, options).Ok?
    ensures Evaluate(obs, options).evaluation.maxGapMs > 2 * options.intervalMs <==> SampleGap in Failures(obs, options)
  {
    var times, limit := Times(obs), 2 * options.intervalMs;
    SoakCleanLog.TimeCodesExactly(obs, options);
    SoakReport.GapIsWidest(times);
    var gap := MaxGap(times);
    if gap > limit {
      var k :| 0 < k < |times| && SoakReport.AsWide(times, k, gap);
      assert SoakCleanLog.Apart(times, k, limit);
    }
    if SampleGap in Failures(obs, options) {
      var k :| 0 < k < |times| && SoakCleanLog.Apart(times, k, limit);
      assert !SoakReport.Wider(times, k, gap);
      assert limit < times[k] - times[k - 1] <= gap;
    }
  }

  lemma {:induction false} EvaluatedCounts(obs: seq<Observation>, options: Options)
    requires Evaluate(obs, options).Ok?
    ensures var s := Evaluate(obs, options).evaluation;
            && s.sampleCount == |obs| && s.failures == Failures(obs, options) && s.intervalMs == options.intervalMs
            && (s.errorSampleCount > 0 <==> SampleError in Failures(obs, options))
            && (s.successfulSampleCount != s.sampleCount <==> SampleError in Failures(obs, options))
  {
    SoakReport.ReportExactly(obs, options);
    SoakCleanLog.RecordCodesExactly(obs, options);
    AllMeasured(obs);
  }

  lemma {:induction false} EvaluatedEvidence(obs: seq<Observation>, options: Options)
    requires Evaluate(obs, options).Ok?
    ensures var s, samples := Evaluate(obs, options).evaluation, Samples(obs);
            && s.memoryGrowth == Growth(MemoryOf(samples)) && (HasCompleteEvidence(s) <==> samples != [])
            && (samples != [] ==>
                  && s.baseline == Some(Counters(samples[0].health))
                  && s.final == Some(Counters(samples[|samples| - 1].health)))
  {
    SoakReport.ReportExactly(obs, options);
    if Samples(obs) != [] { MediansOfSamples(MemoryOf(Samples(obs))); }
  }

  lemma SampleReasonsMean(m: RunMetadata, s: Evaluation, i: Option<Integrity>)
    ensures Applies(TooFewSamples, m, s, i) <==> s.sampleCount < 865
    ensures Applies(SampleErrorsPresent, m, s, i) <==> s.errorSampleCount > 0
    ensures Applies(SuccessfulSampleMismatch, m, s, i) <==>
            s.successfulSampleCount != s.sampleCount || s.errorSampleCount > 0
    ensures Applies(FailuresPresent, m, s, i) <==> s.failures != {}
    ensures Applies(SampleGapExceeded, m, s, i) <==> s.maxGapMs > 2 * s.intervalMs
    ensures Applies(MemoryGrowthExceeded, m, s, i) <==> s.memoryGrowth.Some? && s.memoryGrowth.value > 268_435_456.0
  {
  }

  lemma {:induction false} SampleReasonsExactly(
    obs: seq<Observation>, options: Options, m: RunMetadata, s: Evaluation, i: Option<Integrity>)
    requires Evaluate(obs, options) == Ok(s)
    ensures Applies(TooFewSamples, m, s, i) <==> |obs| < 865
    ensures Applies(SampleErrorsPresent, m, s, i) <==> SampleError in Failures(obs, options)
    ensures Applies(SuccessfulSampleMismatch, m, s, i) <==> SampleError in Failures(obs, options)
    ensures Applies(FailuresPresent, m, s, i) <==> Failures(obs, options) != {}
    ensures Applies(SampleGapExceeded, m, s, i) <==> SampleGap in Failures(obs, options)
    ensures Applies(MemoryGrowthExceeded, m, s, i) <==>
            var growth := Growth(MemoryOf(Samples(obs))); growth.Some? && growth.value > 268_435_456.0
  {
    SampleReasonsMean(m, s, i);
    EvaluatedCounts(obs, options);
    EvaluatedEvidence(obs, options);
    GapReason(obs, options);
  }

  /** Of the counters, that events did not fall is asked here as well. */
  lemma {:induction false} EvidenceMeans(first: Health, last: Health)
    ensures CounterEvidenceIsValid(first, last) <==> ProvesActivity(first, last) && CountersNotBelow(first, last)
  {
  }

  lemma EvidenceReasonsMean(m: RunMetadata, s: Evaluation, i: Option<Integrity>)
    ensures Applies(CompletionEvidenceMissing, m, s, i) <==> !HasCompleteEvidence(s)
    ensures Applies(CounterEvidenceInvalid, m, s, i) <==>
            HasCompleteEvidence(s) && !CounterEvidenceIsValid(s.baseline.value.health, s.final.value.health)
  {
  }

  lemma {:induction false} EvidenceReasonsExactly(
    obs: seq<Observation>, options: Options, m: RunMetadata, s: Evaluation, i: Option<Integrity>)
    requires Evaluate(obs, options) == Ok(s)
    ensures Applies(CompletionEvidenceMissing, m, s, i) <==> Samples(obs) == []
    ensures Applies(CounterEvidenceInvalid, m, s, i) <==>
            && Samples(obs) != []
            && (var first, last := Samples(obs)[0].health, Samples(obs)[|Samples(obs)| - 1].health;
                !ProvesActivity(first, last) || !CountersNotBelow(first, last))
  {
    EvaluatedEvidence(obs, options);
    EvidenceReasonsMean(m, s, i);
    if Samples(obs) != [] {
      EvidenceMeans(Samples(obs)[0].health, Samples(obs)[|Samples(obs)| - 1].health);
    }
  }

  /** Of a completed run at most one thing is wrong with the hash of its summary. */
  lemma HashReasonsExactly(m: RunMetadata, s: Evaluation, i: Option<Integrity>)
    ensures Applies(SummaryHashMissing, m, s, i) <==> m.status == RunCompleted && i == None
    ensures Applies(SummaryHashInvalid, m, s, i) <==> m.status == RunCompleted && i.Some? && !i.value.digestIsHex
    ensures Applies(SummaryHashMismatch, m, s, i) <==>
            m.status == RunCompleted && i.Some? && i.value.digestIsHex && !i.value.digestMatches
  {
  }

  /** The latest observation no later than an instant. */
  lemma {:induction false} LatestBefore(obs: seq<Observation>, t: int, n: nat) returns (k: nat)
    requires n < |obs| && TimeAt(obs, 0) <= t
    ensures k <= n && TimeAt(obs, k) <= t && (k == n || t < TimeAt(obs, k + 1))
    decreases n
  {
    if n == 0 || TimeAt(obs, n) <= t {
      k := n;
    } else {
      k := LatestBefore(obs, t, n - 1);
    }
  }

  /** At every instant between the first and the last observation of an eligible log, the system
      had been seen healthy at most ten minutes before. */
  lemma EligibleLogCoversEveryInstant(obs: seq<Observation>, options: Options, m: RunMetadata, i: Option<Integrity>,
                                      t: int)
    requires Evaluate(obs, options).Ok? && IsEligible(m, Evaluate(obs, options).evaluation, i)
    requires obs != [] && TimeAt(obs, 0) <= t <= TimeAt(obs, |obs| - 1)
    ensures exists k :: 0 <= k < |obs| && obs[k].Measured? && HealthAt(obs, k).ready
                        && 0 <= t - TimeAt(obs, k) <= 2 * MAXIMUM_INTERVAL_MS
  {
    EligibleLogIsSound(obs, options, m, i);
    var k := LatestBefore(obs, t, |obs| - 1);
    assert k + 1 < |obs| ==> ShortStep(obs, k + 1, 2 * options.intervalMs);
    assert obs[k].Measured? && HealthAt(obs, k).ready;
  }
}
