/**
 The soak evaluator (tools/haos-soak-core.ts): one pass over the observation log, collecting
 failure codes, against a declarative reading of each code.

 A timestamp is what `Date.parse` makes of its text, and whether the text is the ISO form of
 that instant.  Health and resource fields no rule reads are left out.
 */
module SoakEvaluation {
  import opened Wrappers

  datatype Timestamp = Timestamp(ms: Option<int>, canonical: bool)

  datatype Health = Health(
    live: bool,
    ready: bool,
    state: string,
    observedDeviceCount: nat,
    decodedDeviceEventCount: nat,
    uniqueLogicalEventCount: nat,
    duplicateEventCount: nat,
    protocolInvalidFrameCount: nat,
    protocolChangeCount: nat,
    restartCount: nat,
    inventoryDeviceCount: Option<nat>,
    inventorySequence: Option<nat>,
    eventSequence: Option<nat>,
    browserUptimeMs: Option<nat>)

  datatype Sample = Sample(at: Timestamp, health: Health, memoryUsageBytes: nat)

  datatype Observation =
    | Measured(sample: Sample)
    | Missed(missedAt: Timestamp, code: string)

  datatype FailureCode =
    | SampleError | TimestampInvalid | TimestampOrder | NotLive | NotReady | StateNotConnected
    | ProtocolChanged | RuntimeRestarted | InvalidFrameIncrease | CounterRegression | InventoryChanged
    | SequenceRegression | SampleGap | MemoryGrowth | InsufficientSamples

  datatype Options = Options(startedAtMs: int, durationMs: int, intervalMs: int, maxGrowthBytes: Option<int>)

  datatype SoakStatus = Pending | Pass | Fail

  datatype Counters = Counters(health: Health)

  datatype Evaluation = Evaluation(
    status: SoakStatus,
    startedAtMs: int,
    expectedEndAtMs: int,
    lastSampledAtMs: Option<int>,
    durationMs: int,
    intervalMs: int,
    completed: bool,
    sampleCount: nat,
    successfulSampleCount: nat,
    errorSampleCount: nat,
    failures: set<FailureCode>,
    countersFlat: bool,
    maxGapMs: int,
    memoryStartMedian: Option<real>,
    memoryEndMedian: Option<real>,
    memoryPeak: Option<nat>,
    memoryGrowth: Option<real>,
    baseline: Option<Counters>,
    final: Option<Counters>)

  datatype SoakError = OptionsInvalid | UnsafeTimestamp | DateOutOfRange
  datatype Result = Ok(evaluation: Evaluation) | Err(error: SoakError)

  const MAX_SAFE_INTEGER := 9_007_199_254_740_991
  const MAX_DATE_MS := 8_640_000_000_000_000
  const UPTIME_TOLERANCE_MS := 5_000
  const DEFAULT_GROWTH_BYTES := 268_435_456

  // ---------------------------------------------------------------------------
  // The parts of a log
  // ---------------------------------------------------------------------------

  function At(o: Observation): Timestamp {
    match o case Measured(s) => s.at case Missed(at, _) => at
  }

  function Samples(obs: seq<Observation>): (samples: seq<Sample>)
    ensures |samples| <= |obs|
  {
    if obs == [] then []
    else
      var n := |obs| - 1;
      Samples(obs[..n]) + if obs[n].Measured? then [obs[n].sample] else []
  }

  function Times(obs: seq<Observation>): (times: seq<int>)
    ensures |times| <= |obs|
  {
    if obs == [] then []
    else
      var n := |obs| - 1;
      Times(obs[..n]) + if At(obs[n]).ms.Some? then [At(obs[n]).ms.value] else []
  }

  /** Nothing was missed exactly when there are as many samples as observations. */
  lemma {:induction false} AllMeasured(obs: seq<Observation>)
    ensures |Samples(obs)| == |obs| <==> forall k :: 0 <= k < |obs| ==> obs[k].Measured?
    ensures |Samples(obs)| == |obs| ==> forall k :: 0 <= k < |obs| ==> Samples(obs)[k] == obs[k].sample
  {
    if obs != [] {
      var pre := obs[..|obs| - 1];
      AllMeasured(pre);
      assert forall k :: 0 <= k < |pre| ==> obs[k] == pre[k];
    }
  }

  lemma {:induction false} AllDated(obs: seq<Observation>)
    ensures |Times(obs)| == |obs| <==> forall k :: 0 <= k < |obs| ==> At(obs[k]).ms.Some?
    ensures |Times(obs)| == |obs| ==> forall k :: 0 <= k < |obs| ==> Times(obs)[k] == At(obs[k]).ms.value
  {
    if obs != [] {
      var pre := obs[..|obs| - 1];
      AllDated(pre);
      assert forall k :: 0 <= k < |pre| ==> obs[k] == pre[k];
    }
  }

  lemma AppendToLog(obs: seq<Observation>, o: Observation)
    ensures Samples(obs + [o]) == Samples(obs) + if o.Measured? then [o.sample] else []
    ensures Times(obs + [o]) == Times(obs) + if At(o).ms.Some? then [At(o).ms.value] else []
  {
    assert (obs + [o])[..|obs|] == obs;
  }

  // ---------------------------------------------------------------------------
  // The rules
  // ---------------------------------------------------------------------------

  predicate AnyMissed(obs: seq<Observation>) { exists k :: 0 <= k < |obs| && obs[k].Missed? }
  predicate AnyUndated(obs: seq<Observation>) { exists k :: 0 <= k < |obs| && At(obs[k]).ms.None? }

  predicate CountersRegressed(p: Sample, c: Sample) {
    || c.health.decodedDeviceEventCount < p.health.decodedDeviceEventCount
    || c.health.uniqueLogicalEventCount < p.health.uniqueLogicalEventCount
    || c.health.duplicateEventCount < p.health.duplicateEventCount
  }
  predicate Regressed(p: Option<nat>, c: Option<nat>) { p.Some? && c.Some? && c.value < p.value }
  predicate SequenceRegressed(p: Sample, c: Sample) {
    || Regressed(p.health.inventorySequence, c.health.inventorySequence)
    || Regressed(p.health.eventSequence, c.health.eventSequence)
  }
  predicate InventoryDiffers(p: Sample, c: Sample) {
    p.health.inventoryDeviceCount.Some? && c.health.inventoryDeviceCount.Some?
    && p.health.inventoryDeviceCount != c.health.inventoryDeviceCount
  }
  predicate UptimeRegressed(p: Sample, c: Sample) {
    p.health.browserUptimeMs.Some? && c.health.browserUptimeMs.Some?
    && c.health.browserUptimeMs.value + UPTIME_TOLERANCE_MS < p.health.browserUptimeMs.value
  }

  /** Whether the step from one time to the next earns a code. */
  predicate StepFails(code: FailureCode, from: int, to: int, intervalMs: int) {
    || (code == TimestampOrder && to < from)
    || (code == SampleGap && to - from > 2 * intervalMs)
  }

  predicate StepFailsAt(code: FailureCode, times: seq<int>, k: int, intervalMs: int)
    requires 0 < k < |times|
  {
    StepFails(code, times[k - 1], times[k], intervalMs)
  }

  function GapAt(times: seq<int>, k: int): int
    requires 0 < k < |times|
  {
    times[k] - times[k - 1]
  }

  /** Whether a sample earns a code, against the first sample and the one before it. */
  predicate SampleFails(code: FailureCode, first: Sample, previous: Option<Sample>, x: Sample) {
    match code
    case NotLive => !x.health.live
    case NotReady => !x.health.ready
    case StateNotConnected => x.health.state != "CONNECTED"
    case ProtocolChanged => x.health.protocolChangeCount > first.health.protocolChangeCount
    case RuntimeRestarted =>
      x.health.restartCount > first.health.restartCount || (previous.Some? && UptimeRegressed(previous.value, x))
    case InvalidFrameIncrease => x.health.protocolInvalidFrameCount > first.health.protocolInvalidFrameCount
    case CounterRegression => previous.Some? && CountersRegressed(previous.value, x)
    case InventoryChanged => previous.Some? && InventoryDiffers(previous.value, x)
    case SequenceRegression => previous.Some? && SequenceRegressed(previous.value, x)
    case _ => false
  }

  predicate SampleFailsAt(code: FailureCode, s: seq<Sample>, k: nat)
    requires k < |s|
  {
    SampleFails(code, s[0], if k == 0 then None else Some(s[k - 1]), s[k])
  }

  predicate Completed(obs: seq<Observation>, options: Options) {
    var times := Times(obs);
    times != [] && times[|times| - 1] >= options.startedAtMs + options.durationMs
  }

  function MemoryOf(samples: seq<Sample>): (memory: seq<nat>)
    ensures |memory| == |samples|
  {
    seq(|samples|, i requires 0 <= i < |samples| => samples[i].memoryUsageBytes)
  }

  function Insert(x: nat, s: seq<nat>): (r: seq<nat>)
    ensures |r| == |s| + 1
  {
    if s == [] || x <= s[0] then [x] + s else [s[0]] + Insert(x, s[1..])
  }

  function Sorted(s: seq<nat>): (r: seq<nat>)
    ensures |r| == |s|
  {
    if s == [] then [] else Insert(s[0], Sorted(s[1..]))
  }

  predicate Ordered(s: seq<nat>) { |s| < 2 || (s[0] <= s[1] && Ordered(s[1..])) }

  lemma {:induction false} InsertKeepsOrder(x: nat, s: seq<nat>)
    requires Ordered(s)
    ensures Ordered(Insert(x, s)) && Insert(x, s)[0] == if s == [] || x <= s[0] then x else s[0]
    ensures multiset(Insert(x, s)) == multiset(s) + multiset{x}
  {
    if s != [] && x > s[0] {
      InsertKeepsOrder(x, s[1..]);
      assert Insert(x, s)[1..] == Insert(x, s[1..]);
      assert s == [s[0]] + s[1..];
    } else {
      assert Insert(x, s)[1..] == s;
    }
  }

  lemma {:induction false} SortedAscends(s: seq<nat>)
    ensures Ordered(Sorted(s))
  {
    if s != [] {
      SortedAscends(s[1..]);
      InsertKeepsOrder(s[0], Sorted(s[1..]));
    }
  }

  /** The windows' medians are taken from the same values in ascending order. */
  lemma {:induction false} SortedSorts(s: seq<nat>)
    ensures Ordered(Sorted(s)) && multiset(Sorted(s)) == multiset(s)
  {
    SortedAscends(s);
    if s != [] {
      SortedSorts(s[1..]);
      SortedAscends(s[1..]);
      InsertKeepsOrder(s[0], Sorted(s[1..]));
      assert s == [s[0]] + s[1..];
    }
  }

  /** The value in the middle, or the mean of the two there. */
  function Middle(sorted: seq<nat>): real
    requires sorted != []
  {
    var middle := |sorted| / 2;
    if |sorted| % 2 == 1 then sorted[middle] as real else (sorted[middle - 1] + sorted[middle]) as real / 2.0
  }

  function Median(s: seq<nat>): Option<real> { if s == [] then None else Some(Middle(Sorted(s))) }

  /** A tenth of the samples, rounded up, but at least one and at most twelve. */
  function WindowSize(n: nat): nat {
    var tenth := (n + 9) / 10;
    if tenth < 1 then 1 else if tenth > 12 then 12 else tenth
  }

  function StartMedian(memory: seq<nat>): Option<real> {
    Median(if WindowSize(|memory|) < |memory| then memory[..WindowSize(|memory|)] else memory)
  }

  function EndMedian(memory: seq<nat>): Option<real> {
    Median(if WindowSize(|memory|) < |memory| then memory[|memory| - WindowSize(|memory|)..] else memory)
  }

  function Growth(memory: seq<nat>): Option<real> {
    if StartMedian(memory) == None || EndMedian(memory) == None then None
    else Some(EndMedian(memory).value - StartMedian(memory).value)
  }

  predicate GrowthExceeds(growth: Option<real>, limit: int) { growth.Some? && growth.value > limit as real }

  predicate TimesFail(code: FailureCode, times: seq<int>, intervalMs: int) {
    exists k :: 0 < k < |times| && StepFailsAt(code, times, k, intervalMs)
  }

  predicate SamplesFail(code: FailureCode, samples: seq<Sample>) {
    exists k :: 0 <= k < |samples| && SampleFailsAt(code, samples, k)
  }

  function GrowthLimit(options: Options): int { options.maxGrowthBytes.GetOr(DEFAULT_GROWTH_BYTES) }

  predicate MemoryFails(samples: seq<Sample>, options: Options) {
    GrowthExceeds(Growth(MemoryOf(samples)), GrowthLimit(options))
  }

  /** When a log earns a failure code. */
  predicate Fails(code: FailureCode, obs: seq<Observation>, options: Options) {
    match code
    case SampleError => AnyMissed(obs)
    case TimestampInvalid => AnyUndated(obs)
    case TimestampOrder => TimesFail(code, Times(obs), options.intervalMs)
    case SampleGap => TimesFail(code, Times(obs), options.intervalMs)
    case InsufficientSamples => Completed(obs, options) && |Samples(obs)| < 2
    case MemoryGrowth => MemoryFails(Samples(obs), options)
    case _ => SamplesFail(code, Samples(obs))
  }

  function Failures(obs: seq<Observation>, options: Options): set<FailureCode> {
    set code: FailureCode | Fails(code, obs, options)
  }

  function Max(a: int, b: int): int { if a < b then b else a }

  /** The widest forward step between neighbouring times. */
  function MaxGap(times: seq<int>): (gap: int)
    ensures 0 <= gap
    ensures forall k :: 0 < k < |times| ==> GapAt(times, k) <= gap
    ensures gap == 0 || exists k :: 0 < k < |times| && GapAt(times, k) == gap
  {
    if |times| < 2 then 0
    else
      var n := |times| - 1;
      var before := MaxGap(times[..n]);
      assert forall k :: 0 <= k < n ==> times[..n][k] == times[k];
      assert forall k :: 0 < k < n ==> GapAt(times[..n], k) == GapAt(times, k);
      Max(before, GapAt(times, n))
  }

  function Peak(memory: seq<nat>): (peak: Option<nat>)
    ensures peak.Some? <==> memory != []
    ensures peak.Some? ==> peak.value in memory && forall m :: m in memory ==> m <= peak.value
  {
    if memory == [] then None
    else
      var rest := Peak(memory[1..]);
      assert memory == [memory[0]] + memory[1..];
      Some(if rest.Some? && rest.value > memory[0] then rest.value else memory[0])
  }

  function EndsOf(samples: seq<Sample>): (Option<Counters>, Option<Counters>) {
    if samples == [] then (None, None)
    else (Some(Counters(samples[0].health)), Some(Counters(samples[|samples| - 1].health)))
  }

  predicate IsFlat(samples: seq<Sample>) {
    samples != []
    && samples[0].health.decodedDeviceEventCount == samples[|samples| - 1].health.decodedDeviceEventCount
    && samples[0].health.uniqueLogicalEventCount == samples[|samples| - 1].health.uniqueLogicalEventCount
  }

  predicate ValidOptions(o: Options) {
    && 0 <= o.startedAtMs <= MAX_SAFE_INTEGER
    && 0 < o.durationMs <= MAX_SAFE_INTEGER
    && 0 < o.intervalMs <= MAX_SAFE_INTEGER
    && (o.maxGrowthBytes.Some? ==> 0 <= o.maxGrowthBytes.value <= MAX_SAFE_INTEGER)
  }

  predicate IsSafe(t: Timestamp) { t.ms.Some? && t.canonical }

  function StatusOf(failures: set<FailureCode>, completed: bool): SoakStatus {
    if failures != {} then Fail else if completed then Pass else Pending
  }

  /** What is reported once failures and gaps are known. */
  function Report(obs: seq<Observation>, options: Options, failures: set<FailureCode>, maxGap: int): Evaluation {
    var samples, completed := Samples(obs), Completed(obs, options);
    var memory := MemoryOf(samples);
    Evaluation(
      StatusOf(failures, completed), options.startedAtMs, options.startedAtMs + options.durationMs,
      if obs == [] then None else At(obs[|obs| - 1]).ms,
      options.durationMs, options.intervalMs, completed, |obs|, |samples|, |obs| - |samples|,
      failures, IsFlat(samples), maxGap,
      StartMedian(memory), EndMedian(memory), Peak(memory), Growth(memory),
      EndsOf(samples).0, EndsOf(samples).1)
  }

  /** What `evaluateSoak` returns, read off the log declaratively. */
  function Evaluate(obs: seq<Observation>, options: Options): Result {
    if !ValidOptions(options) then Err(OptionsInvalid)
    else if options.startedAtMs + options.durationMs > MAX_DATE_MS then Err(DateOutOfRange)
    else if obs != [] && !IsSafe(At(obs[|obs| - 1])) then Err(UnsafeTimestamp)
    else Ok(Report(obs, options, Failures(obs, options), MaxGap(Times(obs))))
  }

  // ---------------------------------------------------------------------------
  // The loops of `evaluateSoak`
  // ---------------------------------------------------------------------------

  /** What one more timestamp adds to the codes. */
  predicate TimeAdds(code: FailureCode, times: seq<int>, t: int, intervalMs: int) {
    times != [] && StepFails(code, times[|times| - 1], t, intervalMs)
  }

  lemma TimesFailAppend(code: FailureCode, times: seq<int>, t: int, intervalMs: int)
    ensures TimesFail(code, times + [t], intervalMs) <==>
            TimesFail(code, times, intervalMs) || TimeAdds(code, times, t, intervalMs)
  {
    var all := times + [t];
    assert forall k :: 0 <= k < |times| ==> all[k] == times[k];
    assert forall k :: 0 < k < |times| ==>
      (StepFailsAt(code, all, k, intervalMs) <==> StepFailsAt(code, times, k, intervalMs));
    if times != [] {
      assert StepFailsAt(code, all, |times|, intervalMs) <==> TimeAdds(code, times, t, intervalMs);
    }
  }

  function LastOf(s: seq<Sample>): Option<Sample> { if s == [] then None else Some(s[|s| - 1]) }

  lemma SamplesFailAppend(code: FailureCode, s: seq<Sample>, x: Sample)
    ensures SamplesFail(code, s + [x]) <==> SamplesFail(code, s) || SampleFails(code, (s + [x])[0], LastOf(s), x)
  {
    var all := s + [x];
    assert forall k: nat :: k < |s| ==> all[k] == s[k];
    assert forall k: nat :: k < |s| ==> (SampleFailsAt(code, all, k) <==> SampleFailsAt(code, s, k));
    assert SampleFailsAt(code, all, |s|) <==> SampleFails(code, all[0], LastOf(s), x);
  }

  method AddIf(failures: set<FailureCode>, holds: bool, code: FailureCode) returns (r: set<FailureCode>)
    ensures forall c :: c in r <==> c in failures || (holds && c == code)
  {
    r := if holds then failures + {code} else failures;
  }

  predicate TimingSoFar(obs: seq<Observation>, intervalMs: int, failures: set<FailureCode>, times: seq<int>, gap: int) {
    && times == Times(obs) && gap == MaxGap(times)
    && (TimestampInvalid in failures <==> AnyUndated(obs))
    && forall code :: code != SampleError && code != TimestampInvalid ==>
       (code in failures <==> TimesFail(code, times, intervalMs))
  }

  lemma {:induction false} MaxGapAppend(times: seq<int>, t: int)
    ensures MaxGap(times + [t]) == if times == [] then 0 else Max(MaxGap(times), t - times[|times| - 1])
  {
    var all, n := times + [t], |times|;
    assert all[..n] == times && |all| == n + 1;
    if n > 0 {
      assert GapAt(all, n) == t - times[n - 1];
      assert MaxGap(all) == Max(MaxGap(all[..n]), GapAt(all, n));
    }
  }

  lemma UndatedAppend(obs: seq<Observation>, o: Observation)
    ensures AnyUndated(obs + [o]) <==> AnyUndated(obs) || At(o).ms.None?
    ensures AnyMissed(obs + [o]) <==> AnyMissed(obs) || o.Missed?
  {
    var all := obs + [o];
    assert all[|obs|] == o;
    assert forall k :: 0 <= k < |obs| ==> all[k] == obs[k];
  }

  lemma TimeStep(obs: seq<Observation>, o: Observation, intervalMs: int, before: set<FailureCode>,
                 failures: set<FailureCode>, times: seq<int>, gap: int)
    requires TimingSoFar(obs, intervalMs, before, times, gap) && At(o).ms.Some?
    requires forall code :: code in failures <==> code in before || TimeAdds(code, times, At(o).ms.value, intervalMs)
    ensures TimingSoFar(obs + [o], intervalMs, failures, times + [At(o).ms.value],
                        if times == [] then 0 else Max(gap, At(o).ms.value - times[|times| - 1]))
  {
    var t := At(o).ms.value;
    AppendToLog(obs, o);
    UndatedAppend(obs, o);
    MaxGapAppend(times, t);
    forall code: FailureCode
      ensures TimesFail(code, times + [t], intervalMs) <==>
              TimesFail(code, times, intervalMs) || TimeAdds(code, times, t, intervalMs)
    {
      TimesFailAppend(code, times, t, intervalMs);
    }
  }

  lemma UndatedStep(obs: seq<Observation>, o: Observation, intervalMs: int, before: set<FailureCode>,
                    times: seq<int>, gap: int)
    requires TimingSoFar(obs, intervalMs, before, times, gap) && At(o).ms.None?
    ensures TimingSoFar(obs + [o], intervalMs, before + {TimestampInvalid}, times, gap)
  {
    AppendToLog(obs, o);
    UndatedAppend(obs, o);
  }

  /** One turn of the first loop with a readable timestamp. */
  method CheckTime(times: seq<int>, t: int, intervalMs: int, before: set<FailureCode>, maxGap: int)
    returns (failures: set<FailureCode>, gap: int)
    requires intervalMs > 0 && maxGap >= 0 && (times == [] ==> maxGap == 0)
    ensures forall code :: code in failures <==> code in before || TimeAdds(code, times, t, intervalMs)
    ensures gap == if times == [] then 0 else Max(maxGap, t - times[|times| - 1])
  {
    failures, gap := before, maxGap;
    if times != [] {
      var step := t - times[|times| - 1];
      if step < 0 {
        failures := failures + {TimestampOrder};
      } else {
        gap := Max(maxGap, step);
        if step > 2 * intervalMs {
          failures := failures + {SampleGap};
        }
      }
    }
  }

  lemma NothingScanned(intervalMs: int, failures: set<FailureCode>)
    requires failures <= {SampleError}
    ensures TimingSoFar([], intervalMs, failures, [], 0)
  {
  }

  /** One turn of the first loop. */
  method ScanNext(ghost obs: seq<Observation>, o: Observation, intervalMs: int, before: set<FailureCode>,
                  timesBefore: seq<int>, gapBefore: int)
    returns (failures: set<FailureCode>, times: seq<int>, maxGap: int)
    requires intervalMs > 0 && TimingSoFar(obs, intervalMs, before, timesBefore, gapBefore)
    ensures TimingSoFar(obs + [o], intervalMs, failures, times, maxGap)
    ensures SampleError in failures <==> SampleError in before
  {
    failures, times, maxGap := before, timesBefore, gapBefore;
    if At(o).ms.None? {
      UndatedStep(obs, o, intervalMs, before, times, maxGap);
      failures := failures + {TimestampInvalid};
    } else {
      var timestamp := At(o).ms.value;
      failures, maxGap := CheckTime(times, timestamp, intervalMs, before, maxGap);
      TimeStep(obs, o, intervalMs, before, failures, times, gapBefore);
      times := times + [timestamp];
    }
  }

  /** The first loop: times, gaps and their order. */
  method ScanTimes(obs: seq<Observation>, intervalMs: int)
    returns (failures: set<FailureCode>, times: seq<int>, maxGap: int)
    requires intervalMs > 0
    ensures TimingSoFar(obs, intervalMs, failures, times, maxGap)
    ensures SampleError in failures <==> AnyMissed(obs)
  {
    var missed := AnyMissed(obs);
    failures := if missed then {SampleError} else {};
    times, maxGap := [], 0;
    NothingScanned(intervalMs, failures);
    for i := 0 to |obs|
      invariant TimingSoFar(obs[..i], intervalMs, failures, times, maxGap)
      invariant SampleError in failures <==> missed
    {
      assert obs[..i + 1] == obs[..i] + [obs[i]];
      failures, times, maxGap := ScanNext(obs[..i], obs[i], intervalMs, failures, times, maxGap);
    }
    assert obs[..|obs|] == obs;
  }

  /** One turn of the second loop. */
  method CheckSample(first: Sample, previous: Option<Sample>, sample: Sample, before: set<FailureCode>)
    returns (failures: set<FailureCode>)
    ensures forall code :: code in failures <==> code in before || SampleFails(code, first, previous, sample)
  {
    failures := AddIf(before, !sample.health.live, NotLive);
    failures := AddIf(failures, !sample.health.ready, NotReady);
    failures := AddIf(failures, sample.health.state != "CONNECTED", StateNotConnected);
    failures := AddIf(failures, sample.health.protocolChangeCount > first.health.protocolChangeCount, ProtocolChanged);
    failures := AddIf(failures, sample.health.restartCount > first.health.restartCount, RuntimeRestarted);
    failures := AddIf(failures, sample.health.protocolInvalidFrameCount > first.health.protocolInvalidFrameCount,
                      InvalidFrameIncrease);
    if previous.Some? {
      failures := CheckPair(previous.value, sample, failures);
    }
  }

  method CheckPair(previous: Sample, sample: Sample, before: set<FailureCode>) returns (failures: set<FailureCode>)
    ensures forall code :: code in failures <==>
              || code in before
              || (code == CounterRegression && CountersRegressed(previous, sample))
              || (code == InventoryChanged && InventoryDiffers(previous, sample))
              || (code == SequenceRegression && SequenceRegressed(previous, sample))
              || (code == RuntimeRestarted && UptimeRegressed(previous, sample))
  {
    failures := AddIf(before, CountersRegressed(previous, sample), CounterRegression);
    failures := AddIf(failures, InventoryDiffers(previous, sample), InventoryChanged);
    failures := AddIf(failures, SequenceRegressed(previous, sample), SequenceRegression);
    failures := AddIf(failures, UptimeRegressed(previous, sample), RuntimeRestarted);
  }

  /** The second loop: the samples against the first one and against their neighbours. */
  method ScanSamples(samples: seq<Sample>, before: set<FailureCode>) returns (failures: set<FailureCode>)
    ensures forall code :: code in failures <==> code in before || SamplesFail(code, samples)
  {
    failures := before;
    var previous: Option<Sample> := None;
    for i := 0 to |samples|
      invariant previous == LastOf(samples[..i])
      invariant forall code :: code in failures <==> code in before || SamplesFail(code, samples[..i])
    {
      ghost var seen := samples[..i];
      assert samples[..i + 1] == seen + [samples[i]];
      var next := CheckSample(samples[0], previous, samples[i], failures);
      forall code: FailureCode
        ensures SamplesFail(code, samples[..i + 1]) <==>
                SamplesFail(code, seen) || SampleFails(code, samples[0], previous, samples[i])
      {
        SamplesFailAppend(code, seen, samples[i]);
      }
      failures, previous := next, Some(samples[i]);
    }
    assert samples[..|samples|] == samples;
  }

  /** Every code is covered by one of the scans or one of the last two checks. */
  lemma CodesAreComplete(obs: seq<Observation>, options: Options, timed: set<FailureCode>, failures: set<FailureCode>,
                         times: seq<int>, gap: int)
    requires TimingSoFar(obs, options.intervalMs, timed, times, gap)
    requires SampleError in timed <==> AnyMissed(obs)
    requires forall code :: code in failures <==>
               || code in timed || SamplesFail(code, Samples(obs))
               || (code == InsufficientSamples && Completed(obs, options) && |Samples(obs)| < 2)
               || (code == MemoryGrowth && MemoryFails(Samples(obs), options))
    ensures failures == Failures(obs, options)
  {
    forall code: FailureCode
      ensures code in failures <==> Fails(code, obs, options)
    {
      if code == TimestampInvalid {
      } else if code == SampleError {
      } else {
        assert code in timed <==> TimesFail(code, times, options.intervalMs);
      }
    }
  }

  /** Both loops and the two checks after them. */
  method CollectFailures(obs: seq<Observation>, options: Options) returns (failures: set<FailureCode>, maxGap: int)
    requires ValidOptions(options)
    ensures failures == Failures(obs, options) && maxGap == MaxGap(Times(obs))
  {
    var timed, times, gap := ScanTimes(obs, options.intervalMs);
    maxGap := gap;
    var samples := Samples(obs);
    failures := ScanSamples(samples, timed);
    var completed := times != [] && times[|times| - 1] >= options.startedAtMs + options.durationMs;
    failures := AddIf(failures, completed && |samples| < 2, InsufficientSamples);
    failures := AddIf(failures, MemoryFails(samples, options), MemoryGrowth);
    CodesAreComplete(obs, options, timed, failures, times, maxGap);
  }

  method EvaluateSoak(obs: seq<Observation>, options: Options) returns (r: Result)
    ensures r == Evaluate(obs, options)
  {
    if !ValidOptions(options) {
      return Err(OptionsInvalid);
    }
    var failures, maxGap := CollectFailures(obs, options);
    if options.startedAtMs + options.durationMs > MAX_DATE_MS {
      return Err(DateOutOfRange);
    }
    if obs != [] && !IsSafe(At(obs[|obs| - 1])) {
      return Err(UnsafeTimestamp);
    }
    r := Ok(Report(obs, options, failures, maxGap));
  }

  // ---------------------------------------------------------------------------
  // Longer logs
  // ---------------------------------------------------------------------------

  /** Everything but sustained memory growth and a too short log is failed for good. */
  lemma AppendKeepsFailures(obs: seq<Observation>, o: Observation, options: Options, code: FailureCode)
    requires code in Failures(obs, options) && code != MemoryGrowth && code != InsufficientSamples
    ensures code in Failures(obs + [o], options)
  {
    AppendToLog(obs, o);
    UndatedAppend(obs, o);
    assert Samples(obs) + [] == Samples(obs) && Times(obs) + [] == Times(obs);
    if At(o).ms.Some? {
      TimesFailAppend(code, Times(obs), At(o).ms.value, options.intervalMs);
    }
    if o.Measured? {
      SamplesFailAppend(code, Samples(obs), o.sample);
    }
  }

  /** The same for a whole continuation of the run. */
  lemma {:induction false} ContinuationKeepsFailures(
    obs: seq<Observation>, more: seq<Observation>, options: Options, code: FailureCode)
    requires code in Failures(obs, options) && code != MemoryGrowth && code != InsufficientSamples
    ensures code in Failures(obs + more, options)
  {
    if more == [] {
      assert obs + more == obs;
    } else {
      var n := |more| - 1;
      ContinuationKeepsFailures(obs, more[..n], options, code);
      AppendKeepsFailures(obs + more[..n], more[n], options, code);
      assert obs + more == obs + more[..n] + [more[n]];
    }
  }

  /** A run that was complete stays complete, unless a later observation is dated earlier. */
  lemma CompletionLasts(obs: seq<Observation>, o: Observation, options: Options)
    requires Completed(obs, options)
    ensures Completed(obs + [o], options) || TimestampOrder in Failures(obs + [o], options)
  {
    AppendToLog(obs, o);
    if At(o).ms.Some? {
      TimesFailAppend(TimestampOrder, Times(obs), At(o).ms.value, options.intervalMs);
    }
  }
}
