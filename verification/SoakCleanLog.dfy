/**
 What each failure code of a soak says of the log, in terms of its samples and timestamps, and
 what a log looks like that earns none (tools/haos-soak-core.ts:391-488).
 */
module SoakCleanLog {
  import opened Wrappers
  import opened SoakEvaluation

  // ---------------------------------------------------------------------------
  // Code by code
  // ---------------------------------------------------------------------------

  /** Observations that were missed or carry no readable timestamp. */
  lemma {:induction false} RecordCodesExactly(obs: seq<Observation>, options: Options)
    ensures SampleError in Failures(obs, options) <==> exists k :: 0 <= k < |obs| && obs[k].Missed?
    ensures TimestampInvalid in Failures(obs, options) <==> exists k :: 0 <= k < |obs| && At(obs[k]).ms == None
  {
  }

  predicate Backwards(times: seq<int>, k: int)
    requires 0 < k < |times|
  {
    times[k] < times[k - 1]
  }

  predicate Apart(times: seq<int>, k: int, limit: int)
    requires 0 < k < |times|
  {
    times[k] - times[k - 1] > limit
  }

  lemma {:induction false} TimeCodeExactly(code: FailureCode, obs: seq<Observation>, options: Options)
    requires code in {TimestampOrder, SampleGap}
    ensures code in Failures(obs, options) <==> TimesFail(code, Times(obs), options.intervalMs)
  {
  }

  /** Readable timestamps that go backwards, or lie more than two intervals apart. */
  lemma {:induction false} TimeCodesExactly(obs: seq<Observation>, options: Options)
    ensures TimestampOrder in Failures(obs, options) <==>
            exists k :: 0 < k < |Times(obs)| && Backwards(Times(obs), k)
    ensures SampleGap in Failures(obs, options) <==>
            exists k :: 0 < k < |Times(obs)| && Apart(Times(obs), k, 2 * options.intervalMs)
  {
    var times, interval := Times(obs), options.intervalMs;
    TimeCodeExactly(TimestampOrder, obs, options);
    TimeCodeExactly(SampleGap, obs, options);
    forall k | 0 < k < |times|
      ensures StepFailsAt(TimestampOrder, times, k, interval) <==> Backwards(times, k)
      ensures StepFailsAt(SampleGap, times, k, interval) <==> Apart(times, k, 2 * interval)
    {
    }
    if k :| 0 < k < |times| && Backwards(times, k) { assert StepFailsAt(TimestampOrder, times, k, interval); }
    if k :| 0 < k < |times| && Apart(times, k, 2 * interval) { assert StepFailsAt(SampleGap, times, k, interval); }
  }

  lemma {:induction false} SampleCodeExactly(code: FailureCode, obs: seq<Observation>, options: Options)
    requires code !in {SampleError, TimestampInvalid, TimestampOrder, SampleGap, InsufficientSamples, MemoryGrowth}
    ensures code in Failures(obs, options) <==> SamplesFail(code, Samples(obs))
  {
  }

  /** Samples that are not live, not ready, or in another state than CONNECTED. */
  lemma {:induction false} StateCodesExactly(obs: seq<Observation>, options: Options)
    ensures NotLive in Failures(obs, options) <==>
            exists k :: 0 <= k < |Samples(obs)| && !Samples(obs)[k].health.live
    ensures NotReady in Failures(obs, options) <==>
            exists k :: 0 <= k < |Samples(obs)| && !Samples(obs)[k].health.ready
    ensures StateNotConnected in Failures(obs, options) <==>
            exists k :: 0 <= k < |Samples(obs)| && Samples(obs)[k].health.state != "CONNECTED"
  {
    var s := Samples(obs);
    SampleCodeExactly(NotLive, obs, options);
    SampleCodeExactly(NotReady, obs, options);
    SampleCodeExactly(StateNotConnected, obs, options);
    forall k | 0 <= k < |s|
      ensures SampleFailsAt(NotLive, s, k) <==> !s[k].health.live
      ensures SampleFailsAt(NotReady, s, k) <==> !s[k].health.ready
      ensures SampleFailsAt(StateNotConnected, s, k) <==> s[k].health.state != "CONNECTED"
    {
    }
    if k :| 0 <= k < |s| && !s[k].health.live { assert SampleFailsAt(NotLive, s, k); }
    if k :| 0 <= k < |s| && !s[k].health.ready { assert SampleFailsAt(NotReady, s, k); }
    if k :| 0 <= k < |s| && s[k].health.state != "CONNECTED" { assert SampleFailsAt(StateNotConnected, s, k); }
  }

  predicate ProtocolCounted(s: seq<Sample>, k: int)
    requires 0 <= k < |s|
  {
    s[k].health.protocolChangeCount > s[0].health.protocolChangeCount
  }

  predicate InvalidCounted(s: seq<Sample>, k: int)
    requires 0 <= k < |s|
  {
    s[k].health.protocolInvalidFrameCount > s[0].health.protocolInvalidFrameCount
  }

  /** Samples that count more protocol changes or invalid frames than the first one. */
  lemma {:induction false} BaselineCodesExactly(obs: seq<Observation>, options: Options)
    ensures var s := Samples(obs);
            && (ProtocolChanged in Failures(obs, options) <==> exists k :: 0 <= k < |s| && ProtocolCounted(s, k))
            && (InvalidFrameIncrease in Failures(obs, options) <==> exists k :: 0 <= k < |s| && InvalidCounted(s, k))
  {
    var s := Samples(obs);
    SampleCodeExactly(ProtocolChanged, obs, options);
    SampleCodeExactly(InvalidFrameIncrease, obs, options);
    forall k | 0 <= k < |s|
      ensures SampleFailsAt(ProtocolChanged, s, k) <==> ProtocolCounted(s, k)
      ensures SampleFailsAt(InvalidFrameIncrease, s, k) <==> InvalidCounted(s, k)
    {
    }
    if k :| 0 <= k < |s| && ProtocolCounted(s, k) { assert SampleFailsAt(ProtocolChanged, s, k); }
    if k :| 0 <= k < |s| && InvalidCounted(s, k) { assert SampleFailsAt(InvalidFrameIncrease, s, k); }
  }

  predicate Falls(before: Option<nat>, after: Option<nat>, tolerance: nat) {
    before.Some? && after.Some? && after.value + tolerance < before.value
  }

  /** The uptime of the browser falls by more than five seconds. */
  predicate BrowserRestarted(s: seq<Sample>, k: int)
    requires 0 < k < |s|
  {
    Falls(s[k - 1].health.browserUptimeMs, s[k].health.browserUptimeMs, 5_000)
  }

  predicate CounterFell(s: seq<Sample>, k: int)
    requires 0 < k < |s|
  {
    var before, after := s[k - 1].health, s[k].health;
    || after.decodedDeviceEventCount < before.decodedDeviceEventCount
    || after.uniqueLogicalEventCount < before.uniqueLogicalEventCount
    || after.duplicateEventCount < before.duplicateEventCount
  }

  predicate SequenceFell(s: seq<Sample>, k: int)
    requires 0 < k < |s|
  {
    var before, after := s[k - 1].health, s[k].health;
    Falls(before.inventorySequence, after.inventorySequence, 0) || Falls(before.eventSequence, after.eventSequence, 0)
  }

  predicate InventoryChangedAt(s: seq<Sample>, k: int)
    requires 0 < k < |s|
  {
    var before, after := s[k - 1].health.inventoryDeviceCount, s[k].health.inventoryDeviceCount;
    before.Some? && after.Some? && before.value != after.value
  }

  predicate RestartCounted(s: seq<Sample>, k: int)
    requires 0 <= k < |s|
  {
    s[k].health.restartCount > s[0].health.restartCount
  }

  /** Restarts that were counted on top of the first sample, or show in the browser's uptime. */
  lemma {:induction false} RestartCodeExactly(obs: seq<Observation>, options: Options)
    ensures var s := Samples(obs);
            RuntimeRestarted in Failures(obs, options) <==>
            (exists k :: 0 <= k < |s| && RestartCounted(s, k)) || (exists k :: 0 < k < |s| && BrowserRestarted(s, k))
  {
    var s := Samples(obs);
    forall k | 0 <= k < |s|
      ensures SampleFailsAt(RuntimeRestarted, s, k) <==> RestartCounted(s, k) || (k > 0 && BrowserRestarted(s, k))
    {
    }
    SampleCodeExactly(RuntimeRestarted, obs, options);
    if k :| 0 <= k < |s| && RestartCounted(s, k) { assert SampleFailsAt(RuntimeRestarted, s, k); }
    if k :| 0 < k < |s| && BrowserRestarted(s, k) { assert SampleFailsAt(RuntimeRestarted, s, k); }
  }

  /** Event counters or sequences that fall between neighbours, and an inventory that changes. */
  lemma {:induction false} NeighbourCodesExactly(obs: seq<Observation>, options: Options)
    ensures var s := Samples(obs);
            && (CounterRegression in Failures(obs, options) <==> exists k :: 0 < k < |s| && CounterFell(s, k))
            && (SequenceRegression in Failures(obs, options) <==> exists k :: 0 < k < |s| && SequenceFell(s, k))
            && (InventoryChanged in Failures(obs, options) <==> exists k :: 0 < k < |s| && InventoryChangedAt(s, k))
  {
    var s := Samples(obs);
    forall k | 0 <= k < |s|
      ensures SampleFailsAt(CounterRegression, s, k) <==> k > 0 && CounterFell(s, k)
      ensures SampleFailsAt(SequenceRegression, s, k) <==> k > 0 && SequenceFell(s, k)
      ensures SampleFailsAt(InventoryChanged, s, k) <==> k > 0 && InventoryChangedAt(s, k)
    {
    }
  }

  /** A complete run with fewer than two samples. */
  lemma {:induction false} InsufficiencyExactly(obs: seq<Observation>, options: Options)
    ensures InsufficientSamples in Failures(obs, options) <==>
            && Times(obs) != [] && Times(obs)[|Times(obs)| - 1] >= options.startedAtMs + options.durationMs
            && |Samples(obs)| < 2
  {
  }

  predicate WithinLimit(growth: Option<real>, options: Options) {
    growth.Some? ==> growth.value <= options.maxGrowthBytes.GetOr(268_435_456) as real
  }

  lemma {:induction false} LimitMeans(growth: Option<real>, options: Options)
    ensures GrowthExceeds(growth, GrowthLimit(options)) <==> !WithinLimit(growth, options)
  {
  }

  lemma {:induction false} GrowthCodeMeans(obs: seq<Observation>, options: Options)
    ensures MemoryGrowth in Failures(obs, options) <==> MemoryFails(Samples(obs), options)
  {
  }

  lemma {:induction false} MemoryFailsMeans(samples: seq<Sample>, options: Options)
    ensures MemoryFails(samples, options) <==> GrowthExceeds(Growth(MemoryOf(samples)), GrowthLimit(options))
  {
  }

  /** Growth of memory beyond the limit, by default 256 MiB. */
  lemma {:induction false} GrowthCodeExactly(obs: seq<Observation>, options: Options)
    ensures MemoryGrowth in Failures(obs, options) <==> !WithinLimit(Growth(MemoryOf(Samples(obs))), options)
  {
    GrowthCodeMeans(obs, options);
    MemoryFailsMeans(Samples(obs), options);
    LimitMeans(Growth(MemoryOf(Samples(obs))), options);
  }

  // ---------------------------------------------------------------------------
  // A log without failures
  // ---------------------------------------------------------------------------

  /** A dated sample of a healthy system. */
  predicate IsFit(o: Observation) {
    && o.Measured? && o.sample.at.ms.Some?
    && o.sample.health.live && o.sample.health.ready && o.sample.health.state == "CONNECTED"
  }

  predicate NotFalling(before: Option<nat>, after: Option<nat>, tolerance: nat) {
    before.Some? && after.Some? ==> before.value <= after.value + tolerance
  }

  /** One sample after another: time goes on by at most two intervals, counters and sequences do
      not fall, the inventory stays, and the browser was not restarted. */
  predicate FollowsWell(before: Sample, after: Sample, intervalMs: int)
    requires before.at.ms.Some? && after.at.ms.Some?
  {
    var b, a := before.health, after.health;
    && 0 <= after.at.ms.value - before.at.ms.value <= 2 * intervalMs
    && b.decodedDeviceEventCount <= a.decodedDeviceEventCount
    && b.uniqueLogicalEventCount <= a.uniqueLogicalEventCount
    && b.duplicateEventCount <= a.duplicateEventCount
    && NotFalling(b.inventorySequence, a.inventorySequence, 0)
    && NotFalling(b.eventSequence, a.eventSequence, 0)
    && NotFalling(b.browserUptimeMs, a.browserUptimeMs, 5_000)
    && (b.inventoryDeviceCount.Some? && a.inventoryDeviceCount.Some? ==>
          b.inventoryDeviceCount.value == a.inventoryDeviceCount.value)
  }

  predicate OnBaseline(first: Sample, x: Sample) {
    && x.health.restartCount <= first.health.restartCount
    && x.health.protocolChangeCount <= first.health.protocolChangeCount
    && x.health.protocolInvalidFrameCount <= first.health.protocolInvalidFrameCount
  }

  predicate AllFit(obs: seq<Observation>) { forall k :: 0 <= k < |obs| ==> IsFit(obs[k]) }

  predicate FollowsWellAt(obs: seq<Observation>, k: int, intervalMs: int)
    requires 0 < k < |obs| && AllFit(obs)
  {
    FollowsWell(obs[k - 1].sample, obs[k].sample, intervalMs)
  }

  predicate AllFollowWell(obs: seq<Observation>, intervalMs: int)
    requires AllFit(obs)
  {
    forall k :: 0 < k < |obs| ==> FollowsWellAt(obs, k, intervalMs)
  }

  predicate AllOnBaseline(obs: seq<Observation>)
    requires AllFit(obs)
  {
    forall k :: 0 <= k < |obs| ==> OnBaseline(obs[0].sample, obs[k].sample)
  }

  /** A run without anything to report: fit samples that follow each other well on the baseline of
      the first, at least two of them if the run is over, and growth within the limit. */
  predicate IsCleanRun(obs: seq<Observation>, options: Options) {
    && AllFit(obs) && AllFollowWell(obs, options.intervalMs) && AllOnBaseline(obs)
    && (|obs| == 1 ==> obs[0].sample.at.ms.value < options.startedAtMs + options.durationMs)
    && WithinLimit(Growth(MemoryOf(Samples(obs))), options)
  }

  /** In a log of fit observations samples and times are those of the observations. */
  lemma {:induction false} FitLogIsDense(obs: seq<Observation>)
    requires AllFit(obs)
    ensures |Samples(obs)| == |obs| && |Times(obs)| == |obs|
    ensures forall k :: 0 <= k < |obs| ==>
              Samples(obs)[k] == obs[k].sample && Times(obs)[k] == obs[k].sample.at.ms.value
  {
    AllMeasured(obs);
    AllDated(obs);
  }

  lemma {:induction false} CleanRunHasNoSampleCode(obs: seq<Observation>, options: Options)
    requires IsCleanRun(obs, options)
    ensures RuntimeRestarted !in Failures(obs, options) && CounterRegression !in Failures(obs, options)
    ensures SequenceRegression !in Failures(obs, options) && InventoryChanged !in Failures(obs, options)
    ensures ProtocolChanged !in Failures(obs, options) && InvalidFrameIncrease !in Failures(obs, options)
    ensures NotLive !in Failures(obs, options) && NotReady !in Failures(obs, options)
    ensures StateNotConnected !in Failures(obs, options)
  {
    FitLogIsDense(obs);
    var s := Samples(obs);
    forall k | 0 < k < |s|
      ensures !BrowserRestarted(s, k) && !CounterFell(s, k) && !SequenceFell(s, k) && !InventoryChangedAt(s, k)
    {
      assert FollowsWellAt(obs, k, options.intervalMs);
    }
    forall k | 0 <= k < |s|
      ensures !RestartCounted(s, k) && IsFit(obs[k]) && OnBaseline(s[0], s[k])
    {
      assert OnBaseline(obs[0].sample, obs[k].sample);
    }
    assert forall k :: 0 <= k < |s| ==> !ProtocolCounted(s, k) && !InvalidCounted(s, k);
    RestartCodeExactly(obs, options);
    NeighbourCodesExactly(obs, options);
    BaselineCodesExactly(obs, options);
    StateCodesExactly(obs, options);
  }

  lemma {:induction false} CleanRunHasNoOtherCode(obs: seq<Observation>, options: Options)
    requires IsCleanRun(obs, options)
    ensures SampleError !in Failures(obs, options) && TimestampInvalid !in Failures(obs, options)
    ensures TimestampOrder !in Failures(obs, options) && SampleGap !in Failures(obs, options)
    ensures InsufficientSamples !in Failures(obs, options) && MemoryGrowth !in Failures(obs, options)
  {
    FitLogIsDense(obs);
    var times := Times(obs);
    forall k | 0 < k < |times|
      ensures !Backwards(times, k) && !Apart(times, k, 2 * options.intervalMs)
    {
      assert FollowsWellAt(obs, k, options.intervalMs);
    }
    forall k | 0 <= k < |obs|
      ensures obs[k].Measured? && At(obs[k]).ms.Some?
    {
      assert IsFit(obs[k]);
    }
    RecordCodesExactly(obs, options);
    TimeCodesExactly(obs, options);
    InsufficiencyExactly(obs, options);
    GrowthCodeExactly(obs, options);
  }

  lemma {:induction false} CleanRunHasNoFailures(obs: seq<Observation>, options: Options)
    requires IsCleanRun(obs, options)
    ensures Failures(obs, options) == {}
  {
    CleanRunHasNoSampleCode(obs, options);
    CleanRunHasNoOtherCode(obs, options);
    forall code: FailureCode
      ensures code !in Failures(obs, options)
    {
      match code {
        case SampleError => case TimestampInvalid => case TimestampOrder => case NotLive => case NotReady =>
        case StateNotConnected => case ProtocolChanged => case RuntimeRestarted => case InvalidFrameIncrease =>
        case CounterRegression => case InventoryChanged => case SequenceRegression => case SampleGap =>
        case MemoryGrowth => case InsufficientSamples =>
      }
    }
  }

  lemma {:induction false} NoFailuresMeansFit(obs: seq<Observation>, options: Options)
    requires Failures(obs, options) == {}
    ensures AllFit(obs)
  {
    RecordCodesExactly(obs, options);
    StateCodesExactly(obs, options);
    AllMeasured(obs);
    assert SampleError !in Failures(obs, options) && TimestampInvalid !in Failures(obs, options);
    assert NotLive !in Failures(obs, options) && NotReady !in Failures(obs, options);
    assert StateNotConnected !in Failures(obs, options);
    forall k | 0 <= k < |obs|
      ensures IsFit(obs[k])
    {
      assert !obs[k].Missed? && At(obs[k]).ms != None;
      assert Samples(obs)[k] == obs[k].sample;
    }
  }

  lemma {:induction false} NoFailuresMeansWell(obs: seq<Observation>, options: Options)
    requires Failures(obs, options) == {} && AllFit(obs)
    ensures AllFollowWell(obs, options.intervalMs)
  {
    FitLogIsDense(obs);
    RestartCodeExactly(obs, options);
    NeighbourCodesExactly(obs, options);
    TimeCodesExactly(obs, options);
    assert RuntimeRestarted !in Failures(obs, options) && CounterRegression !in Failures(obs, options);
    assert SequenceRegression !in Failures(obs, options) && InventoryChanged !in Failures(obs, options);
    assert TimestampOrder !in Failures(obs, options) && SampleGap !in Failures(obs, options);
    var s, times := Samples(obs), Times(obs);
    forall k | 0 < k < |obs|
      ensures FollowsWellAt(obs, k, options.intervalMs)
    {
      assert !BrowserRestarted(s, k) && !CounterFell(s, k) && !SequenceFell(s, k) && !InventoryChangedAt(s, k);
      assert !Backwards(times, k) && !Apart(times, k, 2 * options.intervalMs);
    }
  }

  lemma {:induction false} NoFailuresMeansBaseline(obs: seq<Observation>, options: Options)
    requires Failures(obs, options) == {} && AllFit(obs)
    ensures AllOnBaseline(obs)
  {
    FitLogIsDense(obs);
    RestartCodeExactly(obs, options);
    BaselineCodesExactly(obs, options);
    assert RuntimeRestarted !in Failures(obs, options) && ProtocolChanged !in Failures(obs, options);
    assert InvalidFrameIncrease !in Failures(obs, options);
    var s := Samples(obs);
    forall k | 0 <= k < |obs|
      ensures OnBaseline(obs[0].sample, obs[k].sample)
    {
      assert !RestartCounted(s, k) && !ProtocolCounted(s, k) && !InvalidCounted(s, k);
    }
  }

  /** A log earns no failure code exactly if it is a clean run. */
  lemma {:induction false} CleanRunExactly(obs: seq<Observation>, options: Options)
    ensures Failures(obs, options) == {} <==> IsCleanRun(obs, options)
  {
    if Failures(obs, options) == {} {
      NoFailuresMeansFit(obs, options);
      NoFailuresMeansWell(obs, options);
      NoFailuresMeansBaseline(obs, options);
      FitLogIsDense(obs);
      InsufficiencyExactly(obs, options);
    GrowthCodeExactly(obs, options);
      assert InsufficientSamples !in Failures(obs, options) && MemoryGrowth !in Failures(obs, options);
    }
    if IsCleanRun(obs, options) { CleanRunHasNoFailures(obs, options); }
  }
}
