/**
 What `evaluateSoak` reports of a log (tools/haos-soak-core.ts:385-536 and 693-741): which error it
 throws, and what each field of an evaluation says of the observations.
 */
module SoakReport {
  import opened Wrappers
  import opened SoakEvaluation
  import SoakExceptions

  predicate IsSafeInteger(n: int, least: int) { least <= n <= 9_007_199_254_740_991 }

  predicate AreFit(o: Options) {
    && IsSafeInteger(o.startedAtMs, 0) && IsSafeInteger(o.durationMs, 1) && IsSafeInteger(o.intervalMs, 1)
    && (o.maxGrowthBytes.Some? ==> IsSafeInteger(o.maxGrowthBytes.value, 0))
  }

  /** The last timestamp is not the text that its instant has. */
  predicate EndsUnsafely(obs: seq<Observation>) {
    obs != [] && (At(obs[|obs| - 1]).ms == None || !At(obs[|obs| - 1]).canonical)
  }

  /** Each error comes exactly when it should; in this order, if several would apply. */
  lemma ErrorsExactly(obs: seq<Observation>, options: Options)
    ensures var r, end := Evaluate(obs, options), options.startedAtMs + options.durationMs;
            && (r == Err(OptionsInvalid) <==> !AreFit(options))
            && (r == Err(DateOutOfRange) <==> AreFit(options) && end > 8_640_000_000_000_000)
            && (r == Err(UnsafeTimestamp) <==>
                  AreFit(options) && end <= 8_640_000_000_000_000 && EndsUnsafely(obs))
  {
  }

  // ---------------------------------------------------------------------------
  // Medians
  // ---------------------------------------------------------------------------

  /** The same values in ascending order. */
  ghost predicate Arranges(a: seq<nat>, s: seq<nat>) {
    multiset(a) == multiset(s) && forall i, j :: 0 <= i <= j < |a| ==> a[i] <= a[j]
  }

  predicate InMiddle(a: seq<nat>, m: real) {
    && a != []
    && if |a| % 2 == 1 then m == a[|a| / 2] as real
       else m + m == a[|a| / 2 - 1] as real + a[|a| / 2] as real
  }

  ghost predicate IsMedian(s: seq<nat>, m: real) { exists a :: Arranges(a, s) && InMiddle(a, m) }

  lemma SortedArranges(s: seq<nat>)
    ensures Arranges(Sorted(s), s)
  {
    SortedSorts(s);
    forall i, j | 0 <= i <= j < |s|
      ensures Sorted(s)[i] <= Sorted(s)[j]
    {
      SoakExceptions.OrderedPairs(Sorted(s), i, j);
    }
  }

  lemma MedianExactly(s: seq<nat>)
    ensures Median(s) == None <==> s == []
    ensures Median(s).Some? ==> IsMedian(s, Median(s).value)
  {
    SortedArranges(s);
    if s != [] {
      assert InMiddle(Sorted(s), Median(s).value);
    }
  }

  /** There is one arrangement, and so one median. */
  lemma {:induction false} ArrangementIsUnique(a: seq<nat>, b: seq<nat>)
    requires Arranges(a, b) && Arranges(b, b)
    ensures a == b
    decreases |a|
  {
    assert |a| == |multiset(a)| == |multiset(b)| == |b|;
    if a != [] {
      LeastComesFirst(a, b);
      RestAlike(a, b);
      ArrangementIsUnique(a[1..], b[1..]);
      assert a == [a[0]] + a[1..] && b == [b[0]] + b[1..];
    }
  }

  lemma {:induction false} LeastComesFirst(a: seq<nat>, b: seq<nat>)
    requires Arranges(a, b) && Arranges(b, b) && a != [] && b != []
    ensures a[0] == b[0]
  {
    assert a[0] in multiset(b) && b[0] in multiset(a);
  }

  lemma {:induction false} RestAlike(a: seq<nat>, b: seq<nat>)
    requires multiset(a) == multiset(b) && a != [] && b != [] && a[0] == b[0]
    ensures multiset(a[1..]) == multiset(b[1..])
  {
    assert a == [a[0]] + a[1..] && b == [b[0]] + b[1..];
    assert multiset(a[1..]) == multiset(a) - multiset{a[0]};
    assert multiset(b[1..]) == multiset(b) - multiset{b[0]};
  }

  lemma MedianIsUnique(s: seq<nat>, m: real)
    requires IsMedian(s, m)
    ensures Median(s) == Some(m)
  {
    var a :| Arranges(a, s) && InMiddle(a, m);
    SortedArranges(s);
    ArrangementIsUnique(a, Sorted(s));
  }

  // ---------------------------------------------------------------------------
  // The fields
  // ---------------------------------------------------------------------------

  /** A tenth of the values, rounded up, but at most twelve. */
  predicate IsWindow(n: nat, w: nat) {
    if n <= 10 then w == 1 else if n <= 110 then 10 * w - 10 < n <= 10 * w else w == 12
  }

  lemma WindowExactly(n: nat, w: nat)
    ensures WindowSize(n) == w <==> IsWindow(n, w)
  {
  }

  /** The medians of the first and the last window. */
  ghost predicate WindowMedians(memory: seq<nat>, w: nat, start: real, end: real) {
    && IsWindow(|memory|, w) && w <= |memory|
    && IsMedian(memory[..w], start) && IsMedian(memory[|memory| - w..], end)
  }

  lemma {:induction false} WindowsAreEnds(memory: seq<nat>)
    requires memory != []
    ensures var w := WindowSize(|memory|);
            && 0 < w <= |memory|
            && StartMedian(memory) == Median(memory[..w]) && EndMedian(memory) == Median(memory[|memory| - w..])
  {
    var w := WindowSize(|memory|);
    assert w == |memory| ==> memory[..w] == memory && memory[|memory| - w..] == memory;
  }

  lemma {:induction false} MedianOfWindow(window: seq<nat>, median: Option<real>)
    requires window != [] && median == Median(window)
    ensures median.Some? && IsMedian(window, median.value)
  {
    MedianExactly(window);
  }

  lemma {:induction false} MediansOfWindows(memory: seq<nat>)
    requires memory != []
    ensures StartMedian(memory).Some? && EndMedian(memory).Some?
    ensures WindowMedians(memory, WindowSize(|memory|), StartMedian(memory).value, EndMedian(memory).value)
  {
    var w := WindowSize(|memory|);
    WindowsAreEnds(memory);
    WindowExactly(|memory|, w);
    var first, last := memory[..w], memory[|memory| - w..];
    MedianOfWindow(first, StartMedian(memory));
    MedianOfWindow(last, EndMedian(memory));
  }

  lemma {:induction false} EvaluatedMemory(obs: seq<Observation>, options: Options)
    requires Evaluate(obs, options).Ok?
    ensures var e, memory := Evaluate(obs, options).evaluation, MemoryOf(Samples(obs));
            && e.memoryStartMedian == StartMedian(memory) && e.memoryEndMedian == EndMedian(memory)
            && e.memoryGrowth == Growth(memory) && e.memoryPeak == Peak(memory)
  {
  }

  lemma {:induction false} GrowthBetween(memory: seq<nat>)
    requires StartMedian(memory).Some? && EndMedian(memory).Some?
    ensures Growth(memory) == Some(EndMedian(memory).value - StartMedian(memory).value)
  {
  }

  lemma {:induction false} NothingMeasured()
    ensures StartMedian([]) == None && EndMedian([]) == None && Growth([]) == None && Peak([]) == None
  {
  }

  /** The medians of the first and the last window, what lies between them, and the highest value. */
  ghost predicate DescribeMemory(memory: seq<nat>, start: Option<real>, end: Option<real>, growth: Option<real>,
                                 peak: Option<nat>) {
    if memory == [] then start == None && end == None && growth == None && peak == None
    else
      && start.Some? && end.Some? && peak.Some?
      && WindowMedians(memory, WindowSize(|memory|), start.value, end.value)
      && growth == Some(end.value - start.value)
      && peak.value in memory && forall m :: m in memory ==> m <= peak.value
  }

  lemma {:induction false} MemoryDescribed(memory: seq<nat>)
    ensures DescribeMemory(memory, StartMedian(memory), EndMedian(memory), Growth(memory), Peak(memory))
  {
    if memory == [] {
      NothingMeasured();
    } else {
      MediansOfWindows(memory);
      GrowthBetween(memory);
    }
  }

  /** What an evaluation says of memory. */
  lemma {:induction false} MemoryExactly(obs: seq<Observation>, options: Options)
    requires Evaluate(obs, options).Ok?
    ensures var e := Evaluate(obs, options).evaluation;
            DescribeMemory(MemoryOf(Samples(obs)), e.memoryStartMedian, e.memoryEndMedian, e.memoryGrowth, e.memoryPeak)
  {
    EvaluatedMemory(obs, options);
    MemoryDescribed(MemoryOf(Samples(obs)));
  }

  predicate WidestStep(times: seq<int>, gap: int) {
    && gap >= 0 && (forall k :: 0 < k < |times| ==> !Wider(times, k, gap))
    && (gap > 0 ==> exists k :: 0 < k < |times| && AsWide(times, k, gap))
  }
  predicate Wider(times: seq<int>, k: int, gap: int)
    requires 0 < k < |times|
  {
    times[k] - times[k - 1] > gap
  }
  predicate AsWide(times: seq<int>, k: int, gap: int)
    requires 0 < k < |times|
  {
    times[k] - times[k - 1] == gap
  }

  lemma GapIsWidest(times: seq<int>)
    ensures WidestStep(times, MaxGap(times))
  {
    var gap := MaxGap(times);
    forall k | 0 < k < |times|
      ensures !Wider(times, k, gap)
    {
      assert GapAt(times, k) <= gap;
    }
    if gap > 0 {
      var k :| 0 < k < |times| && GapAt(times, k) == gap;
      assert AsWide(times, k, gap);
    }
  }

  /** The status, the counts and the ends of an evaluation. */
  lemma ReportExactly(obs: seq<Observation>, options: Options)
    requires Evaluate(obs, options).Ok?
    ensures var e, samples, times, end :=
              Evaluate(obs, options).evaluation, Samples(obs), Times(obs), options.startedAtMs + options.durationMs;
            && e.failures == Failures(obs, options)
            && (e.status == Fail <==> e.failures != {})
            && (e.status == Pass <==> e.failures == {} && times != [] && times[|times| - 1] >= end)
            && (e.completed <==> times != [] && times[|times| - 1] >= end)
            && e.startedAtMs == options.startedAtMs && e.expectedEndAtMs == end
            && e.durationMs == options.durationMs && e.intervalMs == options.intervalMs
            && e.sampleCount == |obs| && e.successfulSampleCount == |samples|
            && e.errorSampleCount + |samples| == |obs|
            && WidestStep(times, e.maxGapMs)
            && (e.lastSampledAtMs == None <==> obs == [])
            && (obs != [] ==> e.lastSampledAtMs == At(obs[|obs| - 1]).ms == Some(times[|times| - 1]))
            && (samples == [] ==> e.baseline == e.final == None && !e.countersFlat)
            && (samples != [] ==>
                  var first, last := samples[0].health, samples[|samples| - 1].health;
                  && e.baseline == Some(Counters(first)) && e.final == Some(Counters(last))
                  && (e.countersFlat <==> first.decodedDeviceEventCount == last.decodedDeviceEventCount
                                          && first.uniqueLogicalEventCount == last.uniqueLogicalEventCount))
  {
    GapIsWidest(Times(obs));
  }
}
