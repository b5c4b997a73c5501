/**
 The two failures of a soak that later observations can clear (tools/haos-soak-core.ts): a
 complete run of fewer than two samples, and excessive growth of memory.
 */
module SoakExceptions {
  import opened Wrappers
  import opened SoakEvaluation

  lemma CompletedAppend(obs: seq<Observation>, o: Observation, options: Options)
    ensures Completed(obs + [o], options) <==>
            if At(o).ms.Some? then At(o).ms.value >= options.startedAtMs + options.durationMs
            else Completed(obs, options)
  {
    AppendToLog(obs, o);
    assert Times(obs) + [] == Times(obs);
  }

  /** The first exception: a complete run that is too short stays so exactly as long as no sample
      is added to another and no observation is dated before the end. */
  lemma InsufficientSamplesLastExactly(obs: seq<Observation>, o: Observation, options: Options)
    requires InsufficientSamples in Failures(obs, options)
    ensures InsufficientSamples in Failures(obs + [o], options) <==>
            && (o.Measured? ==> Samples(obs) == [])
            && (At(o).ms.Some? ==> At(o).ms.value >= options.startedAtMs + options.durationMs)
  {
    AppendToLog(obs, o);
    CompletedAppend(obs, o, options);
  }

  /** What stands at a place once a value has been put in order. */
  function Clamped(x: nat, s: seq<nat>, k: nat): nat
    requires k <= |s|
  {
    if k > 0 && x <= s[k - 1] then s[k - 1] else if k < |s| && x > s[k] then s[k] else x
  }

  lemma {:induction false} OrderedPairs(s: seq<nat>, i: nat, j: nat)
    requires Ordered(s) && i <= j < |s|
    ensures s[i] <= s[j]
  {
    if i > 0 {
      OrderedPairs(s[1..], i - 1, j - 1);
    } else if j > 0 {
      OrderedPairs(s[1..], 0, j - 1);
    }
  }

  lemma {:induction false} InsertPlaces(x: nat, s: seq<nat>, k: nat)
    requires Ordered(s) && k <= |s|
    ensures Insert(x, s)[k] == Clamped(x, s, k)
  {
    if s != [] && x > s[0] {
      if k > 0 { InsertPlaces(x, s[1..], k - 1); }
    } else if k > 0 {
      OrderedPairs(s, 0, k - 1);
    }
  }

  lemma {:induction false} InsertsCommute(x: nat, y: nat, s: seq<nat>)
    ensures Insert(x, Insert(y, s)) == Insert(y, Insert(x, s))
  {
    if s != [] && x > s[0] && y > s[0] { InsertsCommute(x, y, s[1..]); }
  }

  lemma {:induction false} SortedAppend(s: seq<nat>, x: nat)
    ensures Sorted(s + [x]) == Insert(x, Sorted(s))
  {
    if s == [] {
      assert s + [x] == [x] && [x][1..] == [];
    } else {
      assert (s + [x])[1..] == s[1..] + [x];
      SortedAppend(s[1..], x);
      InsertsCommute(s[0], x, Sorted(s[1..]));
    }
  }

  /** The median of values in ascending order and one more: it follows that one only as far as
      its neighbours in the middle. */
  function MedianWith(sorted: seq<nat>, x: nat): real {
    var middle := (|sorted| + 1) / 2;
    if |sorted| % 2 == 0 then Clamped(x, sorted, middle) as real
    else (Clamped(x, sorted, middle - 1) + Clamped(x, sorted, middle)) as real / 2.0
  }

  lemma MiddleOfInsert(sorted: seq<nat>, x: nat)
    requires Ordered(sorted)
    ensures Middle(Insert(x, sorted)) == MedianWith(sorted, x)
  {
    var middle := (|sorted| + 1) / 2;
    InsertPlaces(x, sorted, middle);
    if |sorted| % 2 == 1 { InsertPlaces(x, sorted, middle - 1); }
  }

  lemma MedianOfAppend(s: seq<nat>, x: nat)
    ensures Median(s + [x]) == Some(MedianWith(Sorted(s), x))
  {
    SortedAscends(s);
    SortedAppend(s, x);
    MiddleOfInsert(Sorted(s), x);
  }

  lemma ClampedRises(x: nat, y: nat, s: seq<nat>, k: nat)
    requires Ordered(s) && k <= |s| && x <= y
    ensures Clamped(x, s, k) <= Clamped(y, s, k)
  {
    if 0 < k < |s| { OrderedPairs(s, k - 1, k); }
  }

  lemma MedianRises(sorted: seq<nat>, x: nat, y: nat)
    requires Ordered(sorted) && x <= y
    ensures MedianWith(sorted, x) <= MedianWith(sorted, y)
  {
    var middle := (|sorted| + 1) / 2;
    ClampedRises(x, y, sorted, middle);
    if |sorted| % 2 == 1 { ClampedRises(x, y, sorted, middle - 1); }
  }

  /** A tenth of the samples, rounded up, but at most twelve. */
  lemma WindowFits(n: nat)
    requires n > 0
    ensures 1 <= WindowSize(n + 1) <= n
    ensures 10 * (WindowSize(n + 1) - 1) < n + 1 && WindowSize(n + 1) <= 12
    ensures WindowSize(n + 1) < 12 ==> n + 1 <= 10 * WindowSize(n + 1)
  {
  }

  /** The first window of a log with one more value. */
  function Oldest(memory: seq<nat>): (oldest: seq<nat>)
    requires memory != []
    ensures oldest != []
  {
    WindowFits(|memory|);
    memory[..WindowSize(|memory| + 1)]
  }

  /** The values that share its last window with the new one. */
  function Recent(memory: seq<nat>): seq<nat>
    requires memory != []
  {
    WindowFits(|memory|);
    memory[|memory| + 1 - WindowSize(|memory| + 1)..]
  }

  /** The growth that the log will have with one more value. */
  function GrowthWith(memory: seq<nat>, x: nat): real
    requires memory != []
  {
    MedianWith(Sorted(Recent(memory)), x) - Middle(Sorted(Oldest(memory)))
  }

  lemma StartOfAppend(memory: seq<nat>, x: nat)
    requires memory != []
    ensures StartMedian(memory + [x]) == Some(Middle(Sorted(Oldest(memory))))
  {
    WindowFits(|memory|);
    assert (memory + [x])[..WindowSize(|memory| + 1)] == Oldest(memory);
  }

  lemma EndOfAppend(memory: seq<nat>, x: nat)
    requires memory != []
    ensures EndMedian(memory + [x]) == Some(MedianWith(Sorted(Recent(memory)), x))
  {
    WindowFits(|memory|);
    assert (memory + [x])[|memory| + 1 - WindowSize(|memory| + 1)..] == Recent(memory) + [x];
    MedianOfAppend(Recent(memory), x);
  }

  lemma GrowthFromMedians(memory: seq<nat>, start: real, end: real)
    requires StartMedian(memory) == Some(start) && EndMedian(memory) == Some(end)
    ensures Growth(memory) == Some(end - start)
  {
  }

  lemma GrowthOfAppend(memory: seq<nat>, x: nat)
    requires memory != []
    ensures Growth(memory + [x]) == Some(GrowthWith(memory, x))
  {
    StartOfAppend(memory, x);
    EndOfAppend(memory, x);
    GrowthFromMedians(memory + [x], Middle(Sorted(Oldest(memory))), MedianWith(Sorted(Recent(memory)), x));
  }

  lemma GrowthRises(memory: seq<nat>, x: nat, y: nat)
    requires memory != [] && x <= y
    ensures GrowthWith(memory, x) <= GrowthWith(memory, y)
  {
    SortedAscends(Recent(memory));
    MedianRises(Sorted(Recent(memory)), x, y);
  }

  lemma MemoryAppend(samples: seq<Sample>, x: Sample)
    ensures MemoryOf(samples + [x]) == MemoryOf(samples) + [x.memoryUsageBytes]
  {
  }

  /** The other exception: excessive growth stays exactly if nothing is measured, or the last
      window with the new value in it still has too high a median. */
  lemma MemoryGrowthLastsExactly(obs: seq<Observation>, o: Observation, options: Options)
    requires MemoryGrowth in Failures(obs, options)
    ensures Samples(obs) != []
    ensures MemoryGrowth in Failures(obs + [o], options) <==>
            o.Measured? ==>
              GrowthWith(MemoryOf(Samples(obs)), o.sample.memoryUsageBytes) > GrowthLimit(options) as real
  {
    AppendToLog(obs, o);
    assert Samples(obs) + [] == Samples(obs);
    if o.Measured? {
      MemoryAppend(Samples(obs), o.sample);
      GrowthOfAppend(MemoryOf(Samples(obs)), o.sample.memoryUsageBytes);
    }
  }

  /** So a higher value never clears it where a lower one does not, and some next sample clears it
      exactly if a sample that uses no memory would. */
  lemma MemoryGrowthMayFadeExactly(obs: seq<Observation>, x: Sample, options: Options)
    requires MemoryGrowth in Failures(obs, options)
    ensures Samples(obs) != []
    ensures MemoryGrowth !in Failures(obs + [Measured(x)], options) ==>
              GrowthWith(MemoryOf(Samples(obs)), 0) <= GrowthLimit(options) as real
    ensures MemoryGrowth !in Failures(obs + [Measured(x.(memoryUsageBytes := 0))], options) <==>
            GrowthWith(MemoryOf(Samples(obs)), 0) <= GrowthLimit(options) as real
  {
    MemoryGrowthLastsExactly(obs, Measured(x), options);
    MemoryGrowthLastsExactly(obs, Measured(x.(memoryUsageBytes := 0)), options);
    GrowthRises(MemoryOf(Samples(obs)), 0, x.memoryUsageBytes);
  }

  /** Both really fade.  A complete run of one sample stops being too short. */
  lemma InsufficientSamplesMayFade(x: Sample, options: Options)
    requires x.at.ms.Some? && x.at.ms.value >= options.startedAtMs + options.durationMs
    ensures InsufficientSamples in Failures([Measured(x)], options)
    ensures InsufficientSamples !in Failures([Measured(x), Measured(x)], options)
  {
    AllMeasured([Measured(x)]);
    AllMeasured([Measured(x), Measured(x)]);
    AllDated([Measured(x)]);
  }

  /** And a spike in memory is forgiven once the latest samples are low again. */
  lemma MemoryGrowthMayFade(low: Sample, high: Sample, options: Options)
    requires options.maxGrowthBytes == None
    requires high.memoryUsageBytes > low.memoryUsageBytes + DEFAULT_GROWTH_BYTES
    ensures MemoryGrowth in Failures([Measured(low), Measured(high)], options)
    ensures MemoryGrowth !in Failures([Measured(low), Measured(high), Measured(low)], options)
  {
    AllMeasured([Measured(low), Measured(high)]);
    AllMeasured([Measured(low), Measured(high), Measured(low)]);
    assert Samples([Measured(low), Measured(high)]) == [low, high];
    assert Samples([Measured(low), Measured(high), Measured(low)]) == [low, high, low];
    WindowOfOne([low, high]);
    WindowOfOne([low, high, low]);
  }

  lemma WindowOfOne(samples: seq<Sample>)
    requires 2 <= |samples| <= 10
    ensures var memory := MemoryOf(samples);
            Growth(memory) == Some(memory[|memory| - 1] as real - memory[0] as real)
  {
    var memory := MemoryOf(samples);
    var n := |memory|;
    assert WindowSize(n) == 1;
    assert memory[..1] == [memory[0]] && memory[n - 1..] == [memory[n - 1]];
    MedianOfOne(memory[0]);
    MedianOfOne(memory[n - 1]);
  }

  lemma MedianOfOne(m: nat)
    ensures Median([m]) == Some(m as real)
  {
    assert [m][1..] == [];
    assert Sorted([m]) == [m];
  }
}
