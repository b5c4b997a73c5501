/**
 Sequence bookkeeping of the live-control benchmark (tools/haos-live-control-event-benchmark-core.ts):
 gaps in the received bridge sequences, and the bridge event credited to each transition.
 */
module SequenceGaps {
  import opened Wrappers

  // ---------------------------------------------------------------------------
  // Gaps
  // ---------------------------------------------------------------------------

  datatype Summary = Summary(first: Option<int>, last: Option<int>, gaps: int)

  /** Insertion into a strictly ascending list, once. */
  function InsertOnce(x: int, s: seq<int>): seq<int> {
    if s == [] || x < s[0] then [x] + s
    else if x == s[0] then s
    else [s[0]] + InsertOnce(x, s[1..])
  }

  /** The distinct values in ascending order. */
  function SortedDistinct(received: seq<int>): seq<int> {
    if received == [] then [] else InsertOnce(received[0], SortedDistinct(received[1..]))
  }

  predicate Ascending(s: seq<int>) { |s| < 2 || (s[0] < s[1] && Ascending(s[1..])) }

  lemma {:induction false} InsertKeepsAscending(x: int, s: seq<int>)
    requires Ascending(s)
    ensures var r := InsertOnce(x, s);
            && Ascending(r) && r != [] && r[0] == (if s == [] || x < s[0] then x else s[0])
            && forall y :: y in r <==> y == x || y in s
  {
    if s != [] {
      assert s == [s[0]] + s[1..];
      if x > s[0] {
        InsertKeepsAscending(x, s[1..]);
        assert InsertOnce(x, s)[1..] == InsertOnce(x, s[1..]);
      } else if x < s[0] {
        assert ([x] + s)[1..] == s;
      }
    }
  }

  lemma {:induction false} SortedDistinctSorts(received: seq<int>)
    ensures Ascending(SortedDistinct(received)) && forall y :: y in SortedDistinct(received) <==> y in received
  {
    if received != [] {
      SortedDistinctSorts(received[1..]);
      InsertKeepsAscending(received[0], SortedDistinct(received[1..]));
      assert received == [received[0]] + received[1..];
    }
  }

  lemma {:induction false} AscendingStep(s: seq<int>, i: nat)
    requires Ascending(s) && i + 1 < |s|
    ensures s[i] < s[i + 1]
  {
    if i > 0 { AscendingStep(s[1..], i - 1); }
  }

  /** `summarizeSequences`. */
  method SummarizeSequences(received: seq<int>) returns (summary: Summary)
    ensures var s := SortedDistinct(received);
            summary == if s == [] then Summary(None, None, 0)
                       else Summary(Some(s[0]), Some(s[|s| - 1]), s[|s| - 1] - s[0] + 1 - |s|)
  {
    var sequences := SortedDistinct(received);
    SortedDistinctSorts(received);
    if |sequences| == 0 {
      return Summary(None, None, 0);
    }
    var gaps := 0;
    for index := 1 to |sequences|
      invariant gaps == sequences[index - 1] - sequences[0] + 1 - index
    {
      AscendingStep(sequences, index - 1);
      var step := sequences[index] - sequences[index - 1] - 1;
      gaps := gaps + if step > 0 then step else 0;
    }
    summary := Summary(Some(sequences[0]), Some(sequences[|sequences| - 1]), gaps);
  }

  function ToSet(s: seq<int>): set<int> { set x | x in s }

  function Range(lo: int, hi: int): (r: set<int>)
    ensures forall x :: x in r <==> lo <= x < hi
    ensures |r| == (if lo < hi then hi - lo else 0)
    decreases hi - lo
  {
    if lo >= hi then {} else Range(lo, hi - 1) + {hi - 1}
  }

  /** The values a summary calls missing. */
  function Missing(s: seq<int>): set<int> {
    if s == [] then {} else Range(s[0], s[|s| - 1] + 1) - ToSet(s)
  }

  lemma {:induction false} LastIsLargest(s: seq<int>)
    requires Ascending(s) && s != []
    ensures forall x :: x in s ==> s[0] <= x <= s[|s| - 1]
  {
    if |s| > 1 {
      LastIsLargest(s[1..]);
      assert s[1] in s[1..];
      assert s[1..][|s| - 2] == s[|s| - 1];
    }
    forall x | x in s
      ensures s[0] <= x <= s[|s| - 1]
    {
      if x != s[0] { assert x in s[1..]; }
    }
  }

  lemma {:induction false} DistinctCount(s: seq<int>)
    requires Ascending(s)
    ensures |ToSet(s)| == |s|
  {
    if s == [] {
      assert ToSet(s) == {};
    } else {
      DistinctCount(s[1..]);
      assert s == [s[0]] + s[1..];
      if |s| > 1 { LastIsLargest(s[1..]); }
      assert ToSet(s) == ToSet(s[1..]) + {s[0]};
    }
  }

  lemma SameValues(received: seq<int>)
    ensures ToSet(SortedDistinct(received)) == ToSet(received)
  {
    SortedDistinctSorts(received);
    forall x: int
      ensures x in ToSet(SortedDistinct(received)) <==> x in ToSet(received)
    {
      assert x in SortedDistinct(received) <==> x in received;
    }
  }

  lemma MissingCount(s: seq<int>)
    requires Ascending(s) && s != []
    ensures s[|s| - 1] - s[0] + 1 - |s| == |Missing(s)|
  {
    LastIsLargest(s);
    DistinctCount(s);
    var range := Range(s[0], s[|s| - 1] + 1);
    assert s[|s| - 1] in s;
    assert ToSet(s) <= range;
  }

  /** The gaps reported are last - first + 1 less the number of distinct values received, where
      first and last are the smallest and the largest, and they count exactly the values in
      between that never arrived. */
  lemma GapsCountMissing(received: seq<int>)
    requires received != []
    ensures var s := SortedDistinct(received);
            && s != [] && s[0] in received && s[|s| - 1] in received
            && (forall x :: x in received ==> s[0] <= x <= s[|s| - 1])
            && |s| == |ToSet(received)|
            && s[|s| - 1] - s[0] + 1 - |ToSet(received)| == |Missing(s)|
  {
    var s := SortedDistinct(received);
    SortedDistinctSorts(received);
    assert received[0] in s;
    SameValues(received);
    DistinctCount(s);
    LastIsLargest(s);
    MissingCount(s);
    assert s[0] in s && s[|s| - 1] in s;
  }

  // ---------------------------------------------------------------------------
  // The events credited to each transition
  // ---------------------------------------------------------------------------

  datatype Target = On | Off
  datatype HaEvent = HaEvent(receivedAt: int, lastUpdated: int, state: Target)
  datatype BridgeEvent = BridgeEvent(sequence: int, receivedAt: int, updatedAt: Option<int>, value: Target)

  /** What the benchmark sees of one transition: when it asked, and both event lists at each poll. */
  datatype Transition = Transition(requestedAt: int, haPolls: seq<seq<HaEvent>>, bridgePolls: seq<seq<BridgeEvent>>)

  datatype Credit = Credit(ha: HaEvent, bridge: BridgeEvent)

  predicate QualifiesHa(e: HaEvent, requestedAt: int, target: Target) {
    e.state == target && e.receivedAt >= requestedAt && e.lastUpdated >= requestedAt
  }

  predicate Qualifies(e: BridgeEvent, requestedAt: int, target: Target, after: Option<int>) {
    && e.value == target && e.receivedAt >= requestedAt
    && e.updatedAt.Some? && e.updatedAt.value >= requestedAt
    && (after.None? || e.sequence > after.value)
  }

  function HaTest(requestedAt: int, target: Target): HaEvent -> bool {
    e => QualifiesHa(e, requestedAt, target)
  }

  function BridgeTest(requestedAt: int, target: Target, after: Option<int>): BridgeEvent -> bool {
    e => Qualifies(e, requestedAt, target, after)
  }

  predicate NoneBefore<T>(events: seq<T>, i: int, test: T -> bool)
    requires i <= |events|
  {
    forall j :: 0 <= j < i ==> !test(events[j])
  }

  predicate IsFirst<T>(events: seq<T>, i: int, test: T -> bool) {
    0 <= i < |events| && test(events[i]) && NoneBefore(events, i, test)
  }

  /** The first event that passes the test, in one list. */
  function Find<T>(events: seq<T>, test: T -> bool): (found: Option<T>)
    ensures found.Some? ==> exists i :: IsFirst(events, i, test) && events[i] == found.value
    ensures found.None? <==> forall i :: 0 <= i < |events| ==> !test(events[i])
  {
    if events == [] then None
    else if test(events[0]) then
      assert IsFirst(events, 0, test);
      Some(events[0])
    else
      var found := Find(events[1..], test);
      assert forall i :: 0 < i < |events| ==> events[1..][i - 1] == events[i];
      assert forall i :: IsFirst(events[1..], i, test) ==>
               IsFirst(events, i + 1, test) && events[i + 1] == events[1..][i];
      found
  }

  /** `findBridgeEvent`. */
  function FindBridgeEvent(events: seq<BridgeEvent>, requestedAt: int, target: Target,
                           after: Option<int>): (found: Option<BridgeEvent>)
    ensures found.Some? ==> found.value in events && Qualifies(found.value, requestedAt, target, after)
    ensures found.Some? ==>
              exists i :: 0 <= i < |events| && events[i] == found.value
                          && forall j :: 0 <= j < i ==> !Qualifies(events[j], requestedAt, target, after)
    ensures found.None? <==> forall e :: e in events ==> !Qualifies(e, requestedAt, target, after)
  {
    Find(events, BridgeTest(requestedAt, target, after))
  }

  /** The first poll that finds one; none is a timeout. */
  function Await<T>(polls: seq<seq<T>>, test: T -> bool): Option<T> {
    if polls == [] then None
    else
      var before := Await(polls[..|polls| - 1], test);
      if before.Some? then before else Find(polls[|polls| - 1], test)
  }

  /** One polling loop. */
  method WaitForEvent<T>(polls: seq<seq<T>>, test: T -> bool) returns (found: Option<T>)
    ensures found == Await(polls, test)
  {
    found := None;
    for poll := 0 to |polls|
      invariant found == Await(polls[..poll], test) && found.None?
    {
      assert polls[..poll + 1][..poll] == polls[..poll];
      found := Find(polls[poll], test);
      if found.Some? {
        AwaitKeeps(polls, poll + 1, test);
        return;
      }
    }
    assert polls[..|polls|] == polls;
  }

  lemma {:induction false} AwaitKeeps<T>(polls: seq<seq<T>>, n: nat, test: T -> bool)
    requires n <= |polls| && Await(polls[..n], test).Some?
    ensures Await(polls, test) == Await(polls[..n], test)
  {
    if n < |polls| {
      var before := polls[..|polls| - 1];
      assert before[..n] == polls[..n];
      AwaitKeeps(before, n, test);
    } else {
      assert polls[..n] == polls;
    }
  }

  lemma {:induction false} AwaitedPasses<T>(polls: seq<seq<T>>, test: T -> bool)
    requires Await(polls, test).Some?
    ensures test(Await(polls, test).value)
  {
    if Await(polls[..|polls| - 1], test).Some? { AwaitedPasses(polls[..|polls| - 1], test); }
  }

  /** The place of an event: its poll, and where it stands in the list of that poll. */
  predicate IsPlace<T>(polls: seq<seq<T>>, p: int, i: int) { 0 <= p < |polls| && 0 <= i < |polls[p]| }

  /** Nothing at an earlier poll, or earlier in the same list, passes. */
  predicate IsEarliest<T>(polls: seq<seq<T>>, p: int, i: int, test: T -> bool)
    requires IsPlace(polls, p, i)
  {
    && test(polls[p][i]) && NoneBefore(polls[p], i, test)
    && forall q :: 0 <= q < p ==> NoneBefore(polls[q], |polls[q]|, test)
  }

  /** What is awaited is the earliest event that passes; a timeout means that none does. */
  lemma {:induction false} AwaitedExactly<T>(polls: seq<seq<T>>, test: T -> bool)
    ensures Await(polls, test).Some? ==>
              exists p, i :: IsPlace(polls, p, i) && IsEarliest(polls, p, i, test)
                && Await(polls, test) == Some(polls[p][i])
    ensures Await(polls, test).None? <==> forall p, i :: IsPlace(polls, p, i) ==> !test(polls[p][i])
  {
    if polls != [] {
      var n := |polls| - 1;
      var before := polls[..n];
      AwaitedExactly(before, test);
      if Await(before, test).Some? {
        var p, i :| IsPlace(before, p, i) && IsEarliest(before, p, i, test)
          && Await(before, test) == Some(before[p][i]);
        assert IsPlace(polls, p, i) && IsEarliest(polls, p, i, test);
      } else {
        forall q | 0 <= q < n
          ensures NoneBefore(polls[q], |polls[q]|, test)
        {
          forall j | 0 <= j < |polls[q]|
            ensures !test(polls[q][j])
          {
            assert IsPlace(before, q, j) && before[q] == polls[q];
          }
        }
        if Find(polls[n], test).Some? {
          var i :| IsFirst(polls[n], i, test) && polls[n][i] == Find(polls[n], test).value;
          assert IsPlace(polls, n, i) && IsEarliest(polls, n, i, test);
        }
      }
    }
  }

  function TargetOf(k: int): Target { if k % 2 == 0 then On else Off }

  function LastSequence(chosen: seq<Credit>): Option<int> {
    if chosen == [] then None else Some(chosen[|chosen| - 1].bridge.sequence)
  }

  predicate IsRising(chosen: seq<Credit>) {
    forall i, j :: 0 <= i < j < |chosen| ==> chosen[i].bridge.sequence < chosen[j].bridge.sequence
  }

  function AwaitHa(t: Transition, target: Target): Option<HaEvent> {
    Await(t.haPolls, HaTest(t.requestedAt, target))
  }

  function AwaitBridge(t: Transition, target: Target, after: Option<int>): Option<BridgeEvent> {
    Await(t.bridgePolls, BridgeTest(t.requestedAt, target, after))
  }

  /** Home Assistant's side times out exactly if no event reports the target, received and updated
      no earlier than asked for. */
  lemma HaTimesOutExactly(t: Transition, target: Target)
    ensures AwaitHa(t, target) == None <==>
            forall p, i :: IsPlace(t.haPolls, p, i) ==>
              var e := t.haPolls[p][i];
              e.state != target || e.receivedAt < t.requestedAt || e.lastUpdated < t.requestedAt
  {
    AwaitedExactly(t.haPolls, HaTest(t.requestedAt, target));
  }

  /** The Bridge's side asks in addition for a sequence beyond the last one credited. */
  lemma BridgeTimesOutExactly(t: Transition, target: Target, after: Option<int>)
    ensures AwaitBridge(t, target, after) == None <==>
            forall p, i :: IsPlace(t.bridgePolls, p, i) ==>
              var e := t.bridgePolls[p][i];
              || e.value != target || e.receivedAt < t.requestedAt
              || e.updatedAt == None || e.updatedAt.value < t.requestedAt
              || (after.Some? && e.sequence <= after.value)
  {
    AwaitedExactly(t.bridgePolls, BridgeTest(t.requestedAt, target, after));
  }

  /** The two events credited are the first that qualified. */
  predicate Credits(transitions: seq<Transition>, chosen: seq<Credit>, k: int)
    requires 0 <= k < |chosen| <= |transitions|
  {
    && AwaitHa(transitions[k], TargetOf(k)) == Some(chosen[k].ha)
    && AwaitBridge(transitions[k], TargetOf(k), LastSequence(chosen[..k])) == Some(chosen[k].bridge)
  }

  /** Both events credited to a transition show the light going on and off in turn, first on. */
  lemma OnAndOffInTurn(transitions: seq<Transition>, chosen: seq<Credit>, k: nat)
    requires k < |chosen| <= |transitions| && Credits(transitions, chosen, k)
    ensures chosen[k].ha.state == chosen[k].bridge.value == if k % 2 == 0 then On else Off
  {
    AwaitedPasses(transitions[k].haPolls, HaTest(transitions[k].requestedAt, TargetOf(k)));
    AwaitedPasses(transitions[k].bridgePolls,
                  BridgeTest(transitions[k].requestedAt, TargetOf(k), LastSequence(chosen[..k])));
  }

  /** Both sides reported the target, and not before it was asked for. */
  predicate Confirms(c: Credit, requestedAt: int, target: Target) {
    && c.ha.state == target && requestedAt <= c.ha.receivedAt && requestedAt <= c.ha.lastUpdated
    && c.bridge.value == target && requestedAt <= c.bridge.receivedAt
    && c.bridge.updatedAt.Some? && requestedAt <= c.bridge.updatedAt.value
  }

  /** One transition: first Home Assistant's event, then the Bridge's; either may time out. */
  method ExecuteTransition(t: Transition, target: Target, after: Option<int>) returns (credit: Option<Credit>)
    ensures credit.None? <==> AwaitHa(t, target).None? || AwaitBridge(t, target, after).None?
    ensures credit.Some? ==>
              && AwaitHa(t, target) == Some(credit.value.ha)
              && AwaitBridge(t, target, after) == Some(credit.value.bridge)
              && Confirms(credit.value, t.requestedAt, target)
              && (after.Some? ==> credit.value.bridge.sequence > after.value)
  {
    var ha := WaitForEvent(t.haPolls, HaTest(t.requestedAt, target));
    if ha.None? {
      return None;
    }
    AwaitedPasses(t.haPolls, HaTest(t.requestedAt, target));
    var bridge := WaitForEvent(t.bridgePolls, BridgeTest(t.requestedAt, target, after));
    if bridge.None? {
      return None;
    }
    AwaitedPasses(t.bridgePolls, BridgeTest(t.requestedAt, target, after));
    credit := Some(Credit(ha.value, bridge.value));
  }

  lemma CreditsExtend(transitions: seq<Transition>, chosen: seq<Credit>, c: Credit, k: nat)
    requires k < |chosen| < |transitions| && Credits(transitions, chosen, k)
    ensures Credits(transitions, chosen + [c], k)
  {
    assert (chosen + [c])[..k] == chosen[..k];
  }

  /** A bridge-backed run, turning on and off in turn: a completed run credits every transition
      with events of its own kind, made and received after its request, and with a sequence
      beyond that of every transition before it; a run that ends early was let down by one side. */
  method RunBridgeTransitions(transitions: seq<Transition>) returns (completed: bool, chosen: seq<Credit>)
    ensures |chosen| <= |transitions| && IsRising(chosen)
    ensures forall k :: 0 <= k < |chosen| ==>
              Credits(transitions, chosen, k) && Confirms(chosen[k], transitions[k].requestedAt, TargetOf(k))
    ensures completed ==> |chosen| == |transitions|
    ensures !completed ==>
              && |chosen| < |transitions|
              && (AwaitHa(transitions[|chosen|], TargetOf(|chosen|)).None?
                  || AwaitBridge(transitions[|chosen|], TargetOf(|chosen|), LastSequence(chosen)).None?)
  {
    chosen, completed := [], true;
    var after: Option<int> := None;
    for k := 0 to |transitions|
      invariant |chosen| == k && after == LastSequence(chosen) && IsRising(chosen)
      invariant forall i :: 0 <= i < k ==>
        Credits(transitions, chosen, i) && Confirms(chosen[i], transitions[i].requestedAt, TargetOf(i))
    {
      var credit := ExecuteTransition(transitions[k], TargetOf(k), after);
      if credit.None? {
        completed := false;
        return;
      }
      forall i | 0 <= i < k
        ensures Credits(transitions, chosen + [credit.value], i)
      {
        CreditsExtend(transitions, chosen, credit.value, i);
      }
      assert (chosen + [credit.value])[..k] == chosen;
      chosen := chosen + [credit.value];
      after := Some(credit.value.bridge.sequence);
    }
  }
}
