/**
 Exact counting in the web parity audit (tools/smartthings-web-parity-audit-core.ts): keys joined
 by NUL, distinct dangerous commands, and groups of equal generated names.

 `JSON.stringify` on a failure group is an encoding that keeps groups apart and never contains
 a raw NUL, so a joined key can be taken apart at its first NUL.  Maps and sets of keys then stand
 for maps and sets of the things themselves, and the counts in the report add up to the number of
 distinct events, or entities of one name.
 */
module ParityCounts {
  import opened Wrappers

  const NUL := '\0'

  // ---------------------------------------------------------------------------
  // Keys joined by NUL
  // ---------------------------------------------------------------------------

  predicate NulFree(s: string) { NUL !in s }

  /** Up to its first NUL a joined key is its first part. */
  lemma {:induction false} JoinIsInjective(a: string, b: string, a': string, b': string)
    requires NulFree(a) && NulFree(a') && a + [NUL] + b == a' + [NUL] + b'
    ensures a == a' && b == b'
  {
    var whole := a + [NUL] + b;
    assert whole[|a|] == NUL && whole[|a'|] == NUL;
    assert |a| == |a'| by {
      assert forall i :: 0 <= i < |a| ==> whole[i] == a[i];
      assert forall i :: 0 <= i < |a'| ==> whole[i] == a'[i];
    }
    assert a == whole[..|a|] && a' == whole[..|a'|];
    assert b == whole[|a| + 1..] && b' == whole[|a'| + 1..];
  }

  // ---------------------------------------------------------------------------
  // Dangerous commands
  // ---------------------------------------------------------------------------

  datatype Group = Group(device: string, component: Option<string>, capability: Option<string>, reason: string)
  datatype DangerousEvent = DangerousEvent(group: Group, command: string)

  /** A failure without a count stands for one. */
  datatype Failure = Failure(group: Group, count: Option<nat>) {
    function Weight(): nat { count.GetOr(1) }
  }

  ghost predicate IsEncoding(encode: Group -> string) {
    && (forall g :: NulFree(encode(g)))
    && (forall g, h :: encode(g) == encode(h) ==> g == h)
  }

  function EventKey(encode: Group -> string, e: DangerousEvent): string { encode(e.group) + [NUL] + e.command }

  lemma EventKeyIsInjective(encode: Group -> string, e: DangerousEvent, f: DangerousEvent)
    requires IsEncoding(encode) && EventKey(encode, e) == EventKey(encode, f)
    ensures e == f
  {
    JoinIsInjective(encode(e.group), e.command, encode(f.group), f.command);
  }

  function Distinct(events: seq<DangerousEvent>): set<DangerousEvent> { set e | e in events }

  function OfGroup(events: set<DangerousEvent>, g: Group): set<DangerousEvent> { set e | e in events && e.group == g }

  function Sum(failures: seq<Failure>): nat {
    if failures == [] then 0 else failures[0].Weight() + Sum(failures[1..])
  }

  /** `sumFailureCounts`. */
  method SumFailureCounts(failures: seq<Failure>) returns (total: nat)
    ensures total == Sum(failures)
  {
    total := 0;
    for i := 0 to |failures|
      invariant total + Sum(failures[i..]) == Sum(failures)
    {
      assert failures[i..][1..] == failures[i + 1..];
      total := total + failures[i].Weight();
    }
  }

  lemma {:induction false} SumAppend(failures: seq<Failure>, f: Failure)
    ensures Sum(failures + [f]) == Sum(failures) + f.Weight()
  {
    if failures == [] {
      assert failures + [f] == [f];
    } else {
      assert (failures + [f])[1..] == failures[1..] + [f];
      SumAppend(failures[1..], f);
    }
  }

  /** No failures add up to nothing, and one more adds its count, or one if it has none. */
  lemma SumExactly(failures: seq<Failure>, g: Group, count: nat)
    ensures Sum([]) == 0
    ensures Sum(failures + [Failure(g, Some(count))]) == Sum(failures) + count
    ensures Sum(failures + [Failure(g, None)]) == Sum(failures) + 1
  {
    SumAppend(failures, Failure(g, Some(count)));
    SumAppend(failures, Failure(g, None));
  }

  lemma {:induction false} SumUpdate(failures: seq<Failure>, k: nat, f: Failure)
    requires k < |failures|
    ensures Sum(failures[k := f]) == Sum(failures) - failures[k].Weight() + f.Weight()
  {
    if k == 0 {
      assert failures[0 := f][1..] == failures[1..];
    } else {
      assert failures[k := f][1..] == failures[1..][k - 1 := f];
      SumUpdate(failures[1..], k - 1, f);
    }
  }

  /** One failure a group, in the order the groups come up; each counts its distinct commands. */
  predicate Tallies(failures: seq<Failure>, seen: set<DangerousEvent>) {
    && (forall i, j :: 0 <= i < j < |failures| ==> failures[i].group != failures[j].group)
    && (forall i :: 0 <= i < |failures| ==>
        failures[i].count.Some? && failures[i].count.value == |OfGroup(seen, failures[i].group)| > 0)
    && (forall e :: e in seen ==> exists i :: 0 <= i < |failures| && failures[i].group == e.group)
  }

  predicate Positions(encode: Group -> string, failures: seq<Failure>, grouped: map<string, nat>) {
    && (forall key :: key in grouped ==> grouped[key] < |failures| && encode(failures[grouped[key]].group) == key)
    && (forall i :: 0 <= i < |failures| ==>
        encode(failures[i].group) in grouped && grouped[encode(failures[i].group)] == i)
  }

  lemma OneMoreOfGroup(seen: set<DangerousEvent>, e: DangerousEvent, g: Group)
    requires e !in seen
    ensures |OfGroup(seen + {e}, g)| == |OfGroup(seen, g)| + if e.group == g then 1 else 0
  {
    assert OfGroup(seen + {e}, g) == OfGroup(seen, g) + if e.group == g then {e} else {};
  }

  lemma TallyExisting(failures: seq<Failure>, seen: set<DangerousEvent>, e: DangerousEvent, k: nat)
    requires Tallies(failures, seen) && e !in seen && k < |failures| && failures[k].group == e.group
    ensures Tallies(failures[k := Failure(e.group, Some(failures[k].Weight() + 1))], seen + {e})
  {
    var after := failures[k := Failure(e.group, Some(failures[k].Weight() + 1))];
    forall i | 0 <= i < |after|
      ensures after[i].count.Some? && after[i].count.value == |OfGroup(seen + {e}, after[i].group)| > 0
    {
      OneMoreOfGroup(seen, e, after[i].group);
    }
    forall x | x in seen + {e}
      ensures exists i :: 0 <= i < |after| && after[i].group == x.group
    {
      if x == e {
        assert after[k].group == x.group;
      } else {
        var i :| 0 <= i < |failures| && failures[i].group == x.group;
        assert after[i].group == x.group;
      }
    }
  }

  lemma TallyNew(failures: seq<Failure>, seen: set<DangerousEvent>, e: DangerousEvent)
    requires Tallies(failures, seen) && e !in seen
    requires forall i :: 0 <= i < |failures| ==> failures[i].group != e.group
    ensures Tallies(failures + [Failure(e.group, Some(1))], seen + {e})
  {
    var after := failures + [Failure(e.group, Some(1))];
    assert OfGroup(seen, e.group) == {};
    forall i | 0 <= i < |after|
      ensures after[i].count.Some? && after[i].count.value == |OfGroup(seen + {e}, after[i].group)| > 0
    {
      OneMoreOfGroup(seen, e, after[i].group);
    }
    forall x | x in seen + {e}
      ensures exists i :: 0 <= i < |after| && after[i].group == x.group
    {
      if x == e {
        assert after[|failures|].group == x.group;
      } else {
        var i :| 0 <= i < |failures| && failures[i].group == x.group;
        assert after[i].group == x.group;
      }
    }
  }

  ghost predicate AreKeysOf(encode: Group -> string, seen: set<DangerousEvent>, keys: set<string>) {
    forall key :: key in keys <==> exists e :: e in seen && EventKey(encode, e) == key
  }

  lemma OneMoreKey(encode: Group -> string, seen: set<DangerousEvent>, keys: set<string>, event: DangerousEvent)
    requires IsEncoding(encode) && AreKeysOf(encode, seen, keys)
    ensures EventKey(encode, event) in keys <==> event in seen
    ensures AreKeysOf(encode, seen + {event}, keys + {EventKey(encode, event)})
  {
    SeenByKey(encode, seen, event);
  }

  /** Whether the group has its failure yet is what the map of groups says. */
  lemma PositionOfGroup(encode: Group -> string, failures: seq<Failure>, grouped: map<string, nat>, g: Group)
    requires IsEncoding(encode) && Positions(encode, failures, grouped)
    ensures encode(g) in grouped ==> grouped[encode(g)] < |failures| && failures[grouped[encode(g)]].group == g
    ensures encode(g) !in grouped ==> forall i :: 0 <= i < |failures| ==> failures[i].group != g
  {
  }

  lemma PositionsKept(encode: Group -> string, failures: seq<Failure>, grouped: map<string, nat>, i: nat, f: Failure)
    requires Positions(encode, failures, grouped) && i < |failures| && f.group == failures[i].group
    ensures Positions(encode, failures[i := f], grouped)
  {
  }

  lemma PositionsGrow(encode: Group -> string, failures: seq<Failure>, grouped: map<string, nat>, f: Failure)
    requires Positions(encode, failures, grouped) && encode(f.group) !in grouped
    ensures Positions(encode, failures + [f], grouped[encode(f.group) := |failures|])
  {
  }

  /** One event that was not seen before. */
  method CountEvent(encode: Group -> string, event: DangerousEvent, before: seq<Failure>,
                    groupedBefore: map<string, nat>,
                    ghost seen: set<DangerousEvent>)
    returns (failures: seq<Failure>, grouped: map<string, nat>)
    requires IsEncoding(encode) && Positions(encode, before, groupedBefore) && Tallies(before, seen) && event !in seen
    ensures Positions(encode, failures, grouped) && Tallies(failures, seen + {event})
            && Sum(failures) == Sum(before) + 1
  {
    var groupKey := encode(event.group);
    PositionOfGroup(encode, before, groupedBefore, event.group);
    if groupKey in groupedBefore {
      var i := groupedBefore[groupKey];
      var counted := Failure(event.group, Some(before[i].Weight() + 1));
      TallyExisting(before, seen, event, i);
      SumUpdate(before, i, counted);
      PositionsKept(encode, before, groupedBefore, i, counted);
      failures, grouped := before[i := counted], groupedBefore;
    } else {
      TallyNew(before, seen, event);
      SumAppend(before, Failure(event.group, Some(1)));
      PositionsGrow(encode, before, groupedBefore, Failure(event.group, Some(1)));
      failures, grouped := before + [Failure(event.group, Some(1))], groupedBefore[groupKey := |before|];
    }
  }

  /** What the loop knows about the events seen. */
  ghost predicate IsCount(encode: Group -> string, seen: set<DangerousEvent>, uniqueEvents: set<string>,
                          grouped: map<string, nat>, failures: seq<Failure>) {
    && AreKeysOf(encode, seen, uniqueEvents) && Positions(encode, failures, grouped)
    && Tallies(failures, seen) && Sum(failures) == |seen|
  }

  /** One turn of the loop. */
  method CountNext(encode: Group -> string, event: DangerousEvent, uniqueBefore: set<string>,
                   groupedBefore: map<string, nat>,
                   before: seq<Failure>, ghost seen: set<DangerousEvent>)
    returns (uniqueEvents: set<string>, grouped: map<string, nat>, failures: seq<Failure>)
    requires IsEncoding(encode) && IsCount(encode, seen, uniqueBefore, groupedBefore, before)
    ensures IsCount(encode, seen + {event}, uniqueEvents, grouped, failures)
  {
    var eventKey := EventKey(encode, event);
    assert (eventKey in uniqueBefore <==> event in seen)
      && AreKeysOf(encode, seen + {event},
                   uniqueBefore + {eventKey}) by { OneMoreKey(encode, seen, uniqueBefore, event); }
    uniqueEvents, grouped, failures := uniqueBefore + {eventKey}, groupedBefore, before;
    if eventKey in uniqueBefore {
      SeenAgain(seen, event);
    } else {
      failures, grouped := CountEvent(encode, event, before, groupedBefore, seen);
      SeenFirst(seen, event);
    }
  }

  lemma SeenAgain(seen: set<DangerousEvent>, event: DangerousEvent)
    requires event in seen
    ensures seen + {event} == seen
  {
  }

  lemma SeenFirst(seen: set<DangerousEvent>, event: DangerousEvent)
    requires event !in seen
    ensures |seen + {event}| == |seen| + 1
  {
  }

  /** `aggregateDangerousEvents` before its final sort. */
  method AggregateDangerousEvents(encode: Group -> string, events: seq<DangerousEvent>) returns (failures: seq<Failure>)
    requires IsEncoding(encode)
    ensures Tallies(failures, Distinct(events))
    ensures Sum(failures) == |Distinct(events)|
  {
    var uniqueEvents: set<string> := {};
    var grouped: map<string, nat> := map[];
    failures := [];
    for k := 0 to |events|
      invariant IsCount(encode, Distinct(events[..k]), uniqueEvents, grouped, failures)
    {
      DistinctAppend(events, k);
      uniqueEvents, grouped, failures :=
        CountNext(encode, events[k], uniqueEvents, grouped, failures, Distinct(events[..k]));
    }
    assert events[..|events|] == events;
  }

  lemma DistinctAppend(events: seq<DangerousEvent>, k: nat)
    requires k < |events|
    ensures Distinct(events[..k + 1]) == Distinct(events[..k]) + {events[k]}
  {
    assert events[..k + 1] == events[..k] + [events[k]];
  }

  lemma SeenByKey(encode: Group -> string, seen: set<DangerousEvent>, event: DangerousEvent)
    requires IsEncoding(encode)
    ensures (exists e :: e in seen && EventKey(encode, e) == EventKey(encode, event)) <==> event in seen
  {
    if e :| e in seen && EventKey(encode, e) == EventKey(encode, event) {
      EventKeyIsInjective(encode, e, event);
    }
  }

  // ---------------------------------------------------------------------------
  // Generated names
  // ---------------------------------------------------------------------------

  datatype Entity = Entity(device: string, domain: string, originalName: string, userNamed: bool)

  type Triple = (string, string, string)

  function TripleOf(e: Entity): Triple { (e.device, e.domain, e.originalName) }

  function NameKey(e: Entity): string { e.device + [NUL] + (e.domain + [NUL] + e.originalName) }

  /** The parser refuses control characters, NUL among them. */
  predicate IsClean(e: Entity) { NulFree(e.device) && NulFree(e.domain) && NulFree(e.originalName) }

  /** Two entities have one key exactly when device, domain and name all agree. */
  lemma NameKeyIsInjective(e: Entity, f: Entity)
    requires IsClean(e) && IsClean(f)
    ensures NameKey(e) == NameKey(f) <==> TripleOf(e) == TripleOf(f)
  {
    if NameKey(e) == NameKey(f) {
      JoinIsInjective(e.device, e.domain + [NUL] + e.originalName, f.device, f.domain + [NUL] + f.originalName);
      JoinIsInjective(e.domain, e.originalName, f.domain, f.originalName);
    }
  }

  function WithKey(entities: seq<Entity>, key: string): seq<Entity> {
    if entities == [] then []
    else
      var n := |entities| - 1;
      WithKey(entities[..n], key) + if NameKey(entities[n]) == key then [entities[n]] else []
  }

  /** `groupBy` on the name key: each group holds the entities of its key, in order. */
  method GroupByName(entities: seq<Entity>) returns (groups: map<string, seq<Entity>>)
    ensures forall key :: key in groups <==> WithKey(entities, key) != []
    ensures forall key :: key in groups ==> groups[key] == WithKey(entities, key)
  {
    groups := map[];
    for i := 0 to |entities|
      invariant forall key :: key in groups <==> WithKey(entities[..i], key) != []
      invariant forall key :: key in groups ==> groups[key] == WithKey(entities[..i], key)
    {
      assert entities[..i + 1][..i] == entities[..i];
      var key := NameKey(entities[i]);
      if key in groups {
        groups := groups[key := groups[key] + [entities[i]]];
      } else {
        groups := groups[key := [entities[i]]];
      }
    }
    assert entities[..|entities|] == entities;
  }

  function Count(entities: seq<Entity>, t: Triple): nat {
    if entities == [] then 0
    else Count(entities[..|entities| - 1], t) + if TripleOf(entities[|entities| - 1]) == t then 1 else 0
  }

  /** A group is the entities of one triple, all of them. */
  lemma {:induction false} GroupIsTriple(entities: seq<Entity>, e: Entity)
    requires IsClean(e) && forall i :: 0 <= i < |entities| ==> IsClean(entities[i])
    ensures |WithKey(entities, NameKey(e))| == Count(entities, TripleOf(e))
    ensures forall f :: f in WithKey(entities, NameKey(e)) <==> f in entities && TripleOf(f) == TripleOf(e)
  {
    if entities != [] {
      var n := |entities| - 1;
      GroupIsTriple(entities[..n], e);
      NameKeyIsInjective(entities[n], e);
      assert entities == entities[..n] + [entities[n]];
    }
  }

  /** The triples that occur more than once. */
  function Duplicated(entities: seq<Entity>): set<Triple> {
    set e | e in entities && Count(entities, TripleOf(e)) > 1 :: TripleOf(e)
  }

  datatype NameFailure = NameFailure(device: string, domain: string, count: nat)

  /** One failure for each of these triples, carrying how often it occurs. */
  predicate IsReport(generated: seq<Entity>, triples: set<Triple>, failures: seq<NameFailure>, named: seq<Triple>) {
    && |failures| == |named| == |triples|
    && (set t | t in named) == triples
    && forall i :: 0 <= i < |named| ==> failures[i] == NameFailure(named[i].0, named[i].1, Count(generated, named[i]))
  }

  ghost predicate Reports(generated: seq<Entity>, triples: set<Triple>, failures: seq<NameFailure>) {
    exists named :: IsReport(generated, triples, failures, named)
  }

  /** One group. */
  method CheckGroup(generated: seq<Entity>, group: seq<Entity>, ghost rest: set<string>, before: seq<NameFailure>)
    returns (failures: seq<NameFailure>)
    requires group != [] && group[0] in generated && NameKey(group[0]) in rest
    requires |group| == Count(generated, TripleOf(group[0]))
    requires forall i :: 0 <= i < |generated| ==> IsClean(generated[i])
    requires Reports(generated, FoundOutside(generated, rest), before)
    ensures Reports(generated, FoundOutside(generated, rest - {NameKey(group[0])}), failures)
  {
    FoundStep(generated, rest, group[0]);
    failures := before;
    if |group| > 1 {
      failures := failures + [NameFailure(group[0].device, group[0].domain, |group|)];
      ReportOneMore(generated, FoundOutside(generated, rest), before, group[0]);
    }
  }

  lemma ReportOneMore(generated: seq<Entity>, triples: set<Triple>, failures: seq<NameFailure>, first: Entity)
    requires Reports(generated, triples, failures) && TripleOf(first) !in triples
    ensures Reports(generated, triples + {TripleOf(first)},
                    failures + [NameFailure(first.device, first.domain, Count(generated, TripleOf(first)))])
  {
    var named :| IsReport(generated, triples, failures, named);
    assert IsReport(generated, triples + {TripleOf(first)},
                    failures + [NameFailure(first.device, first.domain, Count(generated, TripleOf(first)))],
                    named + [TripleOf(first)]);
  }

  /** `collectDuplicateGeneratedNameFailures` after its filter and before its sort: one failure for
      every triple used twice or more, carrying how often. */
  method CollectDuplicates(generated: seq<Entity>) returns (failures: seq<NameFailure>)
    requires forall i :: 0 <= i < |generated| ==> IsClean(generated[i])
    ensures Reports(generated, Duplicated(generated), failures)
    ensures |failures| == |Duplicated(generated)|
  {
    var groups := GroupByName(generated);
    EveryKeyIsGrouped(generated);
    failures := [];
    var rest := groups.Keys;
    assert FoundOutside(generated, rest) == {};
    assert IsReport(generated, {}, [], []);
    while rest != {}
      invariant rest <= groups.Keys && Reports(generated, FoundOutside(generated, rest), failures)
      decreases |rest|
    {
      var key :| key in rest;
      FirstOfGroup(generated, key);
      failures := CheckGroup(generated, groups[key], rest, failures);
      rest := rest - {key};
    }
    assert FoundOutside(generated, {}) == Duplicated(generated);
  }

  /** The duplicated triples whose keys have been looked at. */
  function FoundOutside(entities: seq<Entity>, rest: set<string>): set<Triple> {
    set e | e in entities && Count(entities, TripleOf(e)) > 1 && NameKey(e) !in rest :: TripleOf(e)
  }

  lemma FirstOfGroup(entities: seq<Entity>, key: string)
    requires (forall i :: 0 <= i < |entities| ==> IsClean(entities[i])) && WithKey(entities, key) != []
    ensures var first := WithKey(entities, key)[0];
            && first in entities && IsClean(first) && NameKey(first) == key
            && |WithKey(entities, key)| == Count(entities, TripleOf(first))
  {
    MembersHaveKey(entities, key);
    var first := WithKey(entities, key)[0];
    assert first in WithKey(entities, key);
    GroupIsTriple(entities, first);
  }

  lemma FoundStep(entities: seq<Entity>, rest: set<string>, first: Entity)
    requires first in entities && NameKey(first) in rest && forall i :: 0 <= i < |entities| ==> IsClean(entities[i])
    ensures FoundOutside(entities, rest - {NameKey(first)}) ==
            FoundOutside(entities, rest) + if Count(entities, TripleOf(first)) > 1 then {TripleOf(first)} else {}
    ensures TripleOf(first) !in FoundOutside(entities, rest)
  {
    KeysMatch(entities, first);
  }

  lemma EveryKeyIsGrouped(entities: seq<Entity>)
    requires forall i :: 0 <= i < |entities| ==> IsClean(entities[i])
    ensures forall e :: e in entities ==> WithKey(entities, NameKey(e)) != []
  {
    forall e | e in entities
      ensures WithKey(entities, NameKey(e)) != []
    {
      GroupIsTriple(entities, e);
      assert e in WithKey(entities, NameKey(e));
    }
  }

  lemma {:induction false} MembersHaveKey(entities: seq<Entity>, key: string)
    ensures forall e :: e in WithKey(entities, key) ==> e in entities && NameKey(e) == key
  {
    if entities != [] {
      MembersHaveKey(entities[..|entities| - 1], key);
      assert entities == entities[..|entities| - 1] + [entities[|entities| - 1]];
    }
  }

  lemma KeysMatch(entities: seq<Entity>, e: Entity)
    requires IsClean(e) && forall i :: 0 <= i < |entities| ==> IsClean(entities[i])
    ensures forall f :: f in entities ==> (NameKey(f) == NameKey(e) <==> TripleOf(f) == TripleOf(e))
  {
    forall f | f in entities
      ensures NameKey(f) == NameKey(e) <==> TripleOf(f) == TripleOf(e)
    {
      NameKeyIsInjective(f, e);
    }
  }
}
