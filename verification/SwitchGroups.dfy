/**
 The primary-switch collision targets of all names together
 (custom_components/smartthings_web/__init__.py): rows are grouped by the ID their name calls for,
 each group is sorted and filtered, and takes its places without looking at the other groups.

 A group is the generated rows of one plain ID, in the order of the sort.  The loop over the groups
 is proved for every order of them, which a Python dictionary fixes but nothing relies on.  As the
 groups do not see each other's targets, two of them may aim at one vacant ID; exactly when that
 happens is said in terms of free places counted from the registry before the call.
 */
module SwitchGroups {
  import opened EntityIds
  import opened SwitchTargets
  import FallbackRows

  // ---------------------------------------------------------------------------
  // The targets of several groups
  // ---------------------------------------------------------------------------

  /** The generated rows of each name, in the order in which they take places. */
  type Groups = map<string, seq<Row>>

  predicate AreApart(groups: Groups) {
    forall g, h :: g in groups && h in groups && g != h ==> UniqueIds(groups[g]) !! UniqueIds(groups[h])
  }

  /** The registry knows the row under its two IDs. */
  predicate IsRegistered(registry: Registry, row: Row) {
    row.entityId in registry && registry[row.entityId] == row.uniqueId
  }

  predicate AllRegistered(registry: Registry, group: seq<Row>) {
    forall k :: 0 <= k < |group| ==> IsRegistered(registry, group[k])
  }

  /** What grouping the rows of one registry gives. */
  predicate AreGroups(registry: Registry, groups: Groups) {
    AreApart(groups) && forall g :: g in groups ==> DistinctRows(groups[g]) && AllRegistered(registry, groups[g])
  }

  function Restrict(targets: map<string, string>, own: set<string>): map<string, string> {
    map u | u in targets && u in own :: targets[u]
  }

  ghost predicate AreTargetsOf(registry: Registry, exact: string, group: seq<Row>, targets: map<string, string>) {
    AreTargets(exact, group, Indices(registry, exact, group), Restrict(targets, UniqueIds(group)))
  }

  predicate IsOfGroup(groups: Groups, g: string, u: string) { g in groups && u in UniqueIds(groups[g]) }

  /** Every group has its targets, and there are no others. */
  ghost predicate AreAllTargets(registry: Registry, groups: Groups, targets: map<string, string>) {
    && (forall g :: g in groups ==> AreTargetsOf(registry, g, groups[g], targets))
    && (forall u :: u in targets ==> exists g :: IsOfGroup(groups, g, u))
  }

  // ---------------------------------------------------------------------------
  // When targets of two names coincide
  // ---------------------------------------------------------------------------

  /** A candidate meant for a row of this entry: its rank among the free ones is the row's. */
  predicate IsMeant(registry: Registry, exact: string, group: seq<Row>, i: int) {
    var own := UniqueIds(group);
    var rank := FreePlaces(registry, own, exact, 1, i);
    1 <= i < INDEX_LIMIT && !IsForeign(registry, own, Candidate(exact, i)) && rank < |group| && group[rank].isCurrent
  }

  /** The plain name of one group is a numbered candidate of another that nothing holds, and both
      mean it for a row of this entry: h for its first, g for the one of the candidate's rank. */
  predicate Clash(registry: Registry, groups: Groups, g: string, h: string, i: int) {
    && g in groups && h in groups && 2 <= i < INDEX_LIMIT && h == Candidate(g, i) && h !in registry
    && groups[h] != [] && groups[h][0].isCurrent
    && IsMeant(registry, g, groups[g], i)
  }

  predicate SomeClash(registry: Registry, groups: Groups) {
    exists g, h, i :: g in groups && h in groups && 2 <= i < INDEX_LIMIT && Clash(registry, groups, g, h, i)
  }

  lemma MeantIsTarget(registry: Registry, exact: string, group: seq<Row>, targets: map<string, string>, i: int)
    returns (k: nat)
    requires DistinctRows(group) && AreTargetsOf(registry, exact, group, targets)
    requires IsMeant(registry, exact, group, i)
    ensures k == FreePlaces(registry, UniqueIds(group), exact, 1, i) < |group|
    ensures group[k].entityId != Candidate(exact, i) ==>
              group[k].uniqueId in targets && targets[group[k].uniqueId] == Candidate(exact, i)
  {
    k := FreePlaces(registry, UniqueIds(group), exact, 1, i);
    RowOfPlace(registry, UniqueIds(group), exact, |group|, 1, i);
    if group[k].entityId != Candidate(exact, i) {
      assert IsRetargeted(exact, group, Indices(registry, exact, group), k);
    }
  }

  lemma TargetIsMeant(registry: Registry, exact: string, group: seq<Row>, targets: map<string, string>, u: string)
    returns (i: int)
    requires DistinctRows(group) && AreTargetsOf(registry, exact, group, targets)
    requires u in targets && u in UniqueIds(group)
    ensures IsMeant(registry, exact, group, i) && targets[u] == Candidate(exact, i)
  {
    var own, a := UniqueIds(group), Indices(registry, exact, group);
    var mine := Restrict(targets, own);
    assert u in mine;
    var k: int :| 0 <= k < |group| && IsRetargeted(exact, group, a, k) && group[k].uniqueId == u;
    i := a[k];
    AssignedRises(registry, own, exact, |group|, 1);
    PlaceOfRow(registry, own, exact, |group|, 1, k);
    assert mine[u] == targets[u];
  }

  lemma NumberedApart(g: string, i: int, h: string, j: int)
    requires g != h && |g| <= |h| && i >= 2 && j >= 2
    ensures Candidate(g, i) != Candidate(h, j)
  {
    var a, b := Candidate(g, i), Candidate(h, j);
    FallbackRows.DecimalIsDigits(i);
    assert b[|h|] == '_' && b[..|h|] == h && a[..|g|] == g;
    if |g| < |h| < |a| {
      assert a[|h|] == Decimal(i)[|h| - |g| - 1];
    }
  }

  /** Two names share a candidate only if one is a numbered candidate of the other. */
  lemma SharedCandidate(g: string, i: int, h: string, j: int)
    requires g != h && 1 <= i && 1 <= j && Candidate(g, i) == Candidate(h, j)
    ensures (i >= 2 && j == 1 && h == Candidate(g, i)) || (j >= 2 && i == 1 && g == Candidate(h, j))
  {
    if |g| <= |h| {
      if i >= 2 { if j >= 2 { NumberedApart(g, i, h, j); } }
    } else {
      if i >= 2 { if j >= 2 { NumberedApart(h, j, g, i); } }
    }
  }

  /** Nothing holds an ID that two groups may take. */
  lemma SharedIsVacant(registry: Registry, groups: Groups, g: string, i: int, h: string, j: int)
    requires AreGroups(registry, groups) && g in groups && h in groups && g != h
    requires IsMeant(registry, g, groups[g], i) && IsMeant(registry, h, groups[h], j)
    requires Candidate(g, i) == Candidate(h, j)
    ensures Candidate(g, i) !in registry
  {
  }

  lemma SharedIsClash(registry: Registry, groups: Groups, g: string, i: int, h: string, j: int)
    requires AreGroups(registry, groups) && g in groups && h in groups && g != h
    requires IsMeant(registry, g, groups[g], i) && IsMeant(registry, h, groups[h], j)
    requires Candidate(g, i) == Candidate(h, j)
    ensures SomeClash(registry, groups)
  {
    SharedIsVacant(registry, groups, g, i, h, j);
    SharedCandidate(g, i, h, j);
    if j == 1 {
      assert FreePlaces(registry, UniqueIds(groups[h]), h, 1, 1) == 0;
      assert Clash(registry, groups, g, h, i);
    } else {
      assert FreePlaces(registry, UniqueIds(groups[g]), g, 1, 1) == 0;
      assert Clash(registry, groups, h, g, j);
    }
  }

  predicate TargetsDistinct(targets: map<string, string>) {
    forall u, v :: u in targets && v in targets && u != v ==> targets[u] != targets[v]
  }

  /** Of two rows of a clash both go to the same ID. */
  lemma ClashCoincides(
    registry: Registry, groups: Groups, targets: map<string, string>, g: string, h: string, i: int)
    returns (k: nat)
    requires AreGroups(registry, groups) && AreAllTargets(registry, groups, targets)
    requires Clash(registry, groups, g, h, i)
    ensures g != h && k < |groups[g]|
    ensures var u, v := groups[g][k].uniqueId, groups[h][0].uniqueId;
            u != v && u in targets && v in targets && targets[u] == targets[v] == h
  {
    assert h[|g|] == '_';
    assert IsMeant(registry, h, groups[h], 1);
    k := MeantIsTarget(registry, g, groups[g], targets, i);
    var first := MeantIsTarget(registry, h, groups[h], targets, 1);
    var u, v := groups[g][k].uniqueId, groups[h][0].uniqueId;
    assert IsRegistered(registry, groups[g][k]) && IsRegistered(registry, groups[h][0]);
    assert u in UniqueIds(groups[g]) && v in UniqueIds(groups[h]);
  }

  lemma TwoTargets(
    registry: Registry, groups: Groups, targets: map<string, string>, u: string, v: string)
    requires AreGroups(registry, groups) && AreAllTargets(registry, groups, targets)
    requires u in targets && v in targets && u != v && targets[u] == targets[v]
    ensures SomeClash(registry, groups)
  {
    var g :| IsOfGroup(groups, g, u);
    var h :| IsOfGroup(groups, h, v);
    if g == h {
      TargetsAreDistinctAndOwn(registry, g, groups[g], Restrict(targets, UniqueIds(groups[g])), u, v);
    } else {
      var i := TargetIsMeant(registry, g, groups[g], targets, u);
      var j := TargetIsMeant(registry, h, groups[h], targets, v);
      SharedIsClash(registry, groups, g, i, h, j);
    }
  }

  /** The targets of all groups are pairwise distinct exactly when no plain name is a vacant
      numbered candidate of another that both groups mean for a row of this entry. */
  lemma AllTargetsDistinctExactly(registry: Registry, groups: Groups, targets: map<string, string>)
    requires AreGroups(registry, groups) && AreAllTargets(registry, groups, targets)
    ensures TargetsDistinct(targets) <==> !SomeClash(registry, groups)
  {
    if SomeClash(registry, groups) {
      var g, h, i :| g in groups && h in groups && 2 <= i < INDEX_LIMIT && Clash(registry, groups, g, h, i);
      var k := ClashCoincides(registry, groups, targets, g, h, i);
    } else {
      forall u, v | u in targets && v in targets && u != v
        ensures targets[u] != targets[v]
      {
        if targets[u] == targets[v] { TwoTargets(registry, groups, targets, u, v); }
      }
    }
  }

  // ---------------------------------------------------------------------------
  // When all rows end up apart
  // ---------------------------------------------------------------------------

  predicate FinallyApart(groups: Groups, targets: map<string, string>, g: string, j: int, h: string, k: int)
    requires g in groups && h in groups && 0 <= j < |groups[g]| && 0 <= k < |groups[h]|
  {
    (g == h && j == k) || FinalId(groups[g][j], targets) != FinalId(groups[h][k], targets)
  }

  predicate AllFinallyApart(groups: Groups, targets: map<string, string>) {
    forall g, h, j, k :: g in groups && h in groups && 0 <= j < |groups[g]| && 0 <= k < |groups[h]| ==>
      FinallyApart(groups, targets, g, j, h, k)
  }

  lemma FinalWithin(group: seq<Row>, targets: map<string, string>, k: nat)
    requires k < |group|
    ensures FinalId(group[k], Restrict(targets, UniqueIds(group))) == FinalId(group[k], targets)
  {
    assert group[k].uniqueId in UniqueIds(group);
  }

  /** A row ends at a candidate meant for one, or where it was. */
  lemma FinalIsMeantOrKept(registry: Registry, exact: string, group: seq<Row>, targets: map<string, string>, k: nat)
    returns (i: int)
    requires DistinctRows(group) && AreTargetsOf(registry, exact, group, targets) && k < |group|
    ensures FinalId(group[k], targets) == group[k].entityId
            || (IsMeant(registry, exact, group, i) && FinalId(group[k], targets) == Candidate(exact, i))
  {
    i := 0;
    if group[k].uniqueId in targets {
      assert group[k].uniqueId in UniqueIds(group);
      i := TargetIsMeant(registry, exact, group, targets, group[k].uniqueId);
    }
  }

  lemma GroupsEndApart(registry: Registry, groups: Groups, targets: map<string, string>,
                       g: string, j: nat, h: string, k: nat)
    requires AreGroups(registry, groups) && AreAllTargets(registry, groups, targets)
    requires g in groups && h in groups && g != h && j < |groups[g]| && k < |groups[h]|
    requires !SomeClash(registry, groups)
    ensures FinalId(groups[g][j], targets) != FinalId(groups[h][k], targets)
  {
    var x := FinalIsMeantOrKept(registry, g, groups[g], targets, j);
    var y := FinalIsMeantOrKept(registry, h, groups[h], targets, k);
    assert IsRegistered(registry, groups[g][j]) && IsRegistered(registry, groups[h][k]);
    assert groups[g][j].uniqueId in UniqueIds(groups[g]) && groups[h][k].uniqueId in UniqueIds(groups[h]);
    if IsMeant(registry, g, groups[g], x) && IsMeant(registry, h, groups[h], y) && Candidate(g, x) == Candidate(h, y) {
      SharedIsClash(registry, groups, g, x, h, y);
    }
  }

  lemma GroupEndsApart(registry: Registry, groups: Groups, targets: map<string, string>, g: string)
    requires AreGroups(registry, groups) && AreAllTargets(registry, groups, targets) && g in groups
    ensures !SomebodyInTheWay(registry, g, groups[g]) <==>
            forall j, k :: 0 <= j < k < |groups[g]| ==> FinalId(groups[g][j], targets) != FinalId(groups[g][k], targets)
  {
    var group, mine := groups[g], Restrict(targets, UniqueIds(groups[g]));
    DistinctExactly(registry, g, group, mine);
    forall k | 0 <= k < |group|
      ensures FinalId(group[k], mine) == FinalId(group[k], targets)
    {
      FinalWithin(group, targets, k);
    }
  }

  /** Kept and new IDs of all generated rows are pairwise distinct exactly when in no group a row
      that is left behind stands in the way, and no two groups clash. */
  lemma AllFinallyApartExactly(registry: Registry, groups: Groups, targets: map<string, string>)
    requires AreGroups(registry, groups) && AreAllTargets(registry, groups, targets)
    ensures AllFinallyApart(groups, targets) <==>
            !SomeClash(registry, groups) && forall g :: g in groups ==> !SomebodyInTheWay(registry, g, groups[g])
  {
    if AllFinallyApart(groups, targets) {
      ApartMeansNoClash(registry, groups, targets);
      forall g | g in groups
        ensures !SomebodyInTheWay(registry, g, groups[g])
      {
        forall j, k | 0 <= j < k < |groups[g]|
          ensures FinalId(groups[g][j], targets) != FinalId(groups[g][k], targets)
        {
          assert FinallyApart(groups, targets, g, j, g, k);
        }
        GroupEndsApart(registry, groups, targets, g);
      }
    } else {
      var g, h, j: int, k: int :| g in groups && h in groups && 0 <= j < |groups[g]| && 0 <= k < |groups[h]|
        && !FinallyApart(groups, targets, g, j, h, k);
      if g == h {
        GroupEndsApart(registry, groups, targets, g);
      } else if !SomeClash(registry, groups) {
        GroupsEndApart(registry, groups, targets, g, j, h, k);
      }
    }
  }

  lemma ClashIsCollision(
    registry: Registry, groups: Groups, targets: map<string, string>, g: string, h: string, i: int)
    requires AreGroups(registry, groups) && AreAllTargets(registry, groups, targets)
    requires Clash(registry, groups, g, h, i)
    ensures !AllFinallyApart(groups, targets)
  {
    var k := ClashCoincides(registry, groups, targets, g, h, i);
    assert !FinallyApart(groups, targets, g, k, h, 0);
  }

  lemma ApartMeansNoClash(registry: Registry, groups: Groups, targets: map<string, string>)
    requires AreGroups(registry, groups) && AreAllTargets(registry, groups, targets)
    requires AllFinallyApart(groups, targets)
    ensures !SomeClash(registry, groups)
  {
    forall g, h, i | g in groups && h in groups && 2 <= i < INDEX_LIMIT
      ensures !Clash(registry, groups, g, h, i)
    {
      if Clash(registry, groups, g, h, i) {
        ClashIsCollision(registry, groups, targets, g, h, i);
      }
    }
  }

  // Two switches called "Lamp" and one called "Lamp 2", none of them at its name yet.

  const LAMPS := [Row("switch.lamp_switch", "a", true), Row("switch.lamp_switch_2", "b", true)]
  const SECOND_LAMPS := [Row("switch.lamp_2_switch", "c", true)]
  const LAMP_GROUPS: Groups := map["switch.lamp" := LAMPS, "switch.lamp_2" := SECOND_LAMPS]
  const LAMP_REGISTRY: Registry :=
    map["switch.lamp_switch" := "a", "switch.lamp_switch_2" := "b", "switch.lamp_2_switch" := "c"]

  /** Clashes occur: both names take the vacant second place of the first. */
  lemma LampsClash()
    ensures AreGroups(LAMP_REGISTRY, LAMP_GROUPS)
    ensures Clash(LAMP_REGISTRY, LAMP_GROUPS, "switch.lamp", "switch.lamp_2", 2)
  {
    assert Decimal(2) == "2" && Candidate("switch.lamp", 2) == "switch.lamp_2";
    assert Candidate("switch.lamp", 1) == "switch.lamp";
    LampsAreGroups();
    assert FreePlaces(LAMP_REGISTRY, UniqueIds(LAMPS), "switch.lamp", 2, 2) == 0;
    assert FreePlaces(LAMP_REGISTRY, UniqueIds(LAMPS), "switch.lamp", 1, 2) == 1;
  }

  lemma LampsAreGroups()
    ensures AreGroups(LAMP_REGISTRY, LAMP_GROUPS)
    ensures "switch.lamp" !in LAMP_REGISTRY && "switch.lamp_2" !in LAMP_REGISTRY
  {
    assert |"switch.lamp"| == 11 && |"switch.lamp_2"| == 13 && |"switch.lamp_switch"| == 18;
    assert |"switch.lamp_switch_2"| == |"switch.lamp_2_switch"| == 20;
    assert "switch.lamp_switch_2"[12] == 's' && "switch.lamp_2_switch"[12] == '2';
    assert LAMPS[0].uniqueId == "a" && LAMPS[1].uniqueId == "b" && SECOND_LAMPS[0].uniqueId == "c";
  }

  // ---------------------------------------------------------------------------
  // Grouping and sorting
  // ---------------------------------------------------------------------------

  /** A registry row of a primary switch: the ID its name calls for, its place in the sort, and
      whether its current ID is one this integration generates. */
  datatype Switch = Switch(row: Row, exact: string, roomKey: string, isGenerated: bool)

  predicate IsNamed(x: Switch) { x.row.entityId == x.exact }

  /** Python's order on the sort keys. */
  predicate SortsBefore(x: Switch, y: Switch) {
    || (IsNamed(x) && !IsNamed(y))
    || ((IsNamed(x) <==> IsNamed(y))
        && (FallbackRows.Before(x.roomKey, y.roomKey)
            || (x.roomKey == y.roomKey && FallbackRows.Before(x.row.uniqueId, y.row.uniqueId))))
  }

  function InsertSwitch(x: Switch, s: seq<Switch>): seq<Switch> {
    if s == [] || SortsBefore(x, s[0]) then [x] + s else [s[0]] + InsertSwitch(x, s[1..])
  }

  /** The stable sort. */
  function Sorted(s: seq<Switch>): seq<Switch> {
    if s == [] then [] else InsertSwitch(s[|s| - 1], Sorted(s[..|s| - 1]))
  }

  function OfName(switches: seq<Switch>, exact: string): seq<Switch> {
    if switches == [] then []
    else
      var n := |switches| - 1;
      OfName(switches[..n], exact) + if switches[n].exact == exact then [switches[n]] else []
  }

  function GeneratedRows(s: seq<Switch>): seq<Row> {
    if s == [] then [] else (if s[0].isGenerated then [s[0].row] else []) + GeneratedRows(s[1..])
  }

  function GroupOf(switches: seq<Switch>, exact: string): seq<Row> {
    GeneratedRows(Sorted(OfName(switches, exact)))
  }

  function Names(switches: seq<Switch>): set<string> { set k | 0 <= k < |switches| :: switches[k].exact }

  function GroupsOf(switches: seq<Switch>): Groups { map g | g in Names(switches) :: GroupOf(switches, g) }

  predicate NoTwins(s: seq<Switch>) {
    forall j, k :: 0 <= j < k < |s| ==> s[j].row.uniqueId != s[k].row.uniqueId
  }

  /** The rows are rows of this registry, each once. */
  predicate AreRows(registry: Registry, switches: seq<Switch>) {
    NoTwins(switches) && forall k :: 0 <= k < |switches| ==> IsRegistered(registry, switches[k].row)
  }

  lemma {:induction false} InsertMembers(x: Switch, s: seq<Switch>)
    ensures forall y :: y in InsertSwitch(x, s) <==> y == x || y in s
  {
    if s != [] && !SortsBefore(x, s[0]) {
      InsertMembers(x, s[1..]);
      assert s == [s[0]] + s[1..];
    }
  }

  lemma {:induction false} InsertKeepsApart(x: Switch, s: seq<Switch>)
    requires NoTwins(s) && forall y :: y in s ==> y.row.uniqueId != x.row.uniqueId
    ensures NoTwins(InsertSwitch(x, s))
  {
    if s != [] && !SortsBefore(x, s[0]) {
      InsertKeepsApart(x, s[1..]);
      InsertMembers(x, s[1..]);
      var rest := InsertSwitch(x, s[1..]);
      forall k | 0 <= k < |rest|
        ensures rest[k].row.uniqueId != s[0].row.uniqueId
      {
        assert rest[k] in rest;
      }
    }
  }

  lemma {:induction false} SortedMembers(s: seq<Switch>)
    ensures forall y :: y in Sorted(s) <==> y in s
  {
    if s != [] {
      SortedMembers(s[..|s| - 1]);
      InsertMembers(s[|s| - 1], Sorted(s[..|s| - 1]));
      assert s == s[..|s| - 1] + [s[|s| - 1]];
    }
  }

  lemma {:induction false} SortedApart(s: seq<Switch>)
    requires NoTwins(s)
    ensures NoTwins(Sorted(s))
  {
    if s != [] {
      SortedApart(s[..|s| - 1]);
      SortedMembers(s[..|s| - 1]);
      InsertKeepsApart(s[|s| - 1], Sorted(s[..|s| - 1]));
    }
  }

  lemma {:induction false} OfNameMembers(switches: seq<Switch>, exact: string)
    ensures forall y :: y in OfName(switches, exact) <==> y in switches && y.exact == exact
  {
    if switches != [] {
      OfNameMembers(switches[..|switches| - 1], exact);
      assert switches == switches[..|switches| - 1] + [switches[|switches| - 1]];
    }
  }

  lemma {:induction false} OfNameApart(switches: seq<Switch>, exact: string)
    requires NoTwins(switches)
    ensures NoTwins(OfName(switches, exact))
  {
    if switches != [] {
      var n := |switches| - 1;
      OfNameApart(switches[..n], exact);
      OfNameMembers(switches[..n], exact);
      var rest := OfName(switches[..n], exact);
      forall k | 0 <= k < |rest|
        ensures rest[k].row.uniqueId != switches[n].row.uniqueId
      {
        assert rest[k] in switches[..n];
      }
    }
  }

  lemma {:induction false} GeneratedMembers(s: seq<Switch>)
    ensures forall r :: r in GeneratedRows(s) <==> exists y :: y in s && y.isGenerated && y.row == r
  {
    if s != [] {
      GeneratedMembers(s[1..]);
      assert s == [s[0]] + s[1..];
    }
  }

  lemma {:induction false} GeneratedApart(s: seq<Switch>)
    requires NoTwins(s)
    ensures forall j, k :: 0 <= j < k < |GeneratedRows(s)| ==>
              GeneratedRows(s)[j].uniqueId != GeneratedRows(s)[k].uniqueId
  {
    if s != [] {
      GeneratedApart(s[1..]);
      GeneratedMembers(s[1..]);
      var rest := GeneratedRows(s[1..]);
      forall k | 0 <= k < |rest|
        ensures rest[k].uniqueId != s[0].row.uniqueId
      {
        assert rest[k] in rest;
        var y :| y in s[1..] && y.row == rest[k];
      }
    }
  }

  /** A group's rows are the generated rows of its name. */
  lemma GroupMembers(switches: seq<Switch>, exact: string, r: Row)
    ensures r in GroupOf(switches, exact) <==>
            exists y :: y in switches && y.exact == exact && y.isGenerated && y.row == r
  {
    OfNameMembers(switches, exact);
    SortedMembers(OfName(switches, exact));
    GeneratedMembers(Sorted(OfName(switches, exact)));
  }

  lemma GroupIsSound(registry: Registry, switches: seq<Switch>, exact: string)
    requires AreRows(registry, switches)
    ensures DistinctRows(GroupOf(switches, exact)) && AllRegistered(registry, GroupOf(switches, exact))
  {
    var group := GroupOf(switches, exact);
    OfNameApart(switches, exact);
    SortedApart(OfName(switches, exact));
    GeneratedApart(Sorted(OfName(switches, exact)));
    forall k | 0 <= k < |group|
      ensures IsRegistered(registry, group[k])
    {
      GroupMembers(switches, exact, group[k]);
      assert group[k] in group;
    }
  }

  lemma GroupsAreSound(registry: Registry, switches: seq<Switch>)
    requires AreRows(registry, switches)
    ensures AreGroups(registry, GroupsOf(switches))
  {
    forall g | g in Names(switches)
      ensures DistinctRows(GroupOf(switches, g)) && AllRegistered(registry, GroupOf(switches, g))
    {
      GroupIsSound(registry, switches, g);
    }
    forall g, h | g in Names(switches) && h in Names(switches) && g != h
      ensures UniqueIds(GroupOf(switches, g)) !! UniqueIds(GroupOf(switches, h))
    {
      GroupsShareNothing(switches, g, h);
    }
  }

  lemma GroupsShareNothing(switches: seq<Switch>, g: string, h: string)
    requires NoTwins(switches) && g != h
    ensures UniqueIds(GroupOf(switches, g)) !! UniqueIds(GroupOf(switches, h))
  {
    forall j, k | 0 <= j < |GroupOf(switches, g)| && 0 <= k < |GroupOf(switches, h)|
      ensures GroupOf(switches, g)[j].uniqueId != GroupOf(switches, h)[k].uniqueId
    {
      GroupMembers(switches, g, GroupOf(switches, g)[j]);
      GroupMembers(switches, h, GroupOf(switches, h)[k]);
      assert GroupOf(switches, g)[j] in GroupOf(switches, g) && GroupOf(switches, h)[k] in GroupOf(switches, h);
      var x :| x in switches && x.exact == g && x.row == GroupOf(switches, g)[j];
      var y :| y in switches && y.exact == h && y.row == GroupOf(switches, h)[k];
    }
  }

  // ---------------------------------------------------------------------------
  // The whole function
  // ---------------------------------------------------------------------------

  ghost predicate HaveTargets(registry: Registry, groups: Groups, done: set<string>, targets: map<string, string>) {
    done <= groups.Keys && forall g :: g in done ==> AreTargetsOf(registry, g, groups[g], targets)
  }

  predicate ComeFrom(groups: Groups, done: set<string>, targets: map<string, string>) {
    forall u :: u in targets ==> exists g :: g in done && IsOfGroup(groups, g, u)
  }

  /** The groups looked at have their targets, and there are no others. */
  ghost predicate IsPartway(registry: Registry, groups: Groups, done: set<string>, targets: map<string, string>) {
    HaveTargets(registry, groups, done, targets) && ComeFrom(groups, done, targets)
  }

  lemma TargetsAreOfGroup(exact: string, group: seq<Row>, indices: seq<int>, targets: map<string, string>)
    requires AreTargets(exact, group, indices, targets)
    ensures targets.Keys <= UniqueIds(group)
  {
    forall u | u in targets
      ensures u in UniqueIds(group)
    {
      var k: int :| 0 <= k < |group| && IsRetargeted(exact, group, indices, k) && group[k].uniqueId == u;
    }
  }

  lemma RestrictOld(targets: map<string, string>, more: map<string, string>, own: set<string>)
    requires more.Keys !! own
    ensures Restrict(targets + more, own) == Restrict(targets, own)
  {
  }

  lemma RestrictNew(targets: map<string, string>, more: map<string, string>, own: set<string>)
    requires targets.Keys !! own && more.Keys <= own
    ensures Restrict(targets + more, own) == more
  {
  }

  lemma OldTargetsElsewhere(groups: Groups, done: set<string>, g: string, targets: map<string, string>)
    requires AreApart(groups) && ComeFrom(groups, done, targets) && g in groups && g !in done
    ensures targets.Keys !! UniqueIds(groups[g])
  {
    forall u | u in targets
      ensures u !in UniqueIds(groups[g])
    {
      var h :| h in done && IsOfGroup(groups, h, u);
      assert g != h;
    }
  }

  lemma MergedComeFrom(groups: Groups, done: set<string>, g: string, targets: map<string, string>,
                       more: map<string, string>)
    requires ComeFrom(groups, done, targets) && g in groups && more.Keys <= UniqueIds(groups[g])
    ensures ComeFrom(groups, done + {g}, targets + more)
  {
    forall u | u in targets + more
      ensures exists h :: h in done + {g} && IsOfGroup(groups, h, u)
    {
      if u in more {
        assert IsOfGroup(groups, g, u) && g in done + {g};
      } else {
        var h :| h in done && IsOfGroup(groups, h, u);
        assert h in done + {g};
      }
    }
  }

  lemma MergeTargets(registry: Registry, groups: Groups, done: set<string>, g: string, targets: map<string, string>,
                     more: map<string, string>)
    requires AreApart(groups) && IsPartway(registry, groups, done, targets) && g in groups && g !in done
    requires AreTargets(g, groups[g], Indices(registry, g, groups[g]), more)
    ensures IsPartway(registry, groups, done + {g}, targets + more)
  {
    TargetsAreOfGroup(g, groups[g], Indices(registry, g, groups[g]), more);
    OldTargetsElsewhere(groups, done, g, targets);
    MergedComeFrom(groups, done, g, targets, more);
    RestrictNew(targets, more, UniqueIds(groups[g]));
    forall h | h in done
      ensures AreTargetsOf(registry, h, groups[h], targets + more)
    {
      assert UniqueIds(groups[g]) !! UniqueIds(groups[h]);
      RestrictOld(targets, more, UniqueIds(groups[h]));
    }
  }

  /** Rows by name, in registry order. */
  method GroupRows(switches: seq<Switch>) returns (grouped: map<string, seq<Switch>>)
    ensures grouped.Keys == Names(switches) && forall g :: g in grouped ==> grouped[g] == OfName(switches, g)
  {
    grouped := map[];
    for i := 0 to |switches|
      invariant grouped.Keys == Names(switches[..i])
      invariant forall g :: g in grouped ==> grouped[g] == OfName(switches[..i], g)
      invariant forall g :: g !in grouped ==> OfName(switches[..i], g) == []
    {
      var x := switches[i];
      assert switches[..i + 1][..i] == switches[..i];
      NamesGrow(switches[..i], x);
      assert switches[..i + 1] == switches[..i] + [x];
      grouped := grouped[x.exact := (if x.exact in grouped then grouped[x.exact] else []) + [x]];
    }
    assert switches[..|switches|] == switches;
  }

  lemma NamesGrow(switches: seq<Switch>, x: Switch)
    ensures Names(switches + [x]) == Names(switches) + {x.exact}
  {
    var all := switches + [x];
    assert all[|switches|] == x && forall k :: 0 <= k < |switches| ==> all[k] == switches[k];
    forall k | 0 <= k < |switches|
      ensures switches[k].exact in Names(all)
    {
      assert all[k].exact in Names(all);
    }
    assert all[|switches|].exact in Names(all);
  }

  /** One turn of the loop over the groups. */
  method TakeGroup(registry: Registry, ghost groups: Groups, ghost done: set<string>, exact: string,
                   rows: seq<Switch>, before: map<string, string>)
    returns (targets: map<string, string>)
    requires AreGroups(registry, groups) && IsPartway(registry, groups, done, before)
    requires exact in groups && exact !in done && groups[exact] == GeneratedRows(Sorted(rows))
    ensures IsPartway(registry, groups, done + {exact}, targets)
  {
    var generated := GeneratedRows(Sorted(rows));
    var more := map[];
    if generated != [] {
      more := CollisionTargets(registry, exact, generated);
    }
    MergeTargets(registry, groups, done, exact, before, more);
    targets := before + more;
  }

  lemma OneLess(names: set<string>, rest: set<string>, g: string)
    requires rest <= names && g in rest
    ensures names - (rest - {g}) == (names - rest) + {g}
  {
  }

  lemma AllDone(registry: Registry, groups: Groups, targets: map<string, string>)
    requires IsPartway(registry, groups, groups.Keys - {}, targets)
    ensures AreAllTargets(registry, groups, targets)
  {
    assert groups.Keys - {} == groups.Keys;
    forall u | u in targets
      ensures exists g :: IsOfGroup(groups, g, u)
    {
      var g :| g in groups.Keys - {} && IsOfGroup(groups, g, u);
    }
  }

  lemma NothingTaken(registry: Registry, groups: Groups)
    ensures IsPartway(registry, groups, groups.Keys - groups.Keys, map[])
  {
  }

  predicate AreSorted(grouped: map<string, seq<Switch>>, groups: Groups) {
    grouped.Keys == groups.Keys && forall g :: g in groups ==> groups[g] == GeneratedRows(Sorted(grouped[g]))
  }

  /** The loop over the groups, in any order. */
  method TakeGroups(registry: Registry, ghost groups: Groups, grouped: map<string, seq<Switch>>)
    returns (targets: map<string, string>)
    requires AreGroups(registry, groups) && AreSorted(grouped, groups)
    ensures AreAllTargets(registry, groups, targets)
  {
    targets := map[];
    var rest := grouped.Keys;
    NothingTaken(registry, groups);
    while rest != {}
      invariant rest <= groups.Keys
      invariant IsPartway(registry, groups, groups.Keys - rest, targets)
      decreases |rest|
    {
      var exact :| exact in rest;
      targets := TakeGroup(registry, groups, groups.Keys - rest, exact, grouped[exact], targets);
      OneLess(groups.Keys, rest, exact);
      rest := rest - {exact};
    }
    AllDone(registry, groups, targets);
  }

  /** `_primary_switch_collision_targets`. */
  method PrimarySwitchCollisionTargets(registry: Registry, switches: seq<Switch>) returns (targets: map<string, string>)
    requires AreRows(registry, switches)
    ensures AreGroups(registry, GroupsOf(switches)) && AreAllTargets(registry, GroupsOf(switches), targets)
  {
    var grouped := GroupRows(switches);
    GroupsAreSound(registry, switches);
    targets := TakeGroups(registry, GroupsOf(switches), grouped);
  }

  // ---------------------------------------------------------------------------
  // What the sort is for
  // ---------------------------------------------------------------------------

  predicate NamedFirst(s: seq<Switch>) {
    forall j, k :: 0 <= j < k < |s| && IsNamed(s[k]) ==> IsNamed(s[j])
  }

  lemma {:induction false} InsertKeepsNamedFirst(x: Switch, s: seq<Switch>)
    requires NamedFirst(s)
    ensures NamedFirst(InsertSwitch(x, s))
  {
    if s != [] && !SortsBefore(x, s[0]) {
      InsertKeepsNamedFirst(x, s[1..]);
      InsertMembers(x, s[1..]);
      var rest := InsertSwitch(x, s[1..]);
      forall k | 0 <= k < |rest| && IsNamed(rest[k])
        ensures IsNamed(s[0])
      {
        assert rest[k] in rest;
        if rest[k] != x {
          var m :| 0 <= m < |s[1..]| && s[1..][m] == rest[k];
          assert s[m + 1] == rest[k];
        }
      }
    }
  }

  lemma {:induction false} SortedNamedFirst(s: seq<Switch>)
    ensures NamedFirst(Sorted(s))
  {
    if s != [] {
      SortedNamedFirst(s[..|s| - 1]);
      InsertKeepsNamedFirst(s[|s| - 1], Sorted(s[..|s| - 1]));
    }
  }

  lemma {:induction false} NamedRowIsFirst(s: seq<Switch>, exact: string, k: nat)
    requires NamedFirst(s) && (forall y :: y in s ==> y.exact == exact) && k < |GeneratedRows(s)|
    requires GeneratedRows(s)[k].entityId == exact
    ensures forall j :: 0 <= j < k ==> GeneratedRows(s)[j].entityId == exact
  {
    if s[0].isGenerated {
      if k > 0 {
        NamedRowIsFirst(s[1..], exact, k - 1);
        GeneratedMembers(s[1..]);
        assert GeneratedRows(s[1..])[k - 1] in GeneratedRows(s[1..]);
        var y :| y in s[1..] && y.row == GeneratedRows(s[1..])[k - 1];
        assert y in s;
        var m :| 0 <= m < |s[1..]| && s[1..][m] == y;
        assert s[m + 1] == y && IsNamed(s[m + 1]) && s[0] in s;
      }
    } else {
      NamedRowIsFirst(s[1..], exact, k);
    }
  }

  lemma NamedRowLeads(switches: seq<Switch>, exact: string, k: nat)
    requires k < |GroupOf(switches, exact)| && GroupOf(switches, exact)[k].entityId == exact
    ensures GroupOf(switches, exact)[0].entityId == exact
  {
    OfNameMembers(switches, exact);
    SortedMembers(OfName(switches, exact));
    SortedNamedFirst(OfName(switches, exact));
    NamedRowIsFirst(Sorted(OfName(switches, exact)), exact, k);
  }

  /** A generated row that stands at its plain name is never moved. */
  lemma NamedRowStays(registry: Registry, switches: seq<Switch>, targets: map<string, string>, exact: string, k: nat)
    requires AreRows(registry, switches) && AreAllTargets(registry, GroupsOf(switches), targets)
    requires exact in Names(switches) && k < |GroupOf(switches, exact)| && GroupOf(switches, exact)[k].entityId == exact
    ensures k == 0 && GroupOf(switches, exact)[k].uniqueId !in targets
  {
    var group := GroupOf(switches, exact);
    GroupIsSound(registry, switches, exact);
    NamedRowLeads(switches, exact, k);
    assert k == 0;
    FirstPlaceIsHeld(registry, exact, group);
    assert exact in GroupsOf(switches) && GroupsOf(switches)[exact] == group;
    OnlyMovedHaveTargets(registry, exact, group, targets, 0);
  }

  lemma OnlyMovedHaveTargets(registry: Registry, exact: string, group: seq<Row>, targets: map<string, string>, k: nat)
    requires DistinctRows(group) && AreTargetsOf(registry, exact, group, targets) && k < |group|
    ensures group[k].uniqueId in targets ==> IsRetargeted(exact, group, Indices(registry, exact, group), k)
  {
    var u, own := group[k].uniqueId, UniqueIds(group);
    assert u in own;
    if u in targets {
      assert u in Restrict(targets, own);
      var m: int :| 0 <= m < |group| && IsRetargeted(exact, group, Indices(registry, exact, group), m)
                    && group[m].uniqueId == u;
    }
  }

  lemma FirstPlaceIsHeld(registry: Registry, exact: string, group: seq<Row>)
    requires group != [] && IsRegistered(registry, group[0]) && group[0].entityId == exact
    ensures !IsRetargeted(exact, group, Indices(registry, exact, group), 0)
  {
    assert group[0].uniqueId in UniqueIds(group);
    assert NextFree(registry, UniqueIds(group), exact, 1) == 1;
  }
}
