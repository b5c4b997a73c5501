/**
 The primary-switch collision targets of one name (custom_components/smartthings_web/__init__.py):
 generated rows share `id`, `id_2`, `id_3`, ... in their sorted order, stepping over foreign rows.

 A place is foreign if a row outside the group holds it.  Each row takes the next place that is not
 foreign, and is given it as a target if it is a row of this entry and does not hold it already.
 Rows of another entry take a place all the same but keep their ID, and rows beyond the last place
 keep theirs too: such a row may stand on an ID that is another row's target.
 */
module SwitchTargets {
  import opened EntityIds

  /** A generated switch row; rows of another config entry take part but are never renamed. */
  datatype Row = Row(entityId: string, uniqueId: string, isCurrent: bool)

  /** Which unique ID holds which entity ID. */
  type Registry = map<string, string>

  function UniqueIds(group: seq<Row>): set<string> { set k | 0 <= k < |group| :: group[k].uniqueId }

  predicate IsForeign(registry: Registry, own: set<string>, id: string) { id in registry && registry[id] !in own }

  /** The next index not held by a foreign row, or the limit. */
  function NextFree(registry: Registry, own: set<string>, exact: string, index: int): (free: int)
    ensures index <= free && (free < INDEX_LIMIT ==> !IsForeign(registry, own, Candidate(exact, free)))
    ensures index <= INDEX_LIMIT ==> free <= INDEX_LIMIT
    ensures forall i :: index <= i < free ==> IsForeign(registry, own, Candidate(exact, i))
    decreases INDEX_LIMIT - index
  {
    if index >= INDEX_LIMIT || !IsForeign(registry, own, Candidate(exact, index)) then index
    else NextFree(registry, own, exact, index + 1)
  }

  /** One index a row, until they run out. */
  function Assigned(registry: Registry, own: set<string>, exact: string, rows: nat, next: int): seq<int>
    decreases rows
  {
    if rows == 0 then []
    else
      var free := NextFree(registry, own, exact, next);
      if free >= INDEX_LIMIT then [] else [free] + Assigned(registry, own, exact, rows - 1, free + 1)
  }

  function Indices(registry: Registry, exact: string, group: seq<Row>): seq<int> {
    Assigned(registry, UniqueIds(group), exact, |group|, 1)
  }

  predicate IsRetargeted(exact: string, group: seq<Row>, indices: seq<int>, k: int)
    requires 0 <= k < |group|
  {
    k < |indices| && group[k].isCurrent && Candidate(exact, indices[k]) != group[k].entityId
  }

  predicate NamesRetargeted(exact: string, group: seq<Row>, indices: seq<int>, targets: map<string, string>) {
    forall k :: 0 <= k < |group| && IsRetargeted(exact, group, indices, k) ==>
      group[k].uniqueId in targets && targets[group[k].uniqueId] == Candidate(exact, indices[k])
  }

  ghost predicate NamesNothingElse(exact: string, group: seq<Row>, indices: seq<int>, targets: map<string, string>) {
    forall u :: u in targets ==>
        exists k :: 0 <= k < |group| && IsRetargeted(exact, group, indices, k) && group[k].uniqueId == u
  }

  /** The targets name exactly the rows of this entry whose place is not the one they hold. */
  ghost predicate AreTargets(exact: string, group: seq<Row>, indices: seq<int>, targets: map<string, string>) {
    NamesRetargeted(exact, group, indices, targets) && NamesNothingElse(exact, group, indices, targets)
  }

  predicate DistinctRows(group: seq<Row>) {
    forall j, k :: 0 <= j < k < |group| ==>
      group[j].uniqueId != group[k].uniqueId && group[j].entityId != group[k].entityId
  }

  /** The inner loop. */
  method FindFree(registry: Registry, own: set<string>, exact: string, nextIndex: int) returns (index: int)
    ensures index == NextFree(registry, own, exact, nextIndex)
  {
    index := nextIndex;
    while index < INDEX_LIMIT && IsForeign(registry, own, Candidate(exact, index))
      invariant nextIndex <= index
      invariant NextFree(registry, own, exact, nextIndex) == NextFree(registry, own, exact, index)
      decreases INDEX_LIMIT - index
    {
      index := index + 1;
    }
  }

  /** The first rows are placed, and the search goes on behind the last place taken. */
  ghost predicate Placed(registry: Registry, exact: string, group: seq<Row>, i: int, nextIndex: int,
                         targets: map<string, string>) {
    var all := Indices(registry, exact, group);
    && 0 <= i <= |group| && i <= |all|
    && all[i..] == Assigned(registry, UniqueIds(group), exact, |group| - i, nextIndex)
    && AreTargets(exact, group[..i], all[..i], targets)
  }

  /** The outer loop over one group. */
  method CollisionTargets(registry: Registry, exact: string, group: seq<Row>) returns (targets: map<string, string>)
    requires DistinctRows(group)
    ensures AreTargets(exact, group, Indices(registry, exact, group), targets)
  {
    targets := map[];
    var own, nextIndex, i, exhausted := UniqueIds(group), 1, 0, false;
    while i < |group| && !exhausted
      invariant 0 <= i <= |group|
      invariant exhausted ==> AreTargets(exact, group, Indices(registry, exact, group), targets)
      invariant !exhausted ==> Placed(registry, exact, group, i, nextIndex, targets)
    {
      exhausted, nextIndex, targets := PlaceRow(registry, own, exact, group, i, nextIndex, targets);
      i := i + 1;
    }
    if !exhausted {
      var all := Indices(registry, exact, group);
      assert group[..i] == group && all[..i] == all;
    }
  }

  /** One turn of the outer loop; running out of places ends it. */
  method PlaceRow(registry: Registry, own: set<string>, exact: string, group: seq<Row>, i: nat, nextIndex: int,
                  before: map<string, string>)
    returns (exhausted: bool, next: int, targets: map<string, string>)
    requires i < |group| && own == UniqueIds(group) && DistinctRows(group)
    requires Placed(registry, exact, group, i, nextIndex, before)
    ensures exhausted ==> AreTargets(exact, group, Indices(registry, exact, group), targets)
    ensures !exhausted ==> Placed(registry, exact, group, i + 1, next, targets)
  {
    ghost var all := Indices(registry, exact, group);
    var index := FindFree(registry, own, exact, nextIndex);
    targets, next, exhausted := before, index + 1, index >= INDEX_LIMIT;
    if exhausted {
      assert all[..i] == all;
      TargetsOfPrefix(exact, group, all, i, before);
    } else {
      AssignedTail(registry, own, exact, |group| - i, nextIndex, all, i);
      if group[i].isCurrent && Candidate(exact, index) != group[i].entityId {
        targets := before[group[i].uniqueId := Candidate(exact, index)];
      }
      TargetsStep(exact, group, all, i, before, targets);
    }
  }

  lemma AssignedTail(registry: Registry, own: set<string>, exact: string, rows: nat, next: int, all: seq<int>, i: nat)
    requires i <= |all| && rows > 0 && all[i..] == Assigned(registry, own, exact, rows, next)
    requires NextFree(registry, own, exact, next) < INDEX_LIMIT
    ensures i < |all| && all[i] == NextFree(registry, own, exact, next)
    ensures all[i + 1..] == Assigned(registry, own, exact, rows - 1, all[i] + 1)
  {
    assert all[i..][0] == all[i] && all[i..][1..] == all[i + 1..];
  }

  lemma TargetsOfPrefix(exact: string, group: seq<Row>, all: seq<int>, i: nat, targets: map<string, string>)
    requires i <= |group| && |all| == i && AreTargets(exact, group[..i], all, targets)
    ensures AreTargets(exact, group, all, targets)
  {
    forall k | 0 <= k < |group| && IsRetargeted(exact, group, all, k)
      ensures group[k].uniqueId in targets && targets[group[k].uniqueId] == Candidate(exact, all[k])
    {
      assert IsRetargeted(exact, group[..i], all, k);
    }
    forall u | u in targets
      ensures exists k :: 0 <= k < |group| && IsRetargeted(exact, group, all, k) && group[k].uniqueId == u
    {
      var k :| 0 <= k < i && IsRetargeted(exact, group[..i], all, k) && group[..i][k].uniqueId == u;
      assert IsRetargeted(exact, group, all, k);
    }
  }

  lemma PrefixesAgree(exact: string, group: seq<Row>, all: seq<int>, i: nat, k: int)
    requires 0 <= k < i < |group| && i < |all|
    ensures group[..i + 1][k] == group[..i][k] && all[..i + 1][k] == all[..i][k]
    ensures IsRetargeted(exact, group[..i + 1], all[..i + 1], k) <==> IsRetargeted(exact, group[..i], all[..i], k)
  {
  }

  lemma NamesStep(exact: string, group: seq<Row>, all: seq<int>, i: nat, before: map<string, string>,
                  targets: map<string, string>)
    requires i < |group| && i < |all| && DistinctRows(group) && NamesRetargeted(exact, group[..i], all[..i], before)
    requires targets == if IsRetargeted(exact, group, all, i) then before[group[i].uniqueId := Candidate(exact, all[i])]
                        else before
    ensures NamesRetargeted(exact, group[..i + 1], all[..i + 1], targets)
  {
    var g, a := group[..i + 1], all[..i + 1];
    forall k | 0 <= k < |g| && IsRetargeted(exact, g, a, k)
      ensures g[k].uniqueId in targets && targets[g[k].uniqueId] == Candidate(exact, a[k])
    {
      if k < i { PrefixesAgree(exact, group, all, i, k); }
    }
  }

  lemma NothingElseStep(exact: string, group: seq<Row>, all: seq<int>, i: nat, before: map<string, string>,
                        targets: map<string, string>)
    requires i < |group| && i < |all| && NamesNothingElse(exact, group[..i], all[..i], before)
    requires targets == if IsRetargeted(exact, group, all, i) then before[group[i].uniqueId := Candidate(exact, all[i])]
                        else before
    ensures NamesNothingElse(exact, group[..i + 1], all[..i + 1], targets)
  {
    var g, a := group[..i + 1], all[..i + 1];
    forall u | u in targets
      ensures exists k :: 0 <= k < |g| && IsRetargeted(exact, g, a, k) && g[k].uniqueId == u
    {
      if u in before {
        var k :| 0 <= k < i && IsRetargeted(exact, group[..i], all[..i], k) && group[..i][k].uniqueId == u;
        PrefixesAgree(exact, group, all, i, k);
      } else {
        assert IsRetargeted(exact, g, a, i) && g[i].uniqueId == u;
      }
    }
  }

  lemma TargetsStep(exact: string, group: seq<Row>, all: seq<int>, i: nat, before: map<string, string>,
                    targets: map<string, string>)
    requires i < |group| && i < |all| && DistinctRows(group) && AreTargets(exact, group[..i], all[..i], before)
    requires targets == if IsRetargeted(exact, group, all, i) then before[group[i].uniqueId := Candidate(exact, all[i])]
                        else before
    ensures AreTargets(exact, group[..i + 1], all[..i + 1], targets)
  {
    NamesStep(exact, group, all, i, before, targets);
    NothingElseStep(exact, group, all, i, before, targets);
  }

  // ---------------------------------------------------------------------------
  // Distinct candidates
  // ---------------------------------------------------------------------------

  function Value(digits: string): int {
    if digits == "" then 0 else 10 * Value(digits[..|digits| - 1]) + (digits[|digits| - 1] as int - '0' as int)
  }

  lemma {:induction false} DecimalHasValue(n: nat)
    ensures Decimal(n) != "" && Value(Decimal(n)) == n
  {
    if n >= 10 {
      DecimalHasValue(n / 10);
      var d := Decimal(n % 10);
      assert Decimal(n)[..|Decimal(n)| - 1] == Decimal(n / 10);
    } else {
      assert Decimal(n)[..0] == "";
    }
  }

  /** No ID is two candidates of one name. */
  lemma CandidatesAreDistinct(exact: string, i: int, j: int)
    requires 1 <= i < j
    ensures Candidate(exact, i) != Candidate(exact, j)
  {
    DecimalHasValue(i);
    DecimalHasValue(j);
    var a, b := Candidate(exact, i), Candidate(exact, j);
    assert b[|exact| + 1..] == Decimal(j);
    if i > 1 {
      assert a[|exact| + 1..] == Decimal(i);
    }
  }

  // ---------------------------------------------------------------------------
  // What the targets promise
  // ---------------------------------------------------------------------------

  predicate IsRising(a: seq<int>) { forall j, k :: 0 <= j < k < |a| ==> a[j] < a[k] }

  predicate AllFree(registry: Registry, own: set<string>, exact: string, a: seq<int>, next: int) {
    forall k :: 0 <= k < |a| ==> next <= a[k] < INDEX_LIMIT && !IsForeign(registry, own, Candidate(exact, a[k]))
  }

  lemma PrependRises(registry: Registry, own: set<string>, exact: string, free: int, rest: seq<int>, next: int)
    requires next <= free < INDEX_LIMIT && !IsForeign(registry, own, Candidate(exact, free))
    requires AllFree(registry, own, exact, rest, free + 1) && IsRising(rest)
    ensures AllFree(registry, own, exact, [free] + rest, next) && IsRising([free] + rest)
  {
    var a := [free] + rest;
    forall k | 0 <= k < |a|
      ensures next <= a[k] < INDEX_LIMIT && !IsForeign(registry, own, Candidate(exact, a[k]))
    {
      if k > 0 { assert a[k] == rest[k - 1]; }
    }
  }

  lemma FirstAssigned(registry: Registry, own: set<string>, exact: string, rows: nat, next: int) returns (free: int)
    requires Assigned(registry, own, exact, rows, next) != []
    ensures rows > 0 && next <= free < INDEX_LIMIT && !IsForeign(registry, own, Candidate(exact, free))
    ensures free == NextFree(registry, own, exact, next)
    ensures Assigned(registry, own, exact, rows, next) == [free] + Assigned(registry, own, exact, rows - 1, free + 1)
  {
    free := NextFree(registry, own, exact, next);
  }

  lemma {:induction false} AssignedRises(registry: Registry, own: set<string>, exact: string, rows: nat, next: int)
    requires 1 <= next
    ensures var a := Assigned(registry, own, exact, rows, next);
            |a| <= rows && AllFree(registry, own, exact, a, next) && IsRising(a)
    decreases rows
  {
    var free := NextFree(registry, own, exact, next);
    if rows > 0 && free < INDEX_LIMIT {
      var rest := Assigned(registry, own, exact, rows - 1, free + 1);
      assert Assigned(registry, own, exact, rows, next) == [free] + rest;
      AssignedRises(registry, own, exact, rows - 1, free + 1);
      PrependRises(registry, own, exact, free, rest, next);
    }
  }

  lemma {:induction false} AssignedSkipsNone(registry: Registry, own: set<string>, exact: string, rows: nat, next: int,
                                             i: int)
    requires next <= i < INDEX_LIMIT && !IsForeign(registry, own, Candidate(exact, i))
    ensures var a := Assigned(registry, own, exact, rows, next);
            i in a || (|a| == rows && forall k :: 0 <= k < rows ==> a[k] < i)
    decreases rows
  {
    if rows > 0 {
      var free := NextFree(registry, own, exact, next);
      assert free <= i;
      if free < i {
        AssignedSkipsNone(registry, own, exact, rows - 1, free + 1, i);
      }
    }
  }

  /** Rows get rising indices, none of them held by a foreign row, and no free one is skipped. */
  lemma IndicesRiseThroughFreePlaces(registry: Registry, exact: string, group: seq<Row>)
    ensures var a, own := Indices(registry, exact, group), UniqueIds(group);
            && |a| <= |group| && AllFree(registry, own, exact, a, 1) && IsRising(a)
            && (forall i :: 1 <= i < 1000 && !IsForeign(registry, own, Candidate(exact, i)) ==>
                  i in a || (|a| == |group| && forall k :: 0 <= k < |group| ==> a[k] < i))
  {
    var own := UniqueIds(group);
    AssignedRises(registry, own, exact, |group|, 1);
    forall i | 1 <= i < INDEX_LIMIT && !IsForeign(registry, own, Candidate(exact, i))
      ensures var a := Assigned(registry, own, exact, |group|, 1);
              i in a || (|a| == |group| && forall k :: 0 <= k < |group| ==> a[k] < i)
    {
      AssignedSkipsNone(registry, own, exact, |group|, 1, i);
    }
  }

  /** Targets are pairwise distinct, and a row holding one belongs to the group. */
  lemma TargetsAreDistinctAndOwn(registry: Registry, exact: string, group: seq<Row>, targets: map<string, string>,
                                 u: string, v: string)
    requires DistinctRows(group) && AreTargets(exact, group, Indices(registry, exact, group), targets)
    requires u in targets && v in targets
    ensures u != v ==> targets[u] != targets[v]
    ensures targets[u] in registry ==> registry[targets[u]] in UniqueIds(group)
  {
    var a := Indices(registry, exact, group);
    IndicesRiseThroughFreePlaces(registry, exact, group);
    var j :| 0 <= j < |group| && IsRetargeted(exact, group, a, j) && group[j].uniqueId == u;
    var k :| 0 <= k < |group| && IsRetargeted(exact, group, a, k) && group[k].uniqueId == v;
    if j < k {
      CandidatesAreDistinct(exact, a[j], a[k]);
    } else if k < j {
      CandidatesAreDistinct(exact, a[k], a[j]);
    }
  }

  /** Where a row stands once every target is taken. */
  function FinalId(row: Row, targets: map<string, string>): string {
    if row.uniqueId in targets then targets[row.uniqueId] else row.entityId
  }

  /** A row of this entry with a place of its own goes there; every other row keeps its ID. */
  predicate Goes(group: seq<Row>, indices: seq<int>, k: int)
    requires 0 <= k < |group|
  {
    k < |indices| && group[k].isCurrent
  }

  lemma FinalIdOfRow(registry: Registry, exact: string, group: seq<Row>, targets: map<string, string>, k: nat)
    requires DistinctRows(group) && AreTargets(exact, group, Indices(registry, exact, group), targets) && k < |group|
    ensures var a := Indices(registry, exact, group);
            FinalId(group[k], targets) == if Goes(group, a, k) then Candidate(exact, a[k]) else group[k].entityId
  {
    var a := Indices(registry, exact, group);
    if group[k].uniqueId in targets {
      var m :| 0 <= m < |group| && IsRetargeted(exact, group, a, m) && group[m].uniqueId == group[k].uniqueId;
      assert m == k;
    }
  }

  predicate AllDistinct(group: seq<Row>, targets: map<string, string>) {
    forall j, k :: 0 <= j < k < |group| ==> FinalId(group[j], targets) != FinalId(group[k], targets)
  }

  predicate HoldsPlaceOf(exact: string, group: seq<Row>, indices: seq<int>, j: int, k: int)
    requires 0 <= j < |group| && 0 <= k < |group|
  {
    !Goes(group, indices, j) && Goes(group, indices, k) && group[j].entityId == Candidate(exact, indices[k])
  }

  predicate SomePlaceHeld(exact: string, group: seq<Row>, indices: seq<int>) {
    exists j, k :: 0 <= j < |group| && 0 <= k < |group| && HoldsPlaceOf(exact, group, indices, j, k)
  }

  lemma TwoRowsCollide(registry: Registry, exact: string, group: seq<Row>, targets: map<string, string>, j: nat, k: nat)
    requires DistinctRows(group) && AreTargets(exact, group, Indices(registry, exact, group), targets)
    requires j < k < |group|
    ensures var a := Indices(registry, exact, group);
            FinalId(group[j], targets) == FinalId(group[k], targets) <==>
            HoldsPlaceOf(exact, group, a, j, k) || HoldsPlaceOf(exact, group, a, k, j)
  {
    var a := Indices(registry, exact, group);
    FinalIdOfRow(registry, exact, group, targets, j);
    FinalIdOfRow(registry, exact, group, targets, k);
    if Goes(group, a, j) && Goes(group, a, k) {
      AssignedRises(registry, UniqueIds(group), exact, |group|, 1);
      CandidatesAreDistinct(exact, a[j], a[k]);
    }
  }

  /** IDs collide only where a row that keeps its ID holds the place of a row that goes. */
  lemma CollisionIsHeldPlace(registry: Registry, exact: string, group: seq<Row>, targets: map<string, string>)
    requires DistinctRows(group) && AreTargets(exact, group, Indices(registry, exact, group), targets)
    ensures AllDistinct(group, targets) <==> !SomePlaceHeld(exact, group, Indices(registry, exact, group))
  {
    if SomePlaceHeld(exact, group, Indices(registry, exact, group)) {
      HeldPlaceCollides(registry, exact, group, targets);
    } else {
      forall j: int, k: int | 0 <= j < k < |group|
        ensures FinalId(group[j], targets) != FinalId(group[k], targets)
      {
        TwoRowsCollide(registry, exact, group, targets, j, k);
      }
    }
  }

  lemma HeldPlaceCollides(registry: Registry, exact: string, group: seq<Row>, targets: map<string, string>)
    requires DistinctRows(group) && AreTargets(exact, group, Indices(registry, exact, group), targets)
    requires SomePlaceHeld(exact, group, Indices(registry, exact, group))
    ensures !AllDistinct(group, targets)
  {
    var a := Indices(registry, exact, group);
    var j: int, k: int :| 0 <= j < |group| && 0 <= k < |group| && HoldsPlaceOf(exact, group, a, j, k);
    if j < k {
      TwoRowsCollide(registry, exact, group, targets, j, k);
    } else {
      TwoRowsCollide(registry, exact, group, targets, k, j);
    }
  }

  // ---------------------------------------------------------------------------
  // The same, said of the input
  // ---------------------------------------------------------------------------

  /** How many candidates with an index in a range are not held by a foreign row. */
  function FreePlaces(registry: Registry, own: set<string>, exact: string, lo: int, hi: int): nat
    decreases hi - lo
  {
    if lo >= hi then 0
    else
      var here := if IsForeign(registry, own, Candidate(exact, lo)) then 0 else 1;
      here + FreePlaces(registry, own, exact, lo + 1, hi)
  }

  lemma {:induction false} ForeignPlacesDoNotCount(registry: Registry, own: set<string>, exact: string, lo: int,
                                                   mid: int, hi: int)
    requires lo <= mid && forall i :: lo <= i < mid ==> IsForeign(registry, own, Candidate(exact, i))
    requires mid <= hi
    ensures FreePlaces(registry, own, exact, lo, hi) == FreePlaces(registry, own, exact, mid, hi)
    decreases mid - lo
  {
    if lo < mid {
      assert IsForeign(registry, own, Candidate(exact, lo));
      ForeignPlacesDoNotCount(registry, own, exact, lo + 1, mid, hi);
    }
  }

  /** A row gets the place that has as many free places before it as there are rows before the row. */
  lemma {:induction false} PlaceOfRow(registry: Registry, own: set<string>, exact: string, rows: nat, next: int, k: nat)
    requires k < |Assigned(registry, own, exact, rows, next)|
    ensures var i := Assigned(registry, own, exact, rows, next)[k];
            next <= i < INDEX_LIMIT && FreePlaces(registry, own, exact, next, i) == k
    decreases rows
  {
    var free := FirstAssigned(registry, own, exact, rows, next);
    if k > 0 { PlaceOfRow(registry, own, exact, rows - 1, free + 1, k - 1); }
    var i := Assigned(registry, own, exact, rows, next)[k];
    ForeignPlacesDoNotCount(registry, own, exact, next, free, i);
  }

  /** A free place goes to the row of its rank, if there is one. */
  lemma {:induction false} RowOfPlace(registry: Registry, own: set<string>, exact: string, rows: nat, next: int, i: int)
    requires next <= i < INDEX_LIMIT && !IsForeign(registry, own, Candidate(exact, i))
    ensures var a, rank := Assigned(registry, own, exact, rows, next), FreePlaces(registry, own, exact, next, i);
            rank < rows ==> rank < |a| && a[rank] == i
    decreases rows
  {
    if rows > 0 {
      var free := NextFree(registry, own, exact, next);
      assert free <= i;
      ForeignPlacesDoNotCount(registry, own, exact, next, free, i);
      if free < i {
        RowOfPlace(registry, own, exact, rows - 1, free + 1, i);
        assert Assigned(registry, own, exact, rows, next)
               == [free] + Assigned(registry, own, exact, rows - 1, free + 1);
      }
    }
  }

  /** Rows run out, or free places do. */
  lemma {:induction false} PlacesTaken(registry: Registry, own: set<string>, exact: string, rows: nat, next: int)
    requires next <= INDEX_LIMIT
    ensures var free := FreePlaces(registry, own, exact, next, INDEX_LIMIT);
            |Assigned(registry, own, exact, rows, next)| == if rows < free then rows else free
    decreases rows
  {
    if rows > 0 {
      var free := NextFree(registry, own, exact, next);
      ForeignPlacesDoNotCount(registry, own, exact, next, free, INDEX_LIMIT);
      if free < INDEX_LIMIT { PlacesTaken(registry, own, exact, rows - 1, free + 1); }
    }
  }

  /** The row is of another entry, or comes after the last free place. */
  predicate IsLeftBehind(registry: Registry, exact: string, group: seq<Row>, j: int)
    requires 0 <= j < |group|
  {
    !group[j].isCurrent || j >= FreePlaces(registry, UniqueIds(group), exact, 1, INDEX_LIMIT)
  }

  /** The row stands on a candidate meant for a row of this entry: the one whose rank in the
      group is the number of free candidates before it. */
  predicate StandsInTheWay(registry: Registry, exact: string, group: seq<Row>, j: int, i: int)
    requires 0 <= j < |group|
  {
    var own := UniqueIds(group);
    var rank := FreePlaces(registry, own, exact, 1, i);
    && group[j].entityId == Candidate(exact, i) && !IsForeign(registry, own, Candidate(exact, i))
    && rank < |group| && group[rank].isCurrent
  }

  predicate SomebodyInTheWay(registry: Registry, exact: string, group: seq<Row>) {
    exists j, i :: 0 <= j < |group| && 1 <= i < INDEX_LIMIT
                   && IsLeftBehind(registry, exact, group, j) && StandsInTheWay(registry, exact, group, j, i)
  }

  lemma LeftBehindStays(registry: Registry, exact: string, group: seq<Row>, j: nat)
    requires j < |group|
    ensures IsLeftBehind(registry, exact, group, j) <==> !Goes(group, Indices(registry, exact, group), j)
  {
    PlacesTaken(registry, UniqueIds(group), exact, |group|, 1);
  }

  lemma HeldPlaceIsInTheWay(registry: Registry, exact: string, group: seq<Row>, j: nat, k: nat)
    requires j < |group| && k < |group| && HoldsPlaceOf(exact, group, Indices(registry, exact, group), j, k)
    ensures SomebodyInTheWay(registry, exact, group)
  {
    var own, a := UniqueIds(group), Indices(registry, exact, group);
    LeftBehindStays(registry, exact, group, j);
    PlaceOfRow(registry, own, exact, |group|, 1, k);
    AssignedRises(registry, own, exact, |group|, 1);
    assert StandsInTheWay(registry, exact, group, j, a[k]);
  }

  lemma InTheWayHoldsPlace(registry: Registry, exact: string, group: seq<Row>, j: nat, i: int)
    requires j < |group| && 1 <= i < INDEX_LIMIT
    requires IsLeftBehind(registry, exact, group, j) && StandsInTheWay(registry, exact, group, j, i)
    ensures SomePlaceHeld(exact, group, Indices(registry, exact, group))
  {
    var own, a := UniqueIds(group), Indices(registry, exact, group);
    LeftBehindStays(registry, exact, group, j);
    RowOfPlace(registry, own, exact, |group|, 1, i);
    assert HoldsPlaceOf(exact, group, a, j, FreePlaces(registry, own, exact, 1, i));
  }

  /** Kept and new IDs of the group are pairwise distinct exactly when no row that is left behind
      stands on a candidate meant for a row of this entry. */
  lemma DistinctExactly(registry: Registry, exact: string, group: seq<Row>, targets: map<string, string>)
    requires DistinctRows(group) && AreTargets(exact, group, Indices(registry, exact, group), targets)
    ensures AllDistinct(group, targets) <==> !SomebodyInTheWay(registry, exact, group)
  {
    var a := Indices(registry, exact, group);
    CollisionIsHeldPlace(registry, exact, group, targets);
    if SomePlaceHeld(exact, group, a) {
      var j: int, k: int :| 0 <= j < |group| && 0 <= k < |group| && HoldsPlaceOf(exact, group, a, j, k);
      HeldPlaceIsInTheWay(registry, exact, group, j, k);
    }
    if SomebodyInTheWay(registry, exact, group) {
      var j: int, i: int :| 0 <= j < |group| && 1 <= i < INDEX_LIMIT
        && IsLeftBehind(registry, exact, group, j) && StandsInTheWay(registry, exact, group, j, i);
      InTheWayHoldsPlace(registry, exact, group, j, i);
    }
  }

  /** In particular if every generated row is of this entry and there are free places for all. */
  lemma OwnRowsAreDistinct(registry: Registry, exact: string, group: seq<Row>, targets: map<string, string>)
    requires DistinctRows(group) && AreTargets(exact, group, Indices(registry, exact, group), targets)
    requires |group| <= FreePlaces(registry, UniqueIds(group), exact, 1, INDEX_LIMIT)
    requires forall j :: 0 <= j < |group| ==> group[j].isCurrent
    ensures AllDistinct(group, targets)
  {
    DistinctExactly(registry, exact, group, targets);
    assert forall j :: 0 <= j < |group| ==> !IsLeftBehind(registry, exact, group, j);
  }

  /** A row of another entry uses up a place but keeps its ID, so a target may be an ID that
      such a row keeps. */
  lemma ForeignEntryRowMayBlockTarget(targets: map<string, string>)
    requires var kept, moved := Row("switch.lamp_2", "a", false), Row("switch.lamp_switch", "b", true);
             AreTargets("switch.lamp", [kept, moved],
                        Indices(map["switch.lamp_2" := "a", "switch.lamp_switch" := "b"], "switch.lamp",
                                [kept, moved]), targets)
    ensures FinalId(Row("switch.lamp_2", "a", false), targets) == "switch.lamp_2"
    ensures FinalId(Row("switch.lamp_switch", "b", true), targets) == "switch.lamp_2"
  {
    var kept, moved := Row("switch.lamp_2", "a", false), Row("switch.lamp_switch", "b", true);
    var registry, group := map["switch.lamp_2" := "a", "switch.lamp_switch" := "b"], [kept, moved];
    assert Decimal(2) == "2" && Candidate("switch.lamp", 1) == "switch.lamp"
           && Candidate("switch.lamp", 2) == "switch.lamp_2";
    var own := UniqueIds(group);
    assert group[0].uniqueId in own && group[1].uniqueId in own;
    assert NextFree(registry, own, "switch.lamp", 1) == 1 && NextFree(registry, own, "switch.lamp", 2) == 2;
    assert Assigned(registry, own, "switch.lamp", 1, 2) == [2];
    assert Indices(registry, "switch.lamp", group) == [1, 2];
    FinalIdOfRow(registry, "switch.lamp", group, targets, 0);
    FinalIdOfRow(registry, "switch.lamp", group, targets, 1);
  }
}
