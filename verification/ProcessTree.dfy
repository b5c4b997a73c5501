/**
 Finding the Bridge and its browsers in a process table (tools/haos-runtime-api-audit-core.ts):
 a walk along parent IDs that stops at the first ID seen twice.

 The table maps an ID to its last record, and nothing is asked of it: parents may be missing, form
 cycles, or name a process whose ID occurs twice.  The walk is compared with reachability over any
 number of parent steps; they differ only where the walk comes back to the ID it started from, and
 the record found there is another one than it started with.
 */
module ProcessTree {
  import opened Wrappers

  datatype Process = Process(id: nat, parent: nat, name: string)
  datatype Selection = Selection(bridge: nat, browsers: seq<nat>)

  type Table = map<nat, Process>

  const BRIDGE_NAMES := {"MainThread", "node"}
  const BROWSER_NAMES := {"chrome", "chromium", "chromium-browse"}

  /** The lookup table; of two records with one ID the later wins. */
  function ById(ps: seq<Process>): Table {
    if ps == [] then map[] else ById(ps[..|ps| - 1])[ps[|ps| - 1].id := ps[|ps| - 1]]
  }

  predicate IsKeyed(byId: Table) { forall id :: id in byId ==> byId[id].id == id }

  lemma {:induction false} ByIdIsKeyed(ps: seq<Process>)
    ensures IsKeyed(ById(ps))
  {
    if ps != [] { ByIdIsKeyed(ps[..|ps| - 1]); }
  }

  predicate DistinctIds(ps: seq<Process>) { forall j, k :: 0 <= j < k < |ps| ==> ps[j].id != ps[k].id }

  lemma {:induction false} ByIdFinds(ps: seq<Process>, k: nat)
    requires DistinctIds(ps) && k < |ps|
    ensures ps[k].id in ById(ps) && ById(ps)[ps[k].id] == ps[k]
  {
    var n := |ps| - 1;
    if k < n { ByIdFinds(ps[..n], k); }
  }

  // ---------------------------------------------------------------------------
  // Walks along parents
  // ---------------------------------------------------------------------------

  /** The record reached after some parent lookups. */
  function Walk(byId: Table, p: Process, steps: nat): Option<Process> {
    if steps == 0 then Some(p)
    else
      match Walk(byId, p, steps - 1)
      case None => None
      case Some(q) => if q.parent in byId then Some(byId[q.parent]) else None
  }

  predicate NamesParent(byId: Table, p: Process, ancestor: nat, steps: nat) {
    Walk(byId, p, steps).Some? && Walk(byId, p, steps).value.parent == ancestor
  }

  /** The ancestor is one or more parent steps away. */
  ghost predicate Reaches(byId: Table, p: Process, ancestor: nat) {
    exists steps: nat :: NamesParent(byId, p, ancestor, steps)
  }

  predicate SameIdAt(byId: Table, p: Process, i: nat, j: nat) {
    Walk(byId, p, i).Some? && Walk(byId, p, j).Some? && Walk(byId, p, i).value.id == Walk(byId, p, j).value.id
  }

  predicate NoRepeat(byId: Table, p: Process, steps: nat) {
    forall i: int, j: int :: 0 <= i < j <= steps ==> !SameIdAt(byId, p, i, j)
  }

  /** The ancestor is reached before any ID comes up a second time. */
  ghost predicate ReachesAtFirst(byId: Table, p: Process, ancestor: nat) {
    exists steps: nat :: NamesParent(byId, p, ancestor, steps) && NoRepeat(byId, p, steps)
  }

  lemma {:induction false} WalkEnds(byId: Table, p: Process, steps: nat, later: nat)
    requires steps <= later && Walk(byId, p, steps) == None
    ensures Walk(byId, p, later) == None
  {
    if steps < later { WalkEnds(byId, p, steps, later - 1); }
  }

  lemma {:induction false} WalksMerge(byId: Table, p: Process, i: nat, j: nat, more: nat)
    requires Walk(byId, p, i) == Walk(byId, p, j)
    ensures Walk(byId, p, i + more) == Walk(byId, p, j + more)
  {
    if more > 0 { WalksMerge(byId, p, i, j, more - 1); }
  }

  /** `isDescendantOf`; it comes to an end on every table, cycles included. */
  method IsDescendantOf(p: Process, ancestor: nat, byId: Table) returns (found: bool)
    requires IsKeyed(byId)
    ensures found <==> ReachesAtFirst(byId, p, ancestor)
  {
    var visited: set<nat> := {};
    var current := Some(p);
    ghost var steps: nat := 0;
    ghost var ids := byId.Keys + {p.id};
    while current.Some? && current.value.id !in visited
      invariant current == Walk(byId, p, steps)
      invariant current.Some? ==> current.value.id in ids
      invariant visited <= ids && WasVisited(byId, p, visited, steps)
      invariant NotYetNamed(byId, p, ancestor, steps) && (steps > 0 ==> NoRepeat(byId, p, steps - 1))
      decreases |ids - visited|
    {
      NothingRepeated(byId, p, visited, steps);
      if current.value.parent == ancestor {
        assert NamesParent(byId, p, ancestor, steps) && NoRepeat(byId, p, steps);
        return true;
      }
      VisitOne(byId, p, visited, steps);
      RemovalShrinks(ids, visited, current.value.id);
      visited := visited + {current.value.id};
      current := if current.value.parent in byId then Some(byId[current.value.parent]) else None;
      steps := steps + 1;
    }
    StopsForGood(byId, p, ancestor, visited, steps);
    return false;
  }

  predicate NotYetNamed(byId: Table, p: Process, ancestor: nat, steps: nat) {
    forall i: int :: 0 <= i < steps ==> !NamesParent(byId, p, ancestor, i)
  }

  lemma RemovalShrinks(ids: set<nat>, visited: set<nat>, id: nat)
    requires id in ids && id !in visited
    ensures |ids - (visited + {id})| < |ids - visited|
  {
    assert id in ids - visited;
    SubsetIsSmaller(ids - (visited + {id}), ids - visited);
  }

  lemma SubsetIsSmaller<T>(a: set<T>, b: set<T>)
    requires a < b
    ensures |a| < |b|
  {
    var x :| x in b && x !in a;
    assert a <= b - {x};
    SubsetIsNoLarger(a, b - {x});
  }

  lemma {:induction false} SubsetIsNoLarger<T>(a: set<T>, b: set<T>)
    requires a <= b
    ensures |a| <= |b|
  {
    if a != {} {
      var x :| x in a;
      SubsetIsNoLarger(a - {x}, b - {x});
    }
  }

  predicate HasIdAt(byId: Table, p: Process, i: nat, id: nat) {
    Walk(byId, p, i).Some? && Walk(byId, p, i).value.id == id
  }

  predicate VisitedAt(byId: Table, p: Process, i: nat, visited: set<nat>) {
    Walk(byId, p, i).Some? && Walk(byId, p, i).value.id in visited
  }

  predicate AllVisited(byId: Table, p: Process, visited: set<nat>, steps: nat) {
    forall i: int :: 0 <= i < steps ==> VisitedAt(byId, p, i, visited)
  }

  predicate OnlyVisited(byId: Table, p: Process, visited: set<nat>, steps: nat) {
    forall id :: id in visited ==> SeenBefore(byId, p, id, steps)
  }

  predicate SeenBefore(byId: Table, p: Process, id: nat, steps: nat) {
    exists i: int :: 0 <= i < steps && HasIdAt(byId, p, i, id)
  }

  /** The visited set holds exactly the IDs of the walk so far. */
  predicate WasVisited(byId: Table, p: Process, visited: set<nat>, steps: nat) {
    AllVisited(byId, p, visited, steps) && OnlyVisited(byId, p, visited, steps)
  }

  lemma VisitOne(byId: Table, p: Process, visited: set<nat>, steps: nat)
    requires WasVisited(byId, p, visited, steps) && Walk(byId, p, steps).Some?
    ensures WasVisited(byId, p, visited + {Walk(byId, p, steps).value.id}, steps + 1)
  {
    var id := Walk(byId, p, steps).value.id;
    VisitOneAll(byId, p, visited, steps, id);
    VisitOneOnly(byId, p, visited, steps, id);
  }

  lemma VisitOneAll(byId: Table, p: Process, visited: set<nat>, steps: nat, id: nat)
    requires AllVisited(byId, p, visited, steps) && HasIdAt(byId, p, steps, id)
    ensures AllVisited(byId, p, visited + {id}, steps + 1)
  {
    forall i: int | 0 <= i < steps + 1
      ensures VisitedAt(byId, p, i, visited + {id})
    {
      if i < steps { assert VisitedAt(byId, p, i, visited); }
    }
  }

  lemma VisitOneOnly(byId: Table, p: Process, visited: set<nat>, steps: nat, id: nat)
    requires OnlyVisited(byId, p, visited, steps) && HasIdAt(byId, p, steps, id)
    ensures OnlyVisited(byId, p, visited + {id}, steps + 1)
  {
    forall x | x in visited + {id}
      ensures SeenBefore(byId, p, x, steps + 1)
    {
      if x in visited {
        assert SeenBefore(byId, p, x, steps);
        var i: int :| 0 <= i < steps && HasIdAt(byId, p, i, x);
      }
    }
  }

  lemma NothingRepeated(byId: Table, p: Process, visited: set<nat>, steps: nat)
    requires WasVisited(byId, p, visited, steps)
    requires Walk(byId, p, steps).Some? && Walk(byId, p, steps).value.id !in visited
    requires steps > 0 ==> NoRepeat(byId, p, steps - 1)
    ensures NoRepeat(byId, p, steps)
  {
    forall i: int, j: int | 0 <= i < j <= steps
      ensures !SameIdAt(byId, p, i, j)
    {
      assert VisitedAt(byId, p, i, visited);
    }
  }

  lemma StopsForGood(byId: Table, p: Process, ancestor: nat, visited: set<nat>, steps: nat)
    requires WasVisited(byId, p, visited, steps)
    requires Walk(byId, p, steps) == None || Walk(byId, p, steps).value.id in visited
    requires NotYetNamed(byId, p, ancestor, steps)
    ensures !ReachesAtFirst(byId, p, ancestor)
  {
    forall m: nat | NamesParent(byId, p, ancestor, m)
      ensures !NoRepeat(byId, p, m)
    {
      assert m >= steps;
      if Walk(byId, p, steps) == None {
        WalkEnds(byId, p, steps, m);
        assert false;
      } else {
        assert SeenBefore(byId, p, Walk(byId, p, steps).value.id, steps);
        var i: int :| 0 <= i < steps && HasIdAt(byId, p, i, Walk(byId, p, steps).value.id);
        assert SameIdAt(byId, p, i, steps);
      }
    }
  }

  // ---------------------------------------------------------------------------
  // The visited set costs nothing when IDs are distinct
  // ---------------------------------------------------------------------------

  predicate IsRegistered(byId: Table, p: Process) { p.id in byId ==> byId[p.id] == p }

  lemma {:induction false} WalkStaysInTable(byId: Table, p: Process, steps: nat)
    requires IsKeyed(byId) && IsRegistered(byId, p) && Walk(byId, p, steps).Some?
    ensures var q := Walk(byId, p, steps).value; q == p || (q.id in byId && byId[q.id] == q)
  {
    if steps > 0 { WalkStaysInTable(byId, p, steps - 1); }
  }

  lemma SameIdSameRecord(byId: Table, p: Process, i: nat, j: nat)
    requires IsKeyed(byId) && IsRegistered(byId, p) && SameIdAt(byId, p, i, j)
    ensures Walk(byId, p, i) == Walk(byId, p, j)
  {
    WalkStaysInTable(byId, p, i);
    WalkStaysInTable(byId, p, j);
  }

  /** A walk that repeats an ID can be shortened. */
  lemma {:induction false} ShortestWalk(byId: Table, p: Process, ancestor: nat, steps: nat)
    requires IsKeyed(byId) && IsRegistered(byId, p) && NamesParent(byId, p, ancestor, steps)
    ensures ReachesAtFirst(byId, p, ancestor)
    decreases steps
  {
    if !NoRepeat(byId, p, steps) {
      var i: int, j: int :| 0 <= i < j <= steps && SameIdAt(byId, p, i, j);
      SameIdSameRecord(byId, p, i, j);
      WalksMerge(byId, p, i, j, steps - j);
      ShortestWalk(byId, p, ancestor, i + (steps - j));
    }
  }

  /** With the record itself in the table, the walk finds exactly the ancestors there are. */
  lemma VisitedWalkIsReachability(byId: Table, p: Process, ancestor: nat)
    requires IsKeyed(byId) && IsRegistered(byId, p)
    ensures ReachesAtFirst(byId, p, ancestor) <==> Reaches(byId, p, ancestor)
  {
    if steps: nat :| NamesParent(byId, p, ancestor, steps) {
      ShortestWalk(byId, p, ancestor, steps);
    }
  }

  // ---------------------------------------------------------------------------
  // What it costs when they are not
  // ---------------------------------------------------------------------------

  ghost predicate Misses(byId: Table, p: Process, ancestor: nat) {
    Reaches(byId, p, ancestor) && !ReachesAtFirst(byId, p, ancestor)
  }

  /** The walk comes back to the ID it started from, for the first time. */
  predicate ComesBackAt(byId: Table, p: Process, m: nat) {
    m > 0 && HasIdAt(byId, p, m, p.id) && forall i: int :: 0 < i < m ==> !HasIdAt(byId, p, i, p.id)
  }

  lemma AfterOneStep(byId: Table, p: Process, steps: nat)
    requires IsKeyed(byId) && steps > 0 && Walk(byId, p, steps).Some?
    ensures var q := Walk(byId, p, steps).value; q.id in byId && byId[q.id] == q
  {
  }

  lemma {:induction false} WalkOn(byId: Table, p: Process, m: nat, more: nat)
    requires Walk(byId, p, m).Some?
    ensures Walk(byId, p, m + more) == Walk(byId, Walk(byId, p, m).value, more)
  {
    if more > 0 { WalkOn(byId, p, m, more - 1); }
  }

  lemma {:induction false} FirstNaming(byId: Table, p: Process, ancestor: nat, steps: nat) returns (n: nat)
    requires NamesParent(byId, p, ancestor, steps)
    ensures n <= steps && NamesParent(byId, p, ancestor, n) && NotYetNamed(byId, p, ancestor, n)
  {
    if i: int :| 0 <= i < steps && NamesParent(byId, p, ancestor, i) {
      n := FirstNaming(byId, p, ancestor, i);
    } else {
      n := steps;
    }
  }

  lemma {:induction false} FirstReturn(byId: Table, p: Process, j: nat) returns (m: nat)
    requires j > 0 && HasIdAt(byId, p, j, p.id)
    ensures m <= j && ComesBackAt(byId, p, m)
  {
    if i: int :| 0 < i < j && HasIdAt(byId, p, i, p.id) {
      m := FirstReturn(byId, p, i);
    } else {
      m := j;
    }
  }

  /** Two records on the way with one parent: what comes after the second came after the first. */
  lemma NamedEarlier(byId: Table, p: Process, ancestor: nat, i: nat, j: nat, n: nat)
    requires i < j <= n && Walk(byId, p, i).Some? && Walk(byId, p, j).Some?
    requires Walk(byId, p, i).value.parent == Walk(byId, p, j).value.parent
    requires NamesParent(byId, p, ancestor, n)
    ensures !NotYetNamed(byId, p, ancestor, n)
  {
    if n > j {
      assert Walk(byId, p, i + 1) == Walk(byId, p, j + 1);
      WalksMerge(byId, p, i + 1, j + 1, n - j - 1);
    }
    assert NamesParent(byId, p, ancestor, i + (n - j));
  }

  /** A first naming that comes too late comes after a return to the start. */
  lemma LateNamingFollowsReturn(byId: Table, p: Process, ancestor: nat, n: nat) returns (m: nat)
    requires IsKeyed(byId) && NamesParent(byId, p, ancestor, n) && NotYetNamed(byId, p, ancestor, n)
    requires !NoRepeat(byId, p, n)
    ensures m <= n && ComesBackAt(byId, p, m)
  {
    var i: int, j: int :| 0 <= i < j <= n && SameIdAt(byId, p, i, j);
    if i > 0 {
      AfterOneStep(byId, p, i);
      AfterOneStep(byId, p, j);
      NamedEarlier(byId, p, ancestor, i, j, n);
    }
    m := FirstReturn(byId, p, j);
  }

  lemma MissedComesAfterReturn(byId: Table, p: Process, ancestor: nat) returns (m: nat, n: nat)
    requires IsKeyed(byId) && Misses(byId, p, ancestor)
    ensures m <= n && ComesBackAt(byId, p, m)
    ensures NamesParent(byId, p, ancestor, n) && NotYetNamed(byId, p, ancestor, n)
  {
    var steps: nat :| NamesParent(byId, p, ancestor, steps);
    n := FirstNaming(byId, p, ancestor, steps);
    m := LateNamingFollowsReturn(byId, p, ancestor, n);
  }

  lemma NamedAfterReturnIsMissed(byId: Table, p: Process, ancestor: nat, m: nat, n: nat)
    requires ComesBackAt(byId, p, m) && NotYetNamed(byId, p, ancestor, m) && NamesParent(byId, p, ancestor, n)
    ensures Misses(byId, p, ancestor)
  {
    forall k: nat | NamesParent(byId, p, ancestor, k)
      ensures !NoRepeat(byId, p, k)
    {
      assert m <= k;
      assert SameIdAt(byId, p, 0, m);
    }
  }

  /** An ancestor is missed exactly if the walk comes back to the ID it started from, has not named
      the ancestor by then, and the record the table holds for that ID has it as an ancestor. */
  lemma MissedExactly(byId: Table, p: Process, ancestor: nat)
    requires IsKeyed(byId)
    ensures Misses(byId, p, ancestor) <==>
            exists m: nat :: ComesBackAt(byId, p, m) && NotYetNamed(byId, p, ancestor, m)
                             && p.id in byId && Reaches(byId, byId[p.id], ancestor)
  {
    if Misses(byId, p, ancestor) {
      var m, n := MissedComesAfterReturn(byId, p, ancestor);
      AfterOneStep(byId, p, m);
      WalkOn(byId, p, m, n - m);
      assert NamesParent(byId, byId[p.id], ancestor, n - m);
    }
    if m: nat :| ComesBackAt(byId, p, m) && NotYetNamed(byId, p, ancestor, m)
                 && p.id in byId && Reaches(byId, byId[p.id], ancestor) {
      var k: nat :| NamesParent(byId, byId[p.id], ancestor, k);
      AfterOneStep(byId, p, m);
      WalkOn(byId, p, m, k);
      NamedAfterReturnIsMissed(byId, p, ancestor, m, m + k);
    }
  }

  /** The record the walk comes back to names a parent that no record before it named. */
  predicate LeadsElsewhere(byId: Table, p: Process, m: nat) {
    ComesBackAt(byId, p, m) && NotYetNamed(byId, p, Walk(byId, p, m).value.parent, m)
  }

  /** Some ancestor is missed exactly if the walk comes back to the ID it started from and the
      record found there names a parent that no record before it named. */
  lemma SomethingMissedExactly(byId: Table, p: Process)
    requires IsKeyed(byId)
    ensures (exists ancestor: nat :: Misses(byId, p, ancestor)) <==> exists m: nat :: LeadsElsewhere(byId, p, m)
  {
    if ancestor: nat :| Misses(byId, p, ancestor) {
      var m, n := MissedComesAfterReturn(byId, p, ancestor);
      var parent := Walk(byId, p, m).value.parent;
      if i: int :| 0 <= i < m && NamesParent(byId, p, parent, i) {
        NamedEarlier(byId, p, ancestor, i, m, n);
      }
      assert LeadsElsewhere(byId, p, m);
    }
    if m: nat :| LeadsElsewhere(byId, p, m) {
      var parent := Walk(byId, p, m).value.parent;
      NamedAfterReturnIsMissed(byId, p, parent, m, m);
    }
  }

  /** Such a table: the walk from the shadowed record comes back to its own ID and stops before
      the record that has the ancestor as its parent. */
  lemma DuplicateIdHidesAncestor()
    ensures var p, ps :=
            Process(1, 2, "chrome"), [Process(1, 2, "chrome"), Process(2, 1, "sh"), Process(1, 3, "chrome")];
            && Reaches(ById(ps), p, 3) && !ReachesAtFirst(ById(ps), p, 3)
  {
    var p, q, shadow := Process(1, 2, "chrome"), Process(2, 1, "sh"), Process(1, 3, "chrome");
    var ps := [p, q, shadow];
    var byId := ById(ps);
    assert ps[..2] == [p, q] && [p, q][..1] == [p] && [p][..0] == [];
    assert ById([p]) == map[1 := p];
    assert ById([p, q]) == map[1 := p, 2 := q];
    assert byId == map[1 := shadow, 2 := q];
    assert Walk(byId, p, 1) == Some(q);
    assert Walk(byId, p, 2) == Some(shadow);
    assert NamesParent(byId, p, 3, 2);
    assert SameIdAt(byId, p, 0, 2);
    forall m: nat | NamesParent(byId, p, 3, m)
      ensures !NoRepeat(byId, p, m)
    {
      assert m != 0 && m != 1;
    }
  }

  // ---------------------------------------------------------------------------
  // The selection
  // ---------------------------------------------------------------------------

  predicate IsBrowser(p: Process) { p.name in BROWSER_NAMES }

  /** A browser process found below an ID. */
  ghost predicate IsBrowserBelow(ps: seq<Process>, k: int, id: nat)
    requires 0 <= k < |ps|
  {
    IsBrowser(ps[k]) && ReachesAtFirst(ById(ps), ps[k], id)
  }

  ghost predicate HasBrowserBelow(ps: seq<Process>, id: nat) {
    exists k :: 0 <= k < |ps| && IsBrowserBelow(ps, k, id)
  }

  ghost predicate IsCandidate(ps: seq<Process>, k: int)
    requires 0 <= k < |ps|
  {
    ps[k].name in BRIDGE_NAMES && HasBrowserBelow(ps, ps[k].id)
  }

  predicate Ascending(s: seq<nat>) { |s| < 2 || (s[0] <= s[1] && Ascending(s[1..])) }

  function InsertId(x: nat, s: seq<nat>): (r: seq<nat>)
    ensures multiset(r) == multiset(s) + multiset{x}
  {
    if s == [] || x <= s[0] then [x] + s
    else
      assert s == [s[0]] + s[1..];
      [s[0]] + InsertId(x, s[1..])
  }

  lemma {:induction false} InsertAscends(x: nat, s: seq<nat>)
    requires Ascending(s)
    ensures Ascending(InsertId(x, s)) && InsertId(x, s)[0] == if s == [] || x <= s[0] then x else s[0]
  {
    if s != [] && x > s[0] {
      InsertAscends(x, s[1..]);
      assert InsertId(x, s)[1..] == InsertId(x, s[1..]);
    } else {
      assert InsertId(x, s)[1..] == s;
    }
  }

  /** The IDs of the first processes that are browsers below `id`, counted as often as they occur. */
  ghost function BrowsersBelow(ps: seq<Process>, id: nat, n: nat): multiset<nat>
    requires n <= |ps|
  {
    if n == 0 then multiset{}
    else BrowsersBelow(ps, id, n - 1) + if IsBrowserBelow(ps, n - 1, id) then multiset{ps[n - 1].id} else multiset{}
  }

  lemma {:induction false} BrowsersBelowAreThose(ps: seq<Process>, id: nat, n: nat, x: nat)
    requires n <= |ps|
    ensures x in BrowsersBelow(ps, id, n) <==> exists k :: 0 <= k < n && IsBrowserBelow(ps, k, id) && ps[k].id == x
  {
    if n > 0 { BrowsersBelowAreThose(ps, id, n - 1, x); }
  }

  lemma NoneBelow(ps: seq<Process>, id: nat)
    ensures BrowsersBelow(ps, id, |ps|) == multiset{} <==> !HasBrowserBelow(ps, id)
  {
    if k :| 0 <= k < |ps| && IsBrowserBelow(ps, k, id) {
      BrowsersBelowAreThose(ps, id, |ps|, ps[k].id);
    } else {
      forall x: nat
        ensures x !in BrowsersBelow(ps, id, |ps|)
      {
        BrowsersBelowAreThose(ps, id, |ps|, x);
      }
    }
  }

  /** The filter for browsers below one process, sorted by ID. */
  method CollectBrowsers(ps: seq<Process>, id: nat, byId: Table) returns (browsers: seq<nat>)
    requires byId == ById(ps) && IsKeyed(byId)
    ensures Ascending(browsers) && multiset(browsers) == BrowsersBelow(ps, id, |ps|)
    ensures browsers == [] <==> !HasBrowserBelow(ps, id)
  {
    browsers := [];
    for k := 0 to |ps|
      invariant Ascending(browsers) && multiset(browsers) == BrowsersBelow(ps, id, k)
    {
      if IsBrowser(ps[k]) {
        var below := IsDescendantOf(ps[k], id, byId);
        if below {
          InsertAscends(ps[k].id, browsers);
          browsers := InsertId(ps[k].id, browsers);
        }
      }
    }
    NoneBelow(ps, id);
    assert browsers != [] ==> browsers[0] in multiset(browsers);
  }

  /** The filter for bridge-named processes with a browser below them. */
  method CollectCandidates(ps: seq<Process>, byId: Table) returns (candidates: seq<nat>)
    requires byId == ById(ps) && IsKeyed(byId)
    ensures forall i :: 0 <= i < |candidates| ==> candidates[i] < |ps| && IsCandidate(ps, candidates[i])
    ensures forall i, j :: 0 <= i < j < |candidates| ==> candidates[i] != candidates[j]
    ensures forall i :: 0 <= i < |ps| && IsCandidate(ps, i) ==> i in candidates
  {
    candidates := [];
    for k := 0 to |ps|
      invariant forall i :: 0 <= i < |candidates| ==> candidates[i] < k && IsCandidate(ps, candidates[i])
      invariant forall i, j :: 0 <= i < j < |candidates| ==> candidates[i] != candidates[j]
      invariant forall i :: 0 <= i < k && IsCandidate(ps, i) ==> i in candidates
    {
      if ps[k].name in BRIDGE_NAMES {
        var browsers := CollectBrowsers(ps, ps[k].id, byId);
        if browsers != [] {
          candidates := candidates + [k];
        }
      }
    }
  }

  /** `selectRuntimeProcesses`. */
  method SelectRuntimeProcesses(ps: seq<Process>) returns (r: Option<Selection>)
    ensures r.Some? <==> exists k :: 0 <= k < |ps| && IsOnlyCandidate(ps, k)
    ensures r.Some? ==> exists k :: 0 <= k < |ps| && IsOnlyCandidate(ps, k) && r.value.bridge == ps[k].id
    ensures r.Some? ==> r.value.browsers != [] && Ascending(r.value.browsers)
                        && multiset(r.value.browsers) == BrowsersBelow(ps, r.value.bridge, |ps|)
  {
    var byId := ById(ps);
    ByIdIsKeyed(ps);
    var candidates := CollectCandidates(ps, byId);
    if |candidates| != 1 {
      if |candidates| > 1 {
        assert candidates[0] != candidates[1];
      }
      return None;
    }
    var bridge := candidates[0];
    assert IsOnlyCandidate(ps, bridge);
    var browsers := CollectBrowsers(ps, ps[bridge].id, byId);
    r := Some(Selection(ps[bridge].id, browsers));
  }

  ghost predicate IsOnlyCandidate(ps: seq<Process>, k: int)
    requires 0 <= k < |ps|
  {
    IsCandidate(ps, k) && forall j :: 0 <= j < |ps| && IsCandidate(ps, j) ==> j == k
  }

  /** With distinct IDs a candidate is a bridge-named process that some browser has as an ancestor. */
  lemma CandidatesByReachability(ps: seq<Process>, k: nat)
    requires DistinctIds(ps) && k < |ps|
    ensures IsCandidate(ps, k) <==>
            ps[k].name in BRIDGE_NAMES
            && exists b :: 0 <= b < |ps| && IsBrowser(ps[b]) && Reaches(ById(ps), ps[b], ps[k].id)
  {
    BrowsersByReachability(ps, ps[k].id);
  }

  /** And the browsers listed are those that have it as an ancestor. */
  lemma BrowsersByReachability(ps: seq<Process>, id: nat)
    requires DistinctIds(ps)
    ensures forall b :: 0 <= b < |ps| ==>
              (IsBrowserBelow(ps, b, id) <==> IsBrowser(ps[b]) && Reaches(ById(ps), ps[b], id))
    ensures forall x :: x in BrowsersBelow(ps, id, |ps|) <==>
              exists b :: 0 <= b < |ps| && IsBrowserBelow(ps, b, id) && ps[b].id == x
  {
    ByIdIsKeyed(ps);
    forall b | 0 <= b < |ps|
      ensures IsBrowserBelow(ps, b, id) <==> IsBrowser(ps[b]) && Reaches(ById(ps), ps[b], id)
    {
      ByIdFinds(ps, b);
      VisitedWalkIsReachability(ById(ps), ps[b], id);
    }
    forall x: nat
      ensures x in BrowsersBelow(ps, id, |ps|) <==>
              exists b :: 0 <= b < |ps| && IsBrowserBelow(ps, b, id) && ps[b].id == x
    {
      BrowsersBelowAreThose(ps, id, |ps|, x);
    }
  }
}
