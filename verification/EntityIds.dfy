/**
 The numbered-fallback repair of the entity registry (custom_components/smartthings_web/__init__.py):
 rows move in place to the least free `id`, `id_2`, `id_3`, ... while Home Assistant may refuse
 an ID for reasons outside the registry.
 */
module EntityIds {

  /** A state either belongs to a running entity or is a leftover restored as unavailable. */
  datatype StateKind = Live | StaleRestored

  /** The registry as an ID-to-row map, and the IDs refused although no row holds them. */
  datatype Book = Book(rows: map<string, nat>, refused: set<string>)

  /** One row to repair: where it is now, and the ID it should have. */
  datatype Job = Job(entityId: string, canonical: string)

  const INDEX_LIMIT := 1000

  function Decimal(n: nat): string {
    if n < 10 then [['0', '1', '2', '3', '4', '5', '6', '7', '8', '9'][n]] else Decimal(n / 10) + Decimal(n % 10)
  }

  /** The candidates count from one. */
  function Candidate(canonical: string, index: int): string {
    if index < 2 then canonical else canonical + "_" + Decimal(index)
  }

  predicate IsBlocked(b: Book, id: string) { id in b.rows || id in b.refused }

  /** The ID a row ends at: its own, if it comes first, or else the first one free. */
  function TargetFrom(b: Book, job: Job, index: nat): string
    decreases INDEX_LIMIT - index
  {
    if index >= INDEX_LIMIT then job.entityId
    else
      var candidate := Candidate(job.canonical, index);
      if candidate == job.entityId || !IsBlocked(b, candidate) then candidate
      else TargetFrom(b, job, index + 1)
  }

  function Target(b: Book, job: Job): string { TargetFrom(b, job, 1) }

  function Moved(rows: map<string, nat>, from: string, to: string): map<string, nat>
    requires from in rows
  {
    if from == to then rows else (rows - {from})[to := rows[from]]
  }

  function Repaired(b: Book, job: Job): Book {
    if job.entityId in b.rows then b.(rows := Moved(b.rows, job.entityId, Target(b, job))) else b
  }

  function Pass(b: Book, jobs: seq<Job>): Book {
    if jobs == [] then b else Repaired(Pass(b, jobs[..|jobs| - 1]), jobs[|jobs| - 1])
  }

  // ---------------------------------------------------------------------------
  // The shared registry
  // ---------------------------------------------------------------------------

  class EntityRegistry {
    var rows: map<string, nat>
    var states: map<string, StateKind>
    var reservations: set<string>

    ghost function View(): Book
      reads this
    {
      Book(rows, (set id | id in states && states[id] == Live) + reservations)
    }

    /** `async_update_entity`; false stands for its ValueError. */
    method UpdateEntity(current: string, target: string) returns (updated: bool)
      requires current in rows && current != target
      modifies this`rows
      ensures updated <==> target !in old(rows) && target !in states && target !in reservations
      ensures rows == if updated then Moved(old(rows), current, target) else old(rows)
    {
      updated := target !in rows && target !in states && target !in reservations;
      if updated {
        rows := (rows - {current})[target := rows[current]];
      }
    }

    method RemoveStaleRestoredState(entityId: string) returns (removed: bool)
      modifies this`states
      ensures removed <==> entityId !in rows && entityId in old(states) && old(states)[entityId] == StaleRestored
      ensures states == if removed then old(states) - {entityId} else old(states)
      ensures View() == old(View())
    {
      removed := entityId !in rows && entityId in states && states[entityId] == StaleRestored;
      if removed {
        states := states - {entityId};
      }
      assert (set id | id in states && states[id] == Live) == old(set id | id in states && states[id] == Live);
    }

    /** Renames unless something real stands in the way; a leftover state does not. */
    method RenameGenerated(current: string, target: string) returns (renamed: bool)
      requires current in rows && current != target
      modifies this`rows, this`states
      ensures renamed <==> !IsBlocked(old(View()), target)
      ensures View() == old(View()).(rows := if renamed then Moved(old(rows), current, target) else old(rows))
    {
      renamed := UpdateEntity(current, target);
      if !renamed {
        var removed := RemoveStaleRestoredState(target);
        if removed {
          renamed := UpdateEntity(current, target);
        }
      }
    }

    /** The candidates of one row, in order. */
    method RepairRow(job: Job, current: set<string>, reserved: set<string>)
      returns (nowCurrent: set<string>, nowReserved: set<string>)
      requires job.entityId in rows
      requires forall id :: id in reserved ==> IsBlocked(View(), id)
      modifies this`rows, this`states
      ensures View() == Repaired(old(View()), job)
      ensures nowCurrent == var target := Target(old(View()), job);
                            if target == job.entityId then current else current - {job.entityId} + {target}
      ensures forall id :: id in nowReserved ==> IsBlocked(View(), id)
    {
      nowCurrent, nowReserved := current, reserved;
      ghost var before := View();
      for index := 1 to INDEX_LIMIT
        invariant View() == before && nowCurrent == current
        invariant forall id :: id in nowReserved ==> IsBlocked(before, id)
        invariant Target(before, job) == TargetFrom(before, job, index)
      {
        var candidate := Candidate(job.canonical, index);
        if candidate == job.entityId {
          return;
        }
        if candidate in nowReserved || candidate in rows {
          continue;
        }
        var renamed := RenameGenerated(job.entityId, candidate);
        if !renamed {
          nowReserved := nowReserved + {candidate};
          continue;
        }
        nowCurrent := nowCurrent - {job.entityId} + {candidate};
        nowReserved := nowReserved - {job.entityId} + {candidate};
        return;
      }
    }

    /** The repair, over rows in whatever order the sort leaves them. */
    method RepairNumberedFallbackEntityIds(jobs: seq<Job>, current: set<string>, ghost mine: set<nat>)
      returns (nowCurrent: set<string>)
      requires IsWorkList(View(), jobs, mine) && Mirrors(View(), current, mine) && IsInjective(View())
      modifies this`rows, this`states
      ensures View() == Pass(old(View()), jobs)
      ensures Mirrors(View(), nowCurrent, mine)
    {
      nowCurrent := current;
      var reserved := current;
      for i := 0 to |jobs|
        invariant View() == Pass(old(View()), jobs[..i])
        invariant Mirrors(View(), nowCurrent, mine) && IsInjective(View())
        invariant IsWorkList(View(), jobs[i..], mine)
        invariant forall id :: id in reserved ==> IsBlocked(View(), id)
      {
        assert jobs[..i + 1][..i] == jobs[..i];
        assert jobs[i..][0] == jobs[i] && jobs[i..][1..] == jobs[i + 1..];
        RepairKeepsWorkList(View(), jobs[i..], mine);
        RepairKeepsMirror(View(), jobs[i], nowCurrent, mine);
        nowCurrent, reserved := RepairRow(jobs[i], nowCurrent, reserved);
      }
      assert jobs[..|jobs|] == jobs;
    }
  }

  // ---------------------------------------------------------------------------
  // What a repair keeps
  // ---------------------------------------------------------------------------

  /** No row has two IDs. */
  predicate IsInjective(b: Book) {
    forall a, c :: a in b.rows && c in b.rows && b.rows[a] == b.rows[c] ==> a == c
  }

  /** The local set names exactly the IDs held by this entry's rows. */
  ghost predicate Mirrors(b: Book, current: set<string>, mine: set<nat>) {
    forall id :: id in current <==> id in b.rows && b.rows[id] in mine
  }

  /** Jobs name distinct rows of this entry by their present IDs. */
  predicate IsWorkList(b: Book, jobs: seq<Job>, mine: set<nat>) {
    && (forall k :: 0 <= k < |jobs| ==> jobs[k].entityId in b.rows && b.rows[jobs[k].entityId] in mine)
    && (forall j, k :: 0 <= j < k < |jobs| ==> jobs[j].entityId != jobs[k].entityId)
  }

  lemma {:induction false} TargetIsOwnOrFree(b: Book, job: Job, index: nat)
    ensures TargetFrom(b, job, index) == job.entityId || !IsBlocked(b, TargetFrom(b, job, index))
    decreases INDEX_LIMIT - index
  {
    if index < INDEX_LIMIT { TargetIsOwnOrFree(b, job, index + 1); }
  }

  lemma RepairKeepsMirror(b: Book, job: Job, current: set<string>, mine: set<nat>)
    requires job.entityId in b.rows && b.rows[job.entityId] in mine
    requires Mirrors(b, current, mine) && IsInjective(b)
    ensures IsInjective(Repaired(b, job))
    ensures var target := Target(b, job);
            Mirrors(Repaired(b, job), if target == job.entityId then current
                    else current - {job.entityId} + {target}, mine)
  {
    TargetIsOwnOrFree(b, job, 1);
  }

  lemma RepairKeepsWorkList(b: Book, jobs: seq<Job>, mine: set<nat>)
    requires jobs != [] && IsWorkList(b, jobs, mine)
    ensures IsWorkList(Repaired(b, jobs[0]), jobs[1..], mine)
  {
    TargetIsOwnOrFree(b, jobs[0], 1);
    var after := Repaired(b, jobs[0]);
    forall k | 0 <= k < |jobs[1..]|
      ensures jobs[1..][k].entityId in after.rows && after.rows[jobs[1..][k].entityId] in mine
    {
      assert jobs[1..][k] == jobs[k + 1];
    }
  }

  /** The candidates a row passes over: those before the first index at which it stops. */
  predicate PassesOver(b: Book, job: Job, index: int) {
    forall i :: 1 <= i < index ==>
        Candidate(job.canonical, i) != job.entityId && IsBlocked(b, Candidate(job.canonical, i))
  }

  lemma {:induction false} TargetFromIsLeast(b: Book, job: Job, index: nat)
    requires 1 <= index <= INDEX_LIMIT && PassesOver(b, job, index)
    ensures var target := TargetFrom(b, job, index);
            || (exists i :: 1 <= i < INDEX_LIMIT && target == Candidate(job.canonical, i) && PassesOver(b, job, i)
                            && (target == job.entityId || !IsBlocked(b, target)))
            || (target == job.entityId && PassesOver(b, job, INDEX_LIMIT))
    decreases INDEX_LIMIT - index
  {
    if index < INDEX_LIMIT {
      var candidate := Candidate(job.canonical, index);
      if candidate != job.entityId && IsBlocked(b, candidate) {
        TargetFromIsLeast(b, job, index + 1);
      }
    }
  }

  /** A row moves to its least candidate that is neither occupied nor refused, stops at its own
      ID if that comes first, and stays put when all are taken. */
  lemma TargetIsLeastFree(b: Book, job: Job)
    ensures var target := Target(b, job);
            || (exists i :: 1 <= i < 1000 && target == Candidate(job.canonical, i) && PassesOver(b, job, i)
                            && (target == job.entityId || !IsBlocked(b, target)))
            || (target == job.entityId && PassesOver(b, job, 1000))
  {
    TargetFromIsLeast(b, job, 1);
  }

  predicate IsJobOf(jobs: seq<Job>, id: string) { exists k :: 0 <= k < |jobs| && jobs[k].entityId == id }

  /** Over a whole pass: no row is lost, doubled or given a second ID, nothing new is refused,
      and every row outside the list keeps its ID. */
  lemma {:induction false} PassKeepsRegistry(b: Book, jobs: seq<Job>, mine: set<nat>)
    requires IsWorkList(b, jobs, mine) && IsInjective(b)
    ensures var after := Pass(b, jobs);
            && IsInjective(after) && after.refused == b.refused && after.rows.Values == b.rows.Values
            && (forall id :: id in b.rows && !IsJobOf(jobs, id) ==> id in after.rows && after.rows[id] == b.rows[id])
  {
    if jobs != [] {
      var n := |jobs| - 1;
      var pre, job := jobs[..n], jobs[n];
      assert IsWorkList(b, pre, mine);
      PassKeepsRegistry(b, pre, mine);
      assert !IsJobOf(pre, job.entityId);
      var mid := Pass(b, pre);
      TargetIsOwnOrFree(mid, job, 1);
      MovedKeepsValues(mid.rows, job.entityId, Target(mid, job));
      forall id | id in b.rows && !IsJobOf(jobs, id)
        ensures id in Pass(b, jobs).rows && Pass(b, jobs).rows[id] == b.rows[id]
      {
        assert jobs[n].entityId != id;
        assert forall k :: 0 <= k < n ==> jobs[k] == pre[k];
        assert !IsJobOf(pre, id);
      }
      assert forall k :: 0 <= k < n ==> jobs[k] == pre[k];
    }
  }

  lemma MovedKeepsValues(rows: map<string, nat>, from: string, to: string)
    requires from in rows && (to == from || to !in rows)
    ensures Moved(rows, from, to).Values == rows.Values
  {
    var moved := Moved(rows, from, to);
    if from != to {
      assert moved[to] == rows[from];
      forall v | v in rows.Values
        ensures v in moved.Values
      {
        var id :| id in rows && rows[id] == v;
        assert id != from ==> moved[id] == v;
      }
    }
  }

  // ---------------------------------------------------------------------------
  // A second pass
  // ---------------------------------------------------------------------------

  predicate IsSettled(b: Book, job: Job) { Target(b, job) == job.entityId }

  /** The walk of a settled row ends at its own ID, or runs out of candidates. */
  predicate StopsAt(b: Book, job: Job, stop: int) {
    && 1 <= stop <= INDEX_LIMIT && PassesOver(b, job, stop)
    && (stop == INDEX_LIMIT || Candidate(job.canonical, stop) == job.entityId)
  }

  lemma {:induction false} WalkToStop(b: Book, job: Job, stop: int, index: int)
    requires StopsAt(b, job, stop) && 1 <= index <= stop
    ensures TargetFrom(b, job, index) == job.entityId
    decreases stop - index
  {
    if index < stop {
      assert Candidate(job.canonical, index) != job.entityId && IsBlocked(b, Candidate(job.canonical, index));
      WalkToStop(b, job, stop, index + 1);
    }
  }

  /** A row is settled exactly when nothing free comes before its own ID. */
  lemma SettledMeansNothingFree(b: Book, job: Job)
    ensures IsSettled(b, job) <==> exists stop :: StopsAt(b, job, stop)
  {
    TargetIsLeastFree(b, job);
    if IsSettled(b, job) {
      if PassesOver(b, job, INDEX_LIMIT) {
        assert StopsAt(b, job, INDEX_LIMIT);
      } else {
        var i :| 1 <= i < INDEX_LIMIT && job.entityId == Candidate(job.canonical, i) && PassesOver(b, job, i);
        assert StopsAt(b, job, i);
      }
    }
    if stop :| StopsAt(b, job, stop) {
      WalkToStop(b, job, stop, 1);
    }
  }

  /** The job as it stands after its own turn. */
  function Done(b: Book, job: Job): Job { job.(entityId := Target(b, job)) }

  function DoneJobs(b: Book, jobs: seq<Job>): (done: seq<Job>)
    ensures |done| == |jobs|
    ensures forall k :: 0 <= k < |jobs| ==> done[k].canonical == jobs[k].canonical
  {
    if jobs == [] then []
    else
      var pre := jobs[..|jobs| - 1];
      DoneJobs(b, pre) + [Done(Pass(b, pre), jobs[|jobs| - 1])]
  }

  predicate IsCandidateOf(id: string, canonical: string) {
    exists i :: 1 <= i < INDEX_LIMIT && id == Candidate(canonical, i)
  }

  /** No row starts at a candidate of a row with another canonical ID. */
  predicate NoCrossCandidates(jobs: seq<Job>) {
    forall j, k :: 0 <= j < |jobs| && 0 <= k < |jobs| && jobs[j].canonical != jobs[k].canonical
                   ==> !IsCandidateOf(jobs[k].entityId, jobs[j].canonical)
  }

  /** The row that moves last is settled where it arrives. */
  lemma MoverSettles(b: Book, job: Job)
    requires job.entityId in b.rows
    ensures IsSettled(Repaired(b, job), Done(b, job))
  {
    TargetIsLeastFree(b, job);
    TargetIsOwnOrFree(b, job, 1);
    var after, done := Repaired(b, job), Done(b, job);
    if Target(b, job) != job.entityId {
      var i :| 1 <= i < INDEX_LIMIT && Target(b, job) == Candidate(job.canonical, i) && PassesOver(b, job, i);
      assert StopsAt(after, done, i);
      WalkToStop(after, done, i, 1);
    }
  }

  /** Within one canonical ID nobody leaves a place that a settled row passed over, and across
      canonical IDs nobody held one. */
  lemma MoverHeldNoEarlierPlace(b: Book, settled: Job, stop: int, mover: Job)
    requires StopsAt(b, settled, stop) && Target(b, mover) != mover.entityId
    requires settled.canonical == mover.canonical || !IsCandidateOf(mover.entityId, settled.canonical)
    ensures forall i :: 1 <= i < stop ==> Candidate(settled.canonical, i) != mover.entityId
  {
    if settled.canonical == mover.canonical {
      TargetIsLeastFree(b, mover);
      TargetIsOwnOrFree(b, mover, 1);
      var m :| 1 <= m < INDEX_LIMIT && Target(b, mover) == Candidate(mover.canonical, m) && PassesOver(b, mover, m);
      assert m < stop ==> IsBlocked(b, Candidate(settled.canonical, m));
    }
  }

  /** So a move never unsettles a row. */
  lemma MoveKeepsSettled(b: Book, settled: Job, mover: Job)
    requires IsSettled(b, settled) && mover.entityId in b.rows
    requires settled.canonical == mover.canonical || !IsCandidateOf(mover.entityId, settled.canonical)
    ensures IsSettled(Repaired(b, mover), settled)
  {
    if Target(b, mover) != mover.entityId {
      SettledMeansNothingFree(b, settled);
      var stop :| StopsAt(b, settled, stop);
      MoverHeldNoEarlierPlace(b, settled, stop, mover);
      var after := Repaired(b, mover);
      forall i | 1 <= i < stop
        ensures Candidate(settled.canonical, i) != settled.entityId && IsBlocked(after, Candidate(settled.canonical, i))
      {
        assert IsBlocked(b, Candidate(settled.canonical, i));
      }
      assert StopsAt(after, settled, stop);
      WalkToStop(after, settled, stop, 1);
    }
  }

  lemma {:induction false} JobsStayApart(b: Book, jobs: seq<Job>, n: nat, mine: set<nat>)
    requires IsWorkList(b, jobs, mine) && n <= |jobs|
    ensures forall m :: n <= m < |jobs| ==> jobs[m].entityId in Pass(b, jobs[..n]).rows
  {
    if n > 0 {
      JobsStayApart(b, jobs, n - 1, mine);
      assert jobs[..n][..n - 1] == jobs[..n - 1];
      TargetIsOwnOrFree(Pass(b, jobs[..n - 1]), jobs[n - 1], 1);
    }
  }

  predicate AllSettled(b: Book, jobs: seq<Job>) {
    forall k :: 0 <= k < |jobs| ==> IsSettled(b, jobs[k])
  }

  /** No row of another canonical ID starts at a candidate of this one. */
  predicate NobodyCrosses(jobs: seq<Job>, canonical: string) {
    forall k :: 0 <= k < |jobs| && jobs[k].canonical != canonical ==> !IsCandidateOf(jobs[k].entityId, canonical)
  }

  lemma PassStep(b: Book, jobs: seq<Job>, n: nat)
    requires 0 < n <= |jobs|
    ensures Pass(b, jobs[..n]) == Repaired(Pass(b, jobs[..n - 1]), jobs[n - 1])
    ensures DoneJobs(b, jobs[..n]) == DoneJobs(b, jobs[..n - 1]) + [Done(Pass(b, jobs[..n - 1]), jobs[n - 1])]
  {
    assert jobs[..n][..n - 1] == jobs[..n - 1];
  }

  lemma {:induction false} SettlesByTurn(b: Book, jobs: seq<Job>, n: nat, j: nat, mine: set<nat>)
    requires IsWorkList(b, jobs, mine) && j < n <= |jobs| && NobodyCrosses(jobs, jobs[j].canonical)
    ensures IsSettled(Pass(b, jobs[..n]), DoneJobs(b, jobs[..n])[j])
  {
    JobsStayApart(b, jobs, n - 1, mine);
    PassStep(b, jobs, n);
    var mid := Pass(b, jobs[..n - 1]);
    if j == n - 1 {
      MoverSettles(mid, jobs[j]);
    } else {
      SettlesByTurn(b, jobs, n - 1, j, mine);
      MoveKeepsSettled(mid, DoneJobs(b, jobs[..n - 1])[j], jobs[n - 1]);
    }
  }

  /** A row stays settled to the end of the pass if nobody of another canonical ID starts at one
      of its candidates. */
  lemma RowSettles(b: Book, jobs: seq<Job>, j: nat, mine: set<nat>)
    requires IsWorkList(b, jobs, mine) && j < |jobs| && NobodyCrosses(jobs, jobs[j].canonical)
    ensures IsSettled(Pass(b, jobs), DoneJobs(b, jobs)[j])
  {
    SettlesByTurn(b, jobs, |jobs|, j, mine);
    assert jobs[..|jobs|] == jobs;
  }

  lemma {:induction false} SettledPassIsIdle(b: Book, jobs: seq<Job>)
    requires AllSettled(b, jobs)
    ensures Pass(b, jobs) == b
  {
    if jobs != [] { SettledPassIsIdle(b, jobs[..|jobs| - 1]); }
  }

  /** If no row starts at a candidate of a row with another canonical ID, a second pass over the
      same rows, in any order, renames nothing. */
  lemma SecondPassRenamesNothing(b: Book, jobs: seq<Job>, again: seq<Job>, mine: set<nat>)
    requires IsWorkList(b, jobs, mine) && NoCrossCandidates(jobs)
    requires forall k :: 0 <= k < |again| ==> again[k] in DoneJobs(b, jobs)
    ensures Pass(Pass(b, jobs), again) == Pass(b, jobs)
  {
    forall k | 0 <= k < |again|
      ensures IsSettled(Pass(b, jobs), again[k])
    {
      var done := DoneJobs(b, jobs);
      assert again[k] in done;
      var j :| 0 <= j < |done| && done[j] == again[k];
      RowSettles(b, jobs, j, mine);
    }
    SettledPassIsIdle(Pass(b, jobs), again);
  }

  lemma PassOfTwo(b: Book, first: Job, second: Job)
    ensures Pass(b, [first, second]) == Repaired(Repaired(b, first), second)
    ensures DoneJobs(b, [first, second]) == [Done(b, first), Done(Repaired(b, first), second)]
  {
    assert [first, second][..1] == [first] && [first][..0] == [];
    assert Pass(b, [first]) == Repaired(b, first);
    assert DoneJobs(b, [first]) == [Done(b, first)];
  }
}
