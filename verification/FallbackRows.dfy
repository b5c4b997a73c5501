/**
 Which rows the numbered-fallback repair is given (custom_components/smartthings_web/__init__.py,
 `_stale_fallback_generated_entity_id`), and when a second repair finds anything left to do.

 A row's `fallback` is the slug of "SmartThings device <id>" for its device, empty without one;
 `canonicalObject` is the object ID its current name calls for, empty if there is none.
 */
module FallbackRows {
  import opened Wrappers
  import opened EntityIds

  datatype Row = Row(entityId: string, fallback: string, canonicalObject: string)

  const PREFIX := "smartthings_device"

  /** A slug of "SmartThings device <id>", possibly with more behind it. */
  predicate IsFallbackObject(name: string) { name == PREFIX || PREFIX + "_" <= name }

  predicate Extends(name: string, stem: string) { name == stem || stem + "_" <= name }

  /** The part before the first dot. */
  function Domain(id: string): string {
    if id == "" || id[0] == '.' then "" else [id[0]] + Domain(id[1..])
  }

  function Join(domain: string, name: string): string { domain + "." + name }

  lemma {:induction false} DomainOfJoin(domain: string, name: string)
    requires '.' !in domain
    ensures Domain(Join(domain, name)) == domain
  {
    var id := Join(domain, name);
    if domain != "" {
      assert id[1..] == Join(domain[1..], name);
      DomainOfJoin(domain[1..], name);
    }
  }

  lemma {:induction false} DomainHasNoDot(id: string)
    ensures '.' !in Domain(id) && Domain(id) <= id
    ensures '.' in id ==> |Domain(id)| < |id| && id[|Domain(id)|] == '.'
  {
    if id != "" && id[0] != '.' {
      DomainHasNoDot(id[1..]);
      assert id == [id[0]] + id[1..];
    }
  }

  /** What follows the first dot; only asked of IDs that have one. */
  function ObjectId(id: string): string
    requires '.' in id
  {
    DomainHasNoDot(id);
    id[|Domain(id)| + 1..]
  }

  lemma ObjectOfJoin(domain: string, name: string)
    requires '.' !in domain
    ensures ObjectId(Join(domain, name)) == name
  {
    DomainOfJoin(domain, name);
  }

  /** The canonical ID a row is listed with, or None if it is not listed. */
  function FallbackTarget(r: Row): Option<string> {
    if r.fallback == "" || '.' !in r.entityId then None
    else if !Extends(ObjectId(r.entityId), r.fallback) then None
    else if r.canonicalObject == "" || r.canonicalObject == ObjectId(r.entityId) then None
    else Some(Join(Domain(r.entityId), r.canonicalObject))
  }

  /** A row is listed exactly if the object part of its ID is the fallback of its device, or the
      fallback with more behind an underscore, and its name calls for another object ID; it is
      listed with that in the same domain. */
  lemma ListedExactly(r: Row, domain: string, name: string)
    requires r.entityId == domain + "." + name && '.' !in domain
    ensures FallbackTarget(r).Some? <==>
            && r.fallback != "" && r.canonicalObject != "" && r.canonicalObject != name
            && (name == r.fallback || exists rest :: name == r.fallback + "_" + rest)
    ensures FallbackTarget(r).Some? ==> FallbackTarget(r).value == domain + "." + r.canonicalObject
  {
    assert r.entityId == Join(domain, name);
    ObjectOfJoin(domain, name);
    DomainOfJoin(domain, name);
    MoreBehind(name, r.fallback);
  }

  lemma UndottedIsNotListed(r: Row)
    requires '.' !in r.entityId
    ensures FallbackTarget(r) == None
  {
  }

  lemma MoreBehind(name: string, stem: string)
    ensures Extends(name, stem) <==> name == stem || exists rest :: name == stem + "_" + rest
  {
    if stem + "_" <= name { assert name == stem + "_" + name[|stem| + 1..]; }
    if rest :| name == stem + "_" + rest { assert stem + "_" <= name; }
  }

  /** Rows the repair is given. */
  predicate AreListed(rows: seq<Row>) {
    forall k :: 0 <= k < |rows| ==> IsFallbackObject(rows[k].fallback) && FallbackTarget(rows[k]).Some?
  }

  function JobsOf(rows: seq<Row>): (jobs: seq<Job>)
    requires AreListed(rows)
    ensures |jobs| == |rows|
  {
    seq(|rows|, k requires 0 <= k < |rows| => Job(rows[k].entityId, FallbackTarget(rows[k]).value))
  }

  /** A row as the next migration finds it. */
  function RowAfter(b: Book, rows: seq<Row>, j: nat): Row
    requires AreListed(rows) && j < |rows|
  {
    rows[j].(entityId := DoneJobs(b, JobsOf(rows))[j].entityId)
  }

  // ---------------------------------------------------------------------------
  // Candidates keep the domain, and never become fallbacks
  // ---------------------------------------------------------------------------

  lemma CandidateOfJoin(domain: string, name: string, i: int)
    ensures Candidate(Join(domain, name), i) == Join(domain, Candidate(name, i))
  {
    if i >= 2 {
      assert domain + "." + name + "_" + Decimal(i) == domain + "." + (name + "_" + Decimal(i));
    }
  }

  lemma {:induction false} DecimalIsDigits(n: nat)
    ensures Decimal(n) != "" && forall k :: 0 <= k < |Decimal(n)| ==> '0' <= Decimal(n)[k] <= '9'
  {
    if n >= 10 {
      DecimalIsDigits(n / 10);
      DecimalIsDigits(n % 10);
    }
  }

  const STEM := PREFIX + "_"

  lemma UnderscoresOfStem()
    ensures |PREFIX| == 18 && PREFIX[17] == 'e' && STEM[12] == 'd' && STEM[11] == '_'
    ensures forall k :: 0 <= k < 18 && k != 11 ==> STEM[k] != '_'
  {
  }

  /** No number can stand for the rest of a fallback. */
  lemma NumberIsNoFallback(name: string, digits: string)
    requires |name| < |PREFIX| && digits != "" && forall k :: 0 <= k < |digits| ==> '0' <= digits[k] <= '9'
    ensures !IsFallbackObject(name + "_" + digits)
  {
    var whole, n := name + "_" + digits, |name|;
    UnderscoresOfStem();
    assert whole[n] == '_' && whole[n + 1] == digits[0] && whole[|whole| - 1] == digits[|digits| - 1];
    if |whole| >= |STEM| {
      assert whole[..|STEM|][n] == whole[n] && whole[..|STEM|][n + 1] == whole[n + 1];
    }
  }

  /** A numbered name is a fallback only if the name is one. */
  lemma NumberedFallback(name: string, i: int)
    requires IsFallbackObject(Candidate(name, i))
    ensures IsFallbackObject(name)
  {
    if i >= 2 {
      DecimalIsDigits(i);
      if |name| < |PREFIX| {
        NumberIsNoFallback(name, Decimal(i));
      } else {
        LongNameKeepsStem(name, Decimal(i));
      }
    }
  }

  lemma LongNameKeepsStem(name: string, digits: string)
    requires |name| >= |PREFIX| && digits != "" && IsFallbackObject(name + "_" + digits)
    ensures IsFallbackObject(name)
  {
    var whole := name + "_" + digits;
    assert |whole| > |STEM| && whole[..|STEM|] == STEM;
    assert whole[..|name|] == name;
    if |name| == |PREFIX| {
      assert name == STEM[..|PREFIX|] == PREFIX;
    } else {
      assert name[..|STEM|] == whole[..|STEM|];
    }
  }

  lemma ListedFacts(r: Row)
    requires IsFallbackObject(r.fallback) && FallbackTarget(r).Some?
    ensures '.' in r.entityId && IsFallbackObject(ObjectId(r.entityId)) && '.' !in Domain(r.entityId)
    ensures r.entityId == Join(Domain(r.entityId), ObjectId(r.entityId))
  {
    DomainHasNoDot(r.entityId);
  }

  /** The start of a listed row is no candidate of a name that is not itself a fallback. */
  lemma FallbackIsNoCandidate(r: Row, domain: string, name: string)
    requires IsFallbackObject(r.fallback) && FallbackTarget(r).Some? && '.' !in domain && !IsFallbackObject(name)
    ensures !IsCandidateOf(r.entityId, Join(domain, name))
  {
    if IsCandidateOf(r.entityId, Join(domain, name)) {
      var i :| 1 <= i < INDEX_LIMIT && r.entityId == Candidate(Join(domain, name), i);
      CandidateOfJoin(domain, name, i);
      ObjectOfJoin(domain, Candidate(name, i));
      ListedFacts(r);
      NumberedFallback(name, i);
    }
  }

  lemma NobodyCrossesPlainName(rows: seq<Row>, j: nat)
    requires AreListed(rows) && j < |rows| && !IsFallbackObject(rows[j].canonicalObject)
    ensures NobodyCrosses(JobsOf(rows), JobsOf(rows)[j].canonical)
  {
    ListedFacts(rows[j]);
    forall k | 0 <= k < |rows|
      ensures !IsCandidateOf(JobsOf(rows)[k].entityId, JobsOf(rows)[j].canonical)
    {
      FallbackIsNoCandidate(rows[k], Domain(rows[j].entityId), rows[j].canonicalObject);
    }
  }

  // ---------------------------------------------------------------------------
  // The second repair
  // ---------------------------------------------------------------------------

  lemma {:induction false} DoneTarget(b: Book, jobs: seq<Job>, j: nat)
    requires j < |jobs|
    ensures DoneJobs(b, jobs)[j] == Done(Pass(b, jobs[..j]), jobs[j])
  {
    var n := |jobs| - 1;
    assert jobs[..|jobs|] == jobs;
    PassStep(b, jobs, |jobs|);
    if j < n {
      DoneTarget(b, jobs[..n], j);
      assert jobs[..n][..j] == jobs[..j];
    }
  }

  /** A row that is listed again is listed with the canonical ID it had. */
  lemma RelistedAlike(b: Book, rows: seq<Row>, j: nat)
    requires AreListed(rows) && j < |rows| && FallbackTarget(RowAfter(b, rows, j)).Some?
    ensures Job(RowAfter(b, rows, j).entityId, FallbackTarget(RowAfter(b, rows, j)).value)
            == DoneJobs(b, JobsOf(rows))[j]
  {
    var jobs, before := JobsOf(rows), Pass(b, JobsOf(rows)[..j]);
    DoneTarget(b, jobs, j);
    ListedFacts(rows[j]);
    TargetIsLeastFree(before, jobs[j]);
    var domain, target := Domain(rows[j].entityId), Target(before, jobs[j]);
    if target != rows[j].entityId {
      var i :| 1 <= i < INDEX_LIMIT && target == Candidate(jobs[j].canonical, i);
      CandidateOfJoin(domain, rows[j].canonicalObject, i);
      DomainOfJoin(domain, Candidate(rows[j].canonicalObject, i));
    }
  }

  /** What the next migration lists are some of these rows, as it finds them. */
  predicate AreRelisted(b: Book, rows: seq<Row>, again: seq<Job>)
    requires AreListed(rows)
  {
    forall k :: 0 <= k < |again| ==> exists j: nat :: j < |rows| && IsRelisted(b, rows, j, again[k])
  }

  predicate IsRelisted(b: Book, rows: seq<Row>, j: nat, job: Job)
    requires AreListed(rows) && j < |rows|
  {
    var r := RowAfter(b, rows, j);
    FallbackTarget(r).Some? && job == Job(r.entityId, FallbackTarget(r).value)
  }

  /** If no name calls for an object ID that looks like a fallback, no row starts at a candidate
      of another, and the repair of the next migration renames nothing. */
  lemma SecondRepairRenamesNothing(b: Book, rows: seq<Row>, again: seq<Job>, mine: set<nat>)
    requires AreListed(rows) && IsWorkList(b, JobsOf(rows), mine) && AreRelisted(b, rows, again)
    requires forall k :: 0 <= k < |rows| ==> !IsFallbackObject(rows[k].canonicalObject)
    ensures NoCrossCandidates(JobsOf(rows))
    ensures Pass(Pass(b, JobsOf(rows)), again) == Pass(b, JobsOf(rows))
  {
    var jobs := JobsOf(rows);
    forall j | 0 <= j < |jobs|
      ensures NobodyCrosses(jobs, jobs[j].canonical)
    {
      NobodyCrossesPlainName(rows, j);
    }
    forall k | 0 <= k < |again|
      ensures again[k] in DoneJobs(b, jobs)
    {
      var j: nat :| j < |rows| && IsRelisted(b, rows, j, again[k]);
      RelistedAlike(b, rows, j);
    }
    SecondPassRenamesNothing(b, jobs, again, mine);
  }

  /** Python's order on strings. */
  predicate Before(a: string, b: string) {
    if a == "" || b == "" then a == "" && b != "" else a[0] < b[0] || (a[0] == b[0] && Before(a[1..], b[1..]))
  }

  /** The repair leaves a row at an ID at which the next migration lists it again and renames it. */
  predicate IsRenamedAgain(b: Book, rows: seq<Row>, j: nat)
    requires AreListed(rows) && j < |rows|
  {
    var after := Pass(b, JobsOf(rows));
    FallbackTarget(RowAfter(b, rows, j)).Some? && Repaired(after, DoneJobs(b, JobsOf(rows))[j]) != after
  }

  predicate InSortOrder(jobs: seq<Job>) {
    forall k :: 0 < k < |jobs| ==> !Before(CanonicalAt(jobs, k), CanonicalAt(jobs, k - 1))
  }

  function CanonicalAt(jobs: seq<Job>, k: int): string
    requires 0 <= k < |jobs|
  {
    jobs[k].canonical
  }

  ghost predicate MayBeRenamedAgain(domain: string, name: string) {
    exists b: Book, rows: seq<Row>, j: nat, mine: set<nat> ::
      WitnessesRenaming(b, rows, j, mine, domain, name)
  }

  predicate WitnessesRenaming(b: Book, rows: seq<Row>, j: nat, mine: set<nat>, domain: string, name: string) {
    && AreListed(rows) && j < |rows| && IsWorkList(b, JobsOf(rows), mine) && IsInjective(b) && InSortOrder(JobsOf(rows))
    && rows[j].canonicalObject == name && Domain(rows[j].entityId) == domain && IsRenamedAgain(b, rows, j)
  }

  // A device whose name is its own fallback, kept out of its second place by a stray row.

  function NamesakeRow(domain: string, name: string): Row { Row(Join(domain, name + "_old"), name, name) }
  function StrayRow(domain: string, name: string): Row { Row(Join(domain, name + "_2"), name + "_2", "tv") }

  function BookBefore(domain: string, name: string): Book {
    Book(map[Join(domain, name) := 1, Join(domain, name + "_old") := 2, Join(domain, name + "_2") := 3], {})
  }

  function BookBetween(domain: string, name: string): Book {
    Book(map[Join(domain, name) := 1, Join(domain, name + "_3") := 2, Join(domain, name + "_2") := 3], {})
  }

  function BookAfter(domain: string, name: string): Book {
    Book(map[Join(domain, name) := 1, Join(domain, name + "_3") := 2, Join(domain, "tv") := 3], {})
  }

  lemma JoinIsInjective(domain: string, a: string, b: string)
    ensures Join(domain, a) == Join(domain, b) <==> a == b
  {
    assert Join(domain, a)[|domain| + 1..] == a && Join(domain, b)[|domain| + 1..] == b;
  }

  lemma NamesApart(domain: string, name: string)
    requires IsFallbackObject(name)
    ensures var o, x, two, three, tv := Join(domain, name), Join(domain, name + "_old"), Join(domain, name + "_2"),
              Join(domain, name + "_3"), Join(domain, "tv");
            o != x && o != two && o != three && o != tv && x != two && x != three && x != tv && two != three
            && two != tv && three != tv
  {
    assert |name| >= |PREFIX|;
    JoinIsInjective(domain, name, name + "_old");
    JoinIsInjective(domain, name, name + "_2");
    JoinIsInjective(domain, name, name + "_3");
    JoinIsInjective(domain, name, "tv");
    JoinIsInjective(domain, name + "_old", name + "_2");
    JoinIsInjective(domain, name + "_old", name + "_3");
    JoinIsInjective(domain, name + "_old", "tv");
    JoinIsInjective(domain, name + "_2", name + "_3");
    JoinIsInjective(domain, name + "_2", "tv");
    JoinIsInjective(domain, name + "_3", "tv");
    assert (name + "_2")[|name| + 1] == '2' && (name + "_3")[|name| + 1] == '3';
  }

  lemma NamesakeCandidates(domain: string, name: string)
    ensures Candidate(Join(domain, name), 1) == Join(domain, name)
    ensures Candidate(Join(domain, name), 2) == Join(domain, name + "_2")
    ensures Candidate(Join(domain, name), 3) == Join(domain, name + "_3")
  {
    CandidateOfJoin(domain, name, 2);
    CandidateOfJoin(domain, name, 3);
    assert Decimal(2) == "2" && Decimal(3) == "3";
  }

  lemma NamesakeMoves(domain: string, name: string)
    requires IsFallbackObject(name)
    ensures var b, job := BookBefore(domain, name), Job(Join(domain, name + "_old"), Join(domain, name));
            Target(b, job) == Join(domain, name + "_3") && Repaired(b, job) == BookBetween(domain, name)
  {
    var b, job := BookBefore(domain, name), Job(Join(domain, name + "_old"), Join(domain, name));
    NamesApart(domain, name);
    NamesakeCandidates(domain, name);
    assert TargetFrom(b, job, 3) == Join(domain, name + "_3");
    assert TargetFrom(b, job, 2) == Join(domain, name + "_3");
    assert Repaired(b, job).rows == BookBetween(domain, name).rows;
  }

  lemma StrayMoves(domain: string, name: string)
    requires IsFallbackObject(name)
    ensures var b, job := BookBetween(domain, name), Job(Join(domain, name + "_2"), Join(domain, "tv"));
            Target(b, job) == Join(domain, "tv") && Repaired(b, job) == BookAfter(domain, name)
  {
    var b, job := BookBetween(domain, name), Job(Join(domain, name + "_2"), Join(domain, "tv"));
    NamesApart(domain, name);
    assert Repaired(b, job).rows == BookAfter(domain, name).rows;
  }

  lemma NamesakeUnsettled(domain: string, name: string)
    requires IsFallbackObject(name)
    ensures var b, job := BookAfter(domain, name), Job(Join(domain, name + "_3"), Join(domain, name));
            Target(b, job) == Join(domain, name + "_2") && Repaired(b, job) != b
  {
    NamesApart(domain, name);
    NamesakeCandidates(domain, name);
    var b, job := BookAfter(domain, name), Job(Join(domain, name + "_3"), Join(domain, name));
    assert TargetFrom(b, job, 2) == Join(domain, name + "_2");
    assert job.entityId in b.rows && job.entityId !in Repaired(b, job).rows;
  }

  lemma RowIsListed(domain: string, stem: string, more: string, name: string)
    requires IsFallbackObject(stem) && '.' !in domain && Extends(more, stem) && name != "" && name != more
    ensures FallbackTarget(Row(Join(domain, more), stem, name)) == Some(Join(domain, name))
  {
    ObjectOfJoin(domain, more);
    DomainOfJoin(domain, more);
    assert Join(domain, more)[|domain|] == '.';
  }

  lemma NumberedStemIsFallback(name: string)
    requires IsFallbackObject(name)
    ensures IsFallbackObject(name + "_2") && name != "" && name + "_2" != "tv" && name != name + "_old"
  {
    if name == PREFIX {
      assert PREFIX + "_" <= PREFIX + "_2";
    } else {
      assert PREFIX + "_" <= name <= name + "_2";
    }
  }

  lemma NamesakeIsListed(domain: string, name: string)
    requires IsFallbackObject(name) && '.' !in domain
    ensures var rows := [NamesakeRow(domain, name), StrayRow(domain, name)];
            AreListed(rows) && JobsOf(rows) == [Job(Join(domain, name + "_old"), Join(domain, name)),
                                                Job(Join(domain, name + "_2"), Join(domain, "tv"))]
  {
    NumberedStemIsFallback(name);
    assert Extends(name + "_old", name) by { assert name + "_" <= name + "_old"; }
    RowIsListed(domain, name, name + "_old", name);
    RowIsListed(domain, name + "_2", name + "_2", "tv");
    TwoAreListed(NamesakeRow(domain, name), StrayRow(domain, name));
  }

  lemma TwoAreListed(r: Row, s: Row)
    requires IsFallbackObject(r.fallback) && IsFallbackObject(s.fallback) && FallbackTarget(r).Some?
             && FallbackTarget(s).Some?
    ensures AreListed([r, s])
    ensures JobsOf([r, s]) == [Job(r.entityId, FallbackTarget(r).value), Job(s.entityId, FallbackTarget(s).value)]
  {
  }

  lemma NamesakeRun(domain: string, name: string)
    requires IsFallbackObject(name) && '.' !in domain
    ensures var b, rows := BookBefore(domain, name), [NamesakeRow(domain, name), StrayRow(domain, name)];
            AreListed(rows) && Pass(b, JobsOf(rows)) == BookAfter(domain, name)
            && DoneJobs(b, JobsOf(rows))[0] == Job(Join(domain, name + "_3"), Join(domain, name))
  {
    NamesakeIsListed(domain, name);
    NamesakeMoves(domain, name);
    StrayMoves(domain, name);
    PassOfTwo(BookBefore(domain, name), Job(Join(domain, name + "_old"), Join(domain, name)),
              Job(Join(domain, name + "_2"), Join(domain, "tv")));
  }

  /** The namesake is listed again, since its new ID still extends its fallback. */
  lemma NamesakeIsRelisted(domain: string, name: string)
    requires IsFallbackObject(name) && '.' !in domain
    ensures FallbackTarget(Row(Join(domain, name + "_3"), name, name)) == Some(Join(domain, name))
  {
    ObjectOfJoin(domain, name + "_3");
    DomainOfJoin(domain, name + "_3");
    assert Join(domain, name + "_3")[|domain|] == '.';
    assert name + "_" <= name + "_3";
  }

  lemma {:induction false} SameDomainOrder(domain: string, a: string, b: string)
    ensures Before(Join(domain, a), Join(domain, b)) <==> Before(a, b)
  {
    if domain == "" {
      assert Join(domain, a)[1..] == a && Join(domain, b)[1..] == b;
    } else {
      assert Join(domain, a)[1..] == Join(domain[1..], a) && Join(domain, b)[1..] == Join(domain[1..], b);
      SameDomainOrder(domain[1..], a, b);
    }
  }

  lemma NamesakeBookIsSound(domain: string, name: string)
    requires IsFallbackObject(name)
    ensures var b := BookBefore(domain, name);
            var jobs :=
              [Job(Join(domain, name + "_old"), Join(domain, name)),
               Job(Join(domain, name + "_2"), Join(domain, "tv"))];
            IsWorkList(b, jobs, {2, 3}) && IsInjective(b)
  {
    NamesApart(domain, name);
  }

  lemma NamesakeSortsFirst(domain: string, name: string)
    requires IsFallbackObject(name)
    ensures InSortOrder([Job(Join(domain, name + "_old"), Join(domain, name)),
                         Job(Join(domain, name + "_2"), Join(domain, "tv"))])
  {
    SameDomainOrder(domain, "tv", name);
    assert name[0] == 's';
  }

  lemma NamesakeIsRenamedAgain(domain: string, name: string)
    requires IsFallbackObject(name) && '.' !in domain
    ensures var rows := [NamesakeRow(domain, name), StrayRow(domain, name)];
            AreListed(rows) && IsRenamedAgain(BookBefore(domain, name), rows, 0)
  {
    NamesakeRun(domain, name);
    NamesakeIsRelisted(domain, name);
    NamesakeUnsettled(domain, name);
  }

  lemma NamesakeWitnesses(domain: string, name: string)
    requires IsFallbackObject(name) && '.' !in domain
    ensures WitnessesRenaming(BookBefore(domain, name), [NamesakeRow(domain, name), StrayRow(domain, name)], 0, {2, 3},
                              domain, name)
  {
    NamesakeIsListed(domain, name);
    NamesakeIsRenamedAgain(domain, name);
    NamesakeBookIsSound(domain, name);
    NamesakeSortsFirst(domain, name);
    DomainOfJoin(domain, name + "_old");
  }

  lemma PlainNameStays(b: Book, rows: seq<Row>, j: nat, mine: set<nat>, domain: string, name: string)
    requires !IsFallbackObject(name)
    ensures !WitnessesRenaming(b, rows, j, mine, domain, name)
  {
    if AreListed(rows) && j < |rows| && IsWorkList(b, JobsOf(rows), mine) && rows[j].canonicalObject == name {
      NobodyCrossesPlainName(rows, j);
      RowSettles(b, JobsOf(rows), j, mine);
    }
  }

  /** The repair of the next migration can find a row to rename again exactly if the object ID
      its name calls for is itself a fallback: for no other name does any registry, and any list
      of rows in any order, leave it at an ID with something free before it. */
  lemma {:induction false} RenamedAgainExactly(domain: string, name: string)
    requires '.' !in domain
    ensures MayBeRenamedAgain(domain, name) <==>
            name == "smartthings_device" || exists rest :: name == "smartthings_device" + "_" + rest
  {
    RenamedAgainIfFallback(domain, name);
    FallbackMeans(name);
  }

  lemma FallbackMeans(name: string)
    ensures IsFallbackObject(name) <==>
            name == "smartthings_device" || exists rest :: name == "smartthings_device" + "_" + rest
  {
    MoreBehind(name, PREFIX);
  }

  lemma {:induction false} RenamedAgainIfFallback(domain: string, name: string)
    requires '.' !in domain
    ensures MayBeRenamedAgain(domain, name) <==> IsFallbackObject(name)
  {
    if IsFallbackObject(name) {
      NamesakeWitnesses(domain, name);
    } else {
      forall b: Book, rows: seq<Row>, j: nat, mine: set<nat>
        ensures !WitnessesRenaming(b, rows, j, mine, domain, name)
      {
        PlainNameStays(b, rows, j, mine, domain, name);
      }
    }
  }
}
