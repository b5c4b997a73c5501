/**
 Deployments that nothing disturbs (tools/haos-candidate-deploy-core.ts:205-289 and
 tools/haos-candidate-deploy.ts:296-373): exactly when each script runs through, and exactly when a
 deployment to a guest without leftovers succeeds.

 A guest is ordinary if nothing of this deployment is below its backup directory, every path that
 is to become a directory is free or one already, and there is a place for the add-on.
 */
module OrdinaryRun {
  import opened Wrappers
  import opened RemoteTree
  import opened DeployScripts
  import opened DeployEffects
  import opened ScriptRuns
  import opened Deployment

  // ---------------------------------------------------------------------------
  // Scripts that do not break off
  // ---------------------------------------------------------------------------

  /** A script runs through exactly if every command succeeds on the tree of the one before, and
      nothing breaks it off earlier. */
  lemma {:induction false} RunsThroughExactly(tools: Tools, t: Tree, script: seq<Command>, breaksAt: nat, partial: Tree)
    ensures RunFrom(tools, t, script, breaksAt, partial).1 <==>
            AfterAll(tools, t, script).Some? && breaksAt >= |script|
    ensures RunFrom(tools, t, script, breaksAt, partial).1 ==>
              AfterAll(tools, t, script) == Some(RunFrom(tools, t, script, breaksAt, partial).0)
    decreases |script|
  {
    if script != [] && breaksAt > 0 && Effect(tools, t, script[0]).Some? {
      RunsThroughExactly(tools, Effect(tools, t, script[0]).value, script[1..], breaksAt - 1, partial);
    }
  }

  lemma {:induction false} AfterJoin(tools: Tools, t: Tree, first: seq<Command>, second: seq<Command>)
    ensures AfterAll(tools, t, first + second) ==
            match AfterAll(tools, t, first) case None => None case Some(u) => AfterAll(tools, u, second)
    decreases |first|
  {
    if first == [] {
      assert first + second == second;
    } else {
      assert (first + second)[0] == first[0] && (first + second)[1..] == first[1..] + second;
      if Effect(tools, t, first[0]).Some? {
        AfterJoin(tools, Effect(tools, t, first[0]).value, first[1..], second);
      }
    }
  }

  lemma {:induction false} AfterOne(tools: Tools, t: Tree, c: Command)
    ensures AfterAll(tools, t, [c]) == Effect(tools, t, c)
  {
    assert [c][1..] == [];
    if Effect(tools, t, c).Some? { assert AfterAll(tools, Effect(tools, t, c).value, []) == Effect(tools, t, c); }
  }

  // ---------------------------------------------------------------------------
  // Installing a source
  // ---------------------------------------------------------------------------

  function InstallScript(from: Path, marker: string): seq<Command> {
    [RmRf(ADDON_SOURCE), Mv(from, ADDON_SOURCE), Touch(ADDON_SOURCE + [CONFIG]), Marker(marker)]
  }

  /** There is something to install, with a configuration or a place for one, and somewhere to
      install it. */
  predicate MayInstall(t: Tree, from: Path) {
    && from in t && IsDir(t, Parent(ADDON_SOURCE)) && (from + [CONFIG] in t || IsDir(t, from))
  }

  lemma {:induction false} ClearedSource(t: Tree, from: Path)
    requires !Under(from, ADDON_SOURCE) && !Under(ADDON_SOURCE, from)
    ensures var u := RemoveAll(t, ADDON_SOURCE);
            && ADDON_SOURCE !in u && (from in u <==> from in t) && (from in t ==> u[from] == t[from])
            && (IsDir(u, Parent(ADDON_SOURCE)) <==> IsDir(t, Parent(ADDON_SOURCE)))
            && (from + [CONFIG] in u <==> from + [CONFIG] in t)
  {
    assert Under(ADDON_SOURCE, ADDON_SOURCE);
    if Under(ADDON_SOURCE, from + [CONFIG]) {
      assert Under(from, from + [CONFIG]);
      NestedOrApart(ADDON_SOURCE, from, from + [CONFIG]);
    }
  }

  lemma {:induction false} MovedSource(tools: Tools, t: Tree, from: Path)
    requires !Under(from, ADDON_SOURCE) && !Under(ADDON_SOURCE, from) && ADDON_SOURCE !in t
    ensures Effect(tools, t, Mv(from, ADDON_SOURCE)) ==
            if from in t && IsDir(t, Parent(ADDON_SOURCE)) then Some(Move(t, from, ADDON_SOURCE)) else None
    ensures ADDON_SOURCE + [CONFIG] in Move(t, from, ADDON_SOURCE) <==> from + [CONFIG] in t
    ensures IsDir(Move(t, from, ADDON_SOURCE), ADDON_SOURCE) <==> IsDir(t, from)
  {
    MoveAt(t, from, ADDON_SOURCE, [CONFIG]);
    MovedRoot(t, from, ADDON_SOURCE);
  }

  lemma MovedRoot(t: Tree, from: Path, to: Path)
    requires !Under(to, from) && !Under(from, to)
    ensures IsDir(Move(t, from, to), to) <==> IsDir(t, from)
  {
    MoveAt(t, from, to, []);
    assert to + [] == to && from + [] == from;
  }

  /** Putting a staged source in the place of the add-on runs through exactly then. */
  lemma {:induction false} InstallRunsExactly(tools: Tools, t: Tree, from: Path, marker: string)
    requires !Under(from, ADDON_SOURCE) && !Under(ADDON_SOURCE, from)
    ensures AfterAll(tools, t, InstallScript(from, marker)).Some? <==> MayInstall(t, from)
  {
    var cleared := RemoveAll(t, ADDON_SOURCE);
    var last := [Touch(ADDON_SOURCE + [CONFIG]), Marker(marker)];
    ClearedSource(t, from);
    MovedSource(tools, cleared, from);
    TouchRunsExactly(tools, Move(cleared, from, ADDON_SOURCE), ADDON_SOURCE, marker);
    AfterJoin(tools, t, [RmRf(ADDON_SOURCE)], [Mv(from, ADDON_SOURCE)] + last);
    AfterOne(tools, t, RmRf(ADDON_SOURCE));
    AfterJoin(tools, cleared, [Mv(from, ADDON_SOURCE)], last);
    AfterOne(tools, cleared, Mv(from, ADDON_SOURCE));
    assert InstallScript(from, marker) == [RmRf(ADDON_SOURCE)] + ([Mv(from, ADDON_SOURCE)] + last);
  }

  lemma {:induction false} TouchRunsExactly(tools: Tools, t: Tree, dir: Path, marker: string)
    ensures AfterAll(tools, t, [Touch(dir + [CONFIG]), Marker(marker)]).Some? <==> dir + [CONFIG] in t || IsDir(t, dir)
  {
    var c := Touch(dir + [CONFIG]);
    assert Parent(dir + [CONFIG]) == dir;
    AfterJoin(tools, t, [c], [Marker(marker)]);
    AfterOne(tools, t, c);
    if Effect(tools, t, c).Some? { AfterOne(tools, Effect(tools, t, c).value, Marker(marker)); }
    assert [c, Marker(marker)] == [c] + [Marker(marker)];
  }

  lemma {:induction false} StagedIsApart(l: Layout)
    ensures var c, r := l.CandidateSource(), l.RollbackSource();
            && !Under(c, ADDON_SOURCE) && !Under(ADDON_SOURCE, c) && !Under(r, ADDON_SOURCE) && !Under(ADDON_SOURCE, r)
  {
    assert Under(ADDON_SOURCE, ADDON_SOURCE);
    OutsideSource(l.CandidateSource(), ADDON_SOURCE);
    OutsideSource(l.RollbackSource(), ADDON_SOURCE);
  }

  /** The activation script runs through exactly if the candidate has its manifest and may be
      installed. */
  lemma {:induction false} ActivationRunsExactly(tools: Tools, l: Layout, t: Tree)
    ensures AfterAll(tools, t, Activate(l)).Some? <==>
            IsFile(t, l.CandidateSource() + [MANIFEST]) && MayInstall(t, l.CandidateSource())
  {
    var c := l.CandidateSource();
    StagedIsApart(l);
    AfterJoin(tools, t, [TestFile(c + [MANIFEST])], InstallScript(c, "source_activated"));
    AfterOne(tools, t, TestFile(c + [MANIFEST]));
    InstallRunsExactly(tools, t, c, "source_activated");
    assert Activate(l) == [TestFile(c + [MANIFEST])] + InstallScript(c, "source_activated");
  }

  // ---------------------------------------------------------------------------
  // Unpacking an archive
  // ---------------------------------------------------------------------------

  function UnpackScript(archive: Path, d: Path, manifestSha: string, version: string): seq<Command> {
    [RmRf(d), MkdirP(d), Untar(archive, d), HashCheck(d + [MANIFEST], manifestSha), GrepVersion(d + [CONFIG], version)]
  }

  /** The path can be made a directory. */
  predicate MayMake(t: Tree, d: Path) { forall q :: q in Prefixes(d) && q in t ==> t[q] == Dir }

  /** The archive unpacks to a package with this manifest and version. */
  predicate IsPackage(tools: Tools, content: Content, manifestSha: string, version: string) {
    && tools.unpack(content).Some?
    && var sub := tools.unpack(content).value;
       && [] !in sub
       && [MANIFEST] in sub && sub[[MANIFEST]].File? && tools.sha256(sub[[MANIFEST]].content) == manifestSha
       && [CONFIG] in sub && sub[[CONFIG]].File? && tools.declaresVersion(sub[[CONFIG]].content, version)
  }

  function Emptied(t: Tree, d: Path): Tree { MakeDirs(RemoveAll(t, d), d) }

  lemma PrefixesAboveParent(d: Path)
    requires d != []
    ensures forall q :: q in Prefixes(d) ==> (Under(d, q) <==> q == d)
    ensures forall q :: q in Prefixes(d) ==> (q != d <==> q in Prefixes(Parent(d)))
    ensures forall q :: q in Prefixes(Parent(d)) ==> q in Prefixes(d)
  {
    assert d[..|d|] == d;
    forall q | q in Prefixes(d)
      ensures Under(d, q) <==> q == d
      ensures q != d <==> q in Prefixes(Parent(d))
    {
      var i :| 0 <= i <= |d| && q == d[..i];
      if i < |d| { assert q == Parent(d)[..i]; }
      if q in Prefixes(Parent(d)) { assert |q| < |d|; }
    }
    forall q | q in Prefixes(Parent(d))
      ensures q in Prefixes(d)
    {
      var i :| 0 <= i <= |Parent(d)| && q == Parent(d)[..i];
      assert q == d[..i];
    }
  }

  lemma {:induction false} EmptiedEffect(tools: Tools, t: Tree, d: Path)
    requires d != []
    ensures Effect(tools, RemoveAll(t, d), MkdirP(d)) == if MayMake(t, Parent(d)) then Some(Emptied(t, d)) else None
  {
    PrefixesAboveParent(d);
  }

  lemma {:induction false} EmptiedDir(t: Tree, d: Path)
    requires d != []
    ensures IsDir(Emptied(t, d), d) && forall rel: Path :: rel != [] ==> d + rel !in Emptied(t, d)
    ensures forall q :: !Under(d, q) && q !in Prefixes(d) ==> SameAt(t, Emptied(t, d), q)
  {
    assert d[..|d|] == d && Under(d, d);
    forall rel: Path | rel != []
      ensures d + rel !in Emptied(t, d)
    {
      assert Under(d, d + rel);
      assert d + rel !in Prefixes(d);
    }
  }

  /** What unpacking comes to, if it runs through. */
  function UnpackedAt(t: Tree, d: Path, sub: Tree): Tree { Place(Emptied(t, d), d, sub) }

  lemma {:induction false} UnpackedHolds(t: Tree, d: Path, sub: Tree, rel: Path)
    requires d != [] && rel != []
    ensures d + rel in UnpackedAt(t, d, sub) <==> rel in sub
    ensures rel in sub ==> UnpackedAt(t, d, sub)[d + rel] == sub[rel]
  {
    EmptiedDir(t, d);
    PlaceAt(Emptied(t, d), d, sub, rel);
  }

  lemma {:induction false} ChecksExactly(tools: Tools, t: Tree, d: Path, manifestSha: string, version: string)
    ensures AfterAll(tools, t, [HashCheck(d + [MANIFEST], manifestSha), GrepVersion(d + [CONFIG], version)]) ==
            if HoldsPackage(tools, t, d, manifestSha, version) then Some(t) else None
  {
    var check := [HashCheck(d + [MANIFEST], manifestSha), GrepVersion(d + [CONFIG], version)];
    assert check[1..] == [GrepVersion(d + [CONFIG], version)];
    AfterOne(tools, t, GrepVersion(d + [CONFIG], version));
  }

  lemma {:induction false} FillExactly(
    tools: Tools, t: Tree, archive: Path, d: Path, manifestSha: string, version: string)
    requires d != [] && !Under(d, archive) && archive !in Prefixes(d)
    ensures var check := [HashCheck(d + [MANIFEST], manifestSha), GrepVersion(d + [CONFIG], version)];
            AfterAll(tools, Emptied(t, d), [Untar(archive, d)] + check) ==
              if IsFile(t, archive) && IsPackage(tools, t[archive].content, manifestSha, version)
              then Some(UnpackedAt(t, d, tools.unpack(t[archive].content).value)) else None
  {
    var check := [HashCheck(d + [MANIFEST], manifestSha), GrepVersion(d + [CONFIG], version)];
    var empty := Emptied(t, d);
    EmptiedDir(t, d);
    assert SameAt(t, empty, archive);
    AfterJoin(tools, empty, [Untar(archive, d)], check);
    AfterOne(tools, empty, Untar(archive, d));
    if IsFile(t, archive) && tools.unpack(t[archive].content).Some? {
      var sub := tools.unpack(t[archive].content).value;
      UnpackedHolds(t, d, sub, [MANIFEST]);
      UnpackedHolds(t, d, sub, [CONFIG]);
      ChecksExactly(tools, UnpackedAt(t, d, sub), d, manifestSha, version);
    }
  }

  lemma {:induction false} EmptyFirst(tools: Tools, t: Tree, d: Path, rest: seq<Command>)
    requires d != []
    ensures AfterAll(tools, t, [RmRf(d)] + ([MkdirP(d)] + rest)) ==
            if MayMake(t, Parent(d)) then AfterAll(tools, Emptied(t, d), rest) else None
  {
    EmptiedEffect(tools, t, d);
    AfterJoin(tools, t, [RmRf(d)], [MkdirP(d)] + rest);
    AfterOne(tools, t, RmRf(d));
    AfterJoin(tools, RemoveAll(t, d), [MkdirP(d)], rest);
    AfterOne(tools, RemoveAll(t, d), MkdirP(d));
  }

  /** Unpacking and checking runs through exactly if the directory can be made, and the archive is
      there and is a package with the manifest and version expected. */
  lemma {:induction false} UnpackRunsExactly(
    tools: Tools, t: Tree, archive: Path, d: Path, manifestSha: string, version: string)
    requires d != [] && !Under(d, archive) && archive !in Prefixes(d)
    ensures AfterAll(tools, t, UnpackScript(archive, d, manifestSha, version)) ==
            if MayMake(t, Parent(d)) && IsFile(t, archive) && IsPackage(tools, t[archive].content, manifestSha, version)
            then Some(UnpackedAt(t, d, tools.unpack(t[archive].content).value)) else None
  {
    var check := [HashCheck(d + [MANIFEST], manifestSha), GrepVersion(d + [CONFIG], version)];
    FillExactly(tools, t, archive, d, manifestSha, version);
    EmptyFirst(tools, t, d, [Untar(archive, d)] + check);
    assert UnpackScript(archive, d, manifestSha, version) ==
           [RmRf(d)] + ([MkdirP(d)] + ([Untar(archive, d)] + check));
  }

  // ---------------------------------------------------------------------------
  // Rollback
  // ---------------------------------------------------------------------------

  lemma UnpackedStays(t: Tree, d: Path, sub: Tree, q: Path)
    requires d != [] && !Under(d, q) && q !in Prefixes(d)
    ensures SameAt(t, UnpackedAt(t, d, sub), q)
  {
    EmptiedDir(t, d);
    PlaceElsewhere(Emptied(t, d), d, sub, q);
  }

  lemma UnpackedMayBeInstalled(t: Tree, d: Path, sub: Tree)
    requires d != [] && [] !in sub && [CONFIG] in sub
    requires !Under(d, Parent(ADDON_SOURCE)) && Parent(ADDON_SOURCE) !in Prefixes(d)
    ensures IsDir(UnpackedAt(t, d, sub), d)
    ensures MayInstall(UnpackedAt(t, d, sub), d) <==> IsDir(t, Parent(ADDON_SOURCE))
  {
    EmptiedDir(t, d);
    PlaceAt(Emptied(t, d), d, sub, []);
    assert d + [] == d;
    UnpackedStays(t, d, sub, Parent(ADDON_SOURCE));
    UnpackedHolds(t, d, sub, [CONFIG]);
  }

  /** A kept path lies beside the place of the add-on. */
  lemma KeptIsBeside(l: Layout, name: string)
    ensures var d := l.Kept(name);
            && |d| == 7 && d != [] && Parent(d) == l.BackupRoot()
            && !Under(d, Parent(ADDON_SOURCE)) && Parent(ADDON_SOURCE) !in Prefixes(d)
            && !Under(d, ADDON_SOURCE) && ADDON_SOURCE !in Prefixes(d)
  {
    var d := l.Kept(name);
    assert d[3] == "backup" && ADDON_SOURCE[3] == "apps" && Parent(ADDON_SOURCE)[3] == "apps";
    forall q | q in Prefixes(d) && |q| > 3
      ensures q[3] == "backup"
    {
      var i :| 0 <= i <= |d| && q == d[..i];
    }
  }

  /** The rollback script runs through exactly if the archive has its hash and unpacks to the package
      of the rollback release, with somewhere to unpack and somewhere to install it. */
  lemma {:induction false} RollbackRunsExactly(tools: Tools, l: Layout, sha: string, t: Tree)
    ensures AfterAll(tools, t, RollbackSource(l, sha)).Some? <==>
            && IsFile(t, l.DurableArchive()) && tools.sha256(t[l.DurableArchive()].content) == sha
            && MayMake(t, l.BackupRoot()) && IsDir(t, Parent(ADDON_SOURCE))
            && IsPackage(tools, t[l.DurableArchive()].content, ROLLBACK_MANIFEST_SHA256, ROLLBACK_VERSION)
  {
    var d, p := l.RollbackSource(), l.DurableArchive();
    var unpack := UnpackScript(p, d, ROLLBACK_MANIFEST_SHA256, ROLLBACK_VERSION);
    var install := InstallScript(d, "rollback_source_restored");
    KeptIsBeside(l, "rollback-source");
    StagedIsApart(l);
    Apart(d, p, 6);
    assert RollbackSource(l, sha) == [HashCheck(p, sha)] + (unpack + install);
    AfterJoin(tools, t, [HashCheck(p, sha)], unpack + install);
    AfterOne(tools, t, HashCheck(p, sha));
    AfterJoin(tools, t, unpack, install);
    UnpackRunsExactly(tools, t, p, d, ROLLBACK_MANIFEST_SHA256, ROLLBACK_VERSION);
    if IsFile(t, p) && IsPackage(tools, t[p].content, ROLLBACK_MANIFEST_SHA256, ROLLBACK_VERSION) {
      var sub := tools.unpack(t[p].content).value;
      UnpackedMayBeInstalled(t, d, sub);
      InstallRunsExactly(tools, UnpackedAt(t, d, sub), d, "rollback_source_restored");
    }
  }

  // ---------------------------------------------------------------------------
  // Staging
  // ---------------------------------------------------------------------------

  /** A guest without leftovers of this deployment, and with a place for the add-on. */
  predicate IsOrdinary(l: Layout, t: Tree) {
    && MayMake(t, Parent(l.TemporaryRoot())) && MayMake(t, l.BackupRoot()) && OnlyTaken(l, t, {})
    && IsDir(t, Parent(ADDON_SOURCE))
  }

  /** The guest after the uploads. */
  function Delivered(l: Layout, candidate: Content, rollback: Content, t: Tree): Tree {
    Emptied(t, l.TemporaryRoot())[l.CandidateArchive() := File(candidate)][l.RollbackUpload() := File(rollback)]
  }

  lemma {:induction false} DirIsMade(tools: Tools, t: Tree, d: Path, marker: string)
    requires d != [] && MayMake(t, Parent(d))
    ensures AfterAll(tools, t, [RmRf(d), MkdirP(d), Marker(marker)]) == Some(Emptied(t, d))
  {
    EmptiedEffect(tools, t, d);
    AfterThree(tools, t, RmRf(d), RemoveAll(t, d), MkdirP(d), Emptied(t, d), Marker(marker), Emptied(t, d));
  }

  lemma {:induction false} FileIsWritten(tools: Tools, t: Tree, p: Path, content: Content)
    requires IsDir(t, Parent(p)) && p !in t
    ensures AfterAll(tools, t, [WriteFile(p, content)]) == Some(t[p := File(content)])
  {
    AfterOne(tools, t, WriteFile(p, content));
  }

  lemma {:induction false} UploadsRunThrough(tools: Tools, l: Layout, candidate: Content, rollback: Content, t: Tree)
    requires IsOrdinary(l, t)
    ensures var empty, r := Emptied(t, l.TemporaryRoot()), l.CandidateArchive();
            && AfterAll(tools, t, Initialize(l)) == Some(empty)
            && AfterAll(tools, empty, [WriteFile(r, candidate)]) == Some(empty[r := File(candidate)])
            && AfterAll(tools, empty[r := File(candidate)], [WriteFile(l.RollbackUpload(), rollback)])
               == Some(Delivered(l, candidate, rollback, t))
  {
    var d, r, s := l.TemporaryRoot(), l.CandidateArchive(), l.RollbackUpload();
    var empty := Emptied(t, d);
    DirIsMade(tools, t, d, "upload_ready");
    EmptiedDir(t, d);
    assert Parent(r) == d == Parent(s) && r != d && s != d && r !in empty && s !in empty;
    assert r[2] != s[2];
    FileIsWritten(tools, empty, r, candidate);
    FileIsWritten(tools, empty[r := File(candidate)], s, rollback);
  }

  /** What staging needs to find: these names taken, the upload, a place for the add-on. */
  predicate HasRoom(l: Layout, t: Tree, names: set<string>, rollback: Content) {
    && OnlyTaken(l, t, names) && MayMake(t, l.BackupRoot()) && IsDir(t, Parent(ADDON_SOURCE))
    && l.RollbackUpload() in t && t[l.RollbackUpload()] == File(rollback)
  }

  lemma MntIsFar(p: Path, q: Path)
    requires p != [] && p[0] == "tmp" && q != [] && q[0] != "tmp"
    ensures !Under(p, q) && q !in Prefixes(p)
  {
    if Under(p, q) { UnderAt(p, q, 0); }
  }

  lemma EmptiedStays(t: Tree, d: Path, q: Path)
    requires d != [] && d[0] == "tmp" && q != [] && q[0] != "tmp"
    ensures SameAt(t, Emptied(t, d), q)
  {
    EmptiedDir(t, d);
    MntIsFar(d, q);
  }

  lemma EmptiedBackups(t: Tree, l: Layout, q: Path)
    requires q in Prefixes(l.BackupRoot()) && MayMake(t, l.BackupRoot())
    ensures q in Emptied(t, l.TemporaryRoot()) ==> Emptied(t, l.TemporaryRoot())[q] == Dir
  {
    var d := l.TemporaryRoot();
    var i :| 0 <= i <= |l.BackupRoot()| && q == l.BackupRoot()[..i];
    if q == [] {
      EmptiedDir(t, d);
    } else {
      assert q[0] == "mnt";
      EmptiedStays(t, d, q);
    }
  }

  lemma DeliveredAt(l: Layout, candidate: Content, rollback: Content, t: Tree)
    ensures var u := Delivered(l, candidate, rollback, t);
            && l.CandidateArchive() in u && u[l.CandidateArchive()] == File(candidate)
            && l.RollbackUpload() in u && u[l.RollbackUpload()] == File(rollback)
    ensures forall q: Path :: q != [] && q[0] != "tmp" ==> SameAt(t, Delivered(l, candidate, rollback, t), q)
  {
    var u := Delivered(l, candidate, rollback, t);
    assert l.CandidateArchive()[2] != l.RollbackUpload()[2];
    forall q: Path | q != [] && q[0] != "tmp"
      ensures SameAt(t, u, q)
    {
      EmptiedStays(t, l.TemporaryRoot(), q);
    }
  }

  lemma DeliveredBackups(l: Layout, candidate: Content, rollback: Content, t: Tree)
    requires MayMake(t, l.BackupRoot())
    ensures MayMake(Delivered(l, candidate, rollback, t), l.BackupRoot())
  {
    var u := Delivered(l, candidate, rollback, t);
    forall q | q in Prefixes(l.BackupRoot()) && q in u
      ensures u[q] == Dir
    {
      EmptiedBackups(t, l, q);
      var i :| 0 <= i <= |l.BackupRoot()| && q == l.BackupRoot()[..i];
      assert q != [] ==> q[0] == "mnt";
    }
  }

  /** Nothing changed under the backup directory keeps its names free. */
  lemma TakenStays(l: Layout, t: Tree, u: Tree, names: set<string>)
    requires OnlyTaken(l, t, names) && forall q: Path :: q != [] && q[0] != "tmp" ==> SameAt(t, u, q)
    ensures OnlyTaken(l, u, names)
  {
    forall q | q in u && Under(l.BackupRoot(), q) && |q| > 6
      ensures q[6] in names
    {
      UnderAt(l.BackupRoot(), q, 0);
      assert SameAt(t, u, q);
    }
  }

  lemma DeliveredHasRoom(l: Layout, candidate: Content, rollback: Content, t: Tree)
    requires IsOrdinary(l, t)
    ensures HasRoom(l, Delivered(l, candidate, rollback, t), {}, rollback)
  {
    var u := Delivered(l, candidate, rollback, t);
    DeliveredAt(l, candidate, rollback, t);
    DeliveredBackups(l, candidate, rollback, t);
    TakenStays(l, t, u, {});
    assert Parent(ADDON_SOURCE)[0] == "mnt" && SameAt(t, u, Parent(ADDON_SOURCE));
  }

  // ---------------------------------------------------------------------------
  // Securing the rollback
  // ---------------------------------------------------------------------------

  predicate IsRoomy(l: Layout, t: Tree, names: set<string>, rollback: Content) {
    HasRoom(l, t, names, rollback) && IsDir(t, l.BackupRoot())
  }

  lemma RoomyWithKept(l: Layout, t: Tree, names: set<string>, rollback: Content, name: string, node: Node)
    requires IsRoomy(l, t, names, rollback)
    ensures IsRoomy(l, t[l.Kept(name) := node], names + {name}, rollback)
  {
    var p := l.Kept(name);
    KeptIsBeside(l, name);
    TakeName(l, t, names, p, node);
    assert p[6] == name && |l.BackupRoot()| == 6 && |l.RollbackUpload()| == 3 && |Parent(ADDON_SOURCE)| == 5;
    assert forall q :: q in Prefixes(l.BackupRoot()) ==> |q| <= 6;
  }

  /** The tree once the present source, if there is one, is saved. */
  function WithPrevious(tools: Tools, l: Layout, t: Tree): Tree {
    if IsDir(t, ADDON_SOURCE) then t[l.PreviousSource() := File(tools.pack(Below(t, ADDON_SOURCE)))] else t
  }

  lemma {:induction false} SkippedPair(tools: Tools, t: Tree, dir: Path, a: Command, b: Command)
    requires !IsDir(t, dir)
    ensures AfterAll(tools, t, [WhenDir(dir, a), WhenDir(dir, b)]) == Some(t)
  {
    AfterTwo(tools, t, WhenDir(dir, a), t, WhenDir(dir, b), t);
  }

  lemma {:induction false} SourceIsSaved(tools: Tools, l: Layout, t: Tree, names: set<string>, rollback: Content)
    requires IsRoomy(l, t, names, rollback)
    requires "source-before-deploy.tar.tmp" !in names && "source-before-deploy.tar" !in names
    ensures AfterAll(tools, t, SaveSource(l)) == Some(WithPrevious(tools, l, t))
    ensures IsRoomy(l, WithPrevious(tools, l, t), names + {"source-before-deploy.tar"}, rollback)
  {
    var from, u := l.PreviousTmp(), l.PreviousSource();
    RoomyWithKept(l, t, names, rollback, "source-before-deploy.tar", File(tools.pack(Below(t, ADDON_SOURCE))));
    if IsDir(t, ADDON_SOURCE) {
      FreeNameIsVacant(l, t, names, "source-before-deploy.tar.tmp");
      FreeNameIsVacant(l, t, names, "source-before-deploy.tar");
      assert |from[6]| != |u[6]|;
      Apart(from, u, 6);
      assert Parent(from) == l.BackupRoot() == Parent(u);
      TarAndRename(tools, t, ADDON_SOURCE, from, u);
    } else {
      SkippedPair(tools, t, ADDON_SOURCE, TarDir(ADDON_SOURCE, from), Mv(from, u));
    }
  }

  lemma {:induction false} CopyAndRename(
    tools: Tools, t: Tree, upload: Path, from: Path, to: Path, content: Content, sha: string)
    requires IsVacant(t, from) && IsVacant(t, to) && !Under(from, to) && !Under(to, from)
    requires from != [] && from !in t && IsDir(t, Parent(from)) && IsDir(t, Parent(to))
    requires upload in t && t[upload] == File(content) && tools.sha256(content) == sha
    ensures AfterAll(tools, t, [Cp(upload, from), HashCheck(from, sha), Mv(from, to)]) == Some(t[to := File(content)])
  {
    RenameFreshFile(tools, t, from, to, content);
    var copied := t[from := File(content)];
    AfterThree(tools, t, Cp(upload, from), copied, HashCheck(from, sha), copied, Mv(from, to), t[to := File(content)]);
  }

  lemma {:induction false} ArchiveIsSecured(
    tools: Tools, l: Layout, id: ArchiveIdentity, t: Tree, names: set<string>, rollback: Content)
    requires IsRoomy(l, t, names, rollback) && tools.sha256(rollback) == id.rollbackArchiveSha
    requires DURABLE !in names && DURABLE_TMP !in names
    ensures AfterAll(tools, t, SecureCopy(l, id)) == Some(t[l.DurableArchive() := File(rollback)])
    ensures IsRoomy(l, t[l.DurableArchive() := File(rollback)], names + {DURABLE}, rollback)
  {
    var from, u := l.DurableTmp(), l.DurableArchive();
    KeptNames(l);
    FreeNameIsVacant(l, t, names, DURABLE_TMP);
    FreeNameIsVacant(l, t, names, DURABLE);
    Apart(from, u, 6);
    assert Parent(from) == l.BackupRoot() == Parent(u);
    CopyAndRename(tools, t, l.RollbackUpload(), from, u, rollback, id.rollbackArchiveSha);
    RoomyWithKept(l, t, names, rollback, DURABLE, File(rollback));
  }

  lemma {:induction false} IdentityIsRecorded(
    tools: Tools, l: Layout, id: ArchiveIdentity, t: Tree, names: set<string>, rollback: Content)
    requires IsRoomy(l, t, names, rollback)
    requires "deployment-identity.txt.tmp" !in names && "deployment-identity.txt" !in names
    ensures AfterAll(tools, t, RecordDone(l, id)) == Some(t[l.Identity() := File(IdentityText(id))])
  {
    var from, u := l.IdentityTmp(), l.Identity();
    FreeNameIsVacant(l, t, names, "deployment-identity.txt.tmp");
    FreeNameIsVacant(l, t, names, "deployment-identity.txt");
    assert |from[6]| != |u[6]|;
    Apart(from, u, 6);
    assert Parent(from) == l.BackupRoot() == Parent(u);
    WriteAndRename(tools, t, from, u, IdentityText(id), "stage_ready");
  }

  lemma SecuredNamesDiffer()
    ensures var a, b := {"candidate-source"}, {"candidate-source"} + {"source-before-deploy.tar"};
            && "source-before-deploy.tar.tmp" !in a && "source-before-deploy.tar" !in a
            && DURABLE !in b && DURABLE_TMP !in b
            && "deployment-identity.txt.tmp" !in b + {DURABLE} && "deployment-identity.txt" !in b + {DURABLE}
  {
    assert |ROLLBACK_COMMIT| == 40;
    assert |DURABLE| == 53 && |DURABLE_TMP| == 57 && |"candidate-source"| == 16;
    assert |"source-before-deploy.tar.tmp"| == 28 && |"source-before-deploy.tar"| == 24;
    assert |"deployment-identity.txt.tmp"| == 27 && |"deployment-identity.txt"| == 23;
  }

  function WithArchive(tools: Tools, l: Layout, id: ArchiveIdentity, rollback: Content, t: Tree): Tree {
    WithPrevious(tools, l, t)[l.DurableArchive() := File(rollback)][l.Identity() := File(IdentityText(id))]
  }

  lemma {:induction false} SecuringRunsThrough(
    tools: Tools, l: Layout, id: ArchiveIdentity, t: Tree, rollback: Content)
    requires IsRoomy(l, t, {"candidate-source"}, rollback) && tools.sha256(rollback) == id.rollbackArchiveSha
    ensures AfterAll(tools, t, SecureRollback(l, id)) == Some(WithArchive(tools, l, id, rollback, t))
  {
    var names := {"candidate-source"} + {"source-before-deploy.tar"};
    var u := WithPrevious(tools, l, t);
    var v := u[l.DurableArchive() := File(rollback)];
    SecuredNamesDiffer();
    SourceIsSaved(tools, l, t, {"candidate-source"}, rollback);
    ArchiveIsSecured(tools, l, id, u, names, rollback);
    IdentityIsRecorded(tools, l, id, v, names + {DURABLE}, rollback);
    PrepareParts(l, id);
    AfterParts(tools, t, SaveSource(l), u, SecureCopy(l, id), v, RecordDone(l, id),
               WithArchive(tools, l, id, rollback, t));
  }

  // ---------------------------------------------------------------------------
  // Staging as a whole
  // ---------------------------------------------------------------------------

  lemma {:induction false} UploadsAreChecked(
    tools: Tools, l: Layout, id: ArchiveIdentity, candidate: Content, rollback: Content, t: Tree)
    requires HasRoom(l, t, {}, rollback) && l.CandidateArchive() in t && t[l.CandidateArchive()] == File(candidate)
    requires tools.sha256(candidate) == id.candidateArchiveSha && tools.sha256(rollback) == id.rollbackArchiveSha
    ensures AfterAll(tools, t, CheckUploads(l, id)) == Some(MakeDirs(t, l.BackupRoot()))
    ensures IsRoomy(l, MakeDirs(t, l.BackupRoot()), {}, rollback)
    ensures var u := MakeDirs(t, l.BackupRoot());
            l.CandidateArchive() in u && u[l.CandidateArchive()] == File(candidate)
  {
    var u := MakeDirs(t, l.BackupRoot());
    assert l.BackupRoot() == l.BackupRoot()[..6] && l.BackupRoot() in Prefixes(l.BackupRoot());
    AfterThree(tools, t, HashCheck(l.CandidateArchive(), id.candidateArchiveSha), t,
               HashCheck(l.RollbackUpload(), id.rollbackArchiveSha), t, MkdirP(l.BackupRoot()), u);
  }

  lemma DirsAboveUnpacked(t: Tree, d: Path, sub: Tree, q: Path)
    requires q in Prefixes(d) && q != d && (q in t ==> t[q] == Dir)
    ensures IsDir(UnpackedAt(t, d, sub), q)
  {
    var i :| 0 <= i <= |d| && q == d[..i];
    assert d[..|d|] == d;
    PlaceElsewhere(Emptied(t, d), d, sub, q);
  }

  lemma LongIsNoPrefix(d: Path, q: Path)
    requires !Under(d, q) && |q| >= |d|
    ensures q !in Prefixes(d)
  {
    forall i | 0 <= i <= |d|
      ensures d[..i] != q
    {
      assert |d[..i]| == i && d[..|d|] == d && Under(d, d);
    }
  }

  lemma UnpackedTaken(l: Layout, t: Tree, sub: Tree)
    requires OnlyTaken(l, t, {})
    ensures OnlyTaken(l, UnpackedAt(t, l.CandidateSource(), sub), {"candidate-source"})
  {
    var d := l.CandidateSource();
    var u := UnpackedAt(t, d, sub);
    forall q | q in u && Under(l.BackupRoot(), q) && |q| > 6
      ensures q[6] == "candidate-source"
    {
      if Under(d, q) {
        UnderKept(l, "candidate-source", q);
      } else {
        LongIsNoPrefix(d, q);
        UnpackedStays(t, d, sub, q);
      }
    }
  }

  lemma UnpackedBackups(l: Layout, t: Tree, sub: Tree)
    requires MayMake(t, l.BackupRoot())
    ensures var u := UnpackedAt(t, l.CandidateSource(), sub);
            forall q :: q in Prefixes(l.BackupRoot()) ==> IsDir(u, q)
  {
    var d := l.CandidateSource();
    assert d[..6] == l.BackupRoot() && |d| == 7;
    forall q | q in Prefixes(l.BackupRoot())
      ensures IsDir(UnpackedAt(t, d, sub), q)
    {
      var i :| 0 <= i <= 6 && q == l.BackupRoot()[..i];
      assert q == d[..i];
      DirsAboveUnpacked(t, d, sub, q);
    }
  }

  lemma UnpackedIsRoomy(l: Layout, t: Tree, rollback: Content, sub: Tree)
    requires HasRoom(l, t, {}, rollback)
    ensures IsRoomy(l, UnpackedAt(t, l.CandidateSource(), sub), {"candidate-source"}, rollback)
  {
    var d := l.CandidateSource();
    KeptIsBeside(l, "candidate-source");
    UnpackedTaken(l, t, sub);
    UnpackedBackups(l, t, sub);
    assert l.BackupRoot() == l.BackupRoot()[..6] && l.BackupRoot() in Prefixes(l.BackupRoot());
    assert d[0] == "mnt" && forall q :: q in Prefixes(d) && q != [] ==> q[0] == "mnt";
    UnpackedStays(t, d, sub, Parent(ADDON_SOURCE));
    UploadIsFar(l, d);
    UnpackedStays(t, d, sub, l.RollbackUpload());
  }

  lemma UploadIsFar(l: Layout, d: Path)
    requires d != [] && d[0] == "mnt"
    ensures !Under(d, l.RollbackUpload()) && l.RollbackUpload() !in Prefixes(d)
    ensures !Under(d, l.CandidateArchive()) && l.CandidateArchive() !in Prefixes(d)
  {
    assert l.RollbackUpload()[0] == "tmp" && l.CandidateArchive()[0] == "tmp";
  }

  /** The tree that staging leaves. */
  function Prepared(tools: Tools, l: Layout, id: ArchiveIdentity, rollback: Content, sub: Tree, t: Tree): Tree {
    WithArchive(tools, l, id, rollback, UnpackedAt(MakeDirs(t, l.BackupRoot()), l.CandidateSource(), sub))
  }

  function UnpackCandidateScript(l: Layout, id: ArchiveIdentity): seq<Command> {
    UnpackScript(l.CandidateArchive(), l.CandidateSource(), id.candidateManifestSha, id.candidateVersion)
  }

  lemma {:induction false} CandidateUnpacksExactly(
    tools: Tools, l: Layout, id: ArchiveIdentity, candidate: Content, t: Tree)
    requires MayMake(t, l.BackupRoot()) && l.CandidateArchive() in t && t[l.CandidateArchive()] == File(candidate)
    ensures AfterAll(tools, t, UnpackCandidateScript(l, id)) ==
            if IsPackage(tools, candidate, id.candidateManifestSha, id.candidateVersion)
            then Some(UnpackedAt(t, l.CandidateSource(), tools.unpack(candidate).value)) else None
  {
    KeptIsBeside(l, "candidate-source");
    UploadIsFar(l, l.CandidateSource());
    UnpackRunsExactly(tools, t, l.CandidateArchive(), l.CandidateSource(), id.candidateManifestSha,
                      id.candidateVersion);
  }

  lemma {:induction false} UnpackAndSecureExactly(
    tools: Tools, l: Layout, id: ArchiveIdentity, candidate: Content, rollback: Content, t: Tree)
    requires HasRoom(l, t, {}, rollback) && l.CandidateArchive() in t && t[l.CandidateArchive()] == File(candidate)
    requires tools.sha256(rollback) == id.rollbackArchiveSha
    ensures AfterAll(tools, t, UnpackCandidateScript(l, id) + SecureRollback(l, id)) ==
            if IsPackage(tools, candidate, id.candidateManifestSha, id.candidateVersion)
            then Some(WithArchive(tools, l, id, rollback,
                                  UnpackedAt(t, l.CandidateSource(), tools.unpack(candidate).value))) else None
  {
    CandidateUnpacksExactly(tools, l, id, candidate, t);
    AfterJoin(tools, t, UnpackCandidateScript(l, id), SecureRollback(l, id));
    if IsPackage(tools, candidate, id.candidateManifestSha, id.candidateVersion) {
      var sub := tools.unpack(candidate).value;
      UnpackedIsRoomy(l, t, rollback, sub);
      SecuringRunsThrough(tools, l, id, UnpackedAt(t, l.CandidateSource(), sub), rollback);
    }
  }

  lemma PrepareIsUnpacking(l: Layout, id: ArchiveIdentity)
    ensures Prepare(l, id) == CheckUploads(l, id) + (UnpackCandidateScript(l, id) + SecureRollback(l, id))
  {
    assert StageCandidate(l, id) == CheckUploads(l, id) + UnpackCandidateScript(l, id);
  }

  /** With both archives delivered, staging runs through exactly if the candidate is the package it
      says it is. */
  lemma {:induction false} PrepareRunsExactly(
    tools: Tools, l: Layout, id: ArchiveIdentity, candidate: Content, rollback: Content, t: Tree)
    requires HasRoom(l, t, {}, rollback) && l.CandidateArchive() in t && t[l.CandidateArchive()] == File(candidate)
    requires tools.sha256(candidate) == id.candidateArchiveSha && tools.sha256(rollback) == id.rollbackArchiveSha
    ensures AfterAll(tools, t, Prepare(l, id)) ==
            if IsPackage(tools, candidate, id.candidateManifestSha, id.candidateVersion)
            then Some(Prepared(tools, l, id, rollback, tools.unpack(candidate).value, t)) else None
  {
    var made := MakeDirs(t, l.BackupRoot());
    UploadsAreChecked(tools, l, id, candidate, rollback, t);
    PrepareIsUnpacking(l, id);
    AfterJoin(tools, t, CheckUploads(l, id), UnpackCandidateScript(l, id) + SecureRollback(l, id));
    UnpackAndSecureExactly(tools, l, id, candidate, rollback, made);
  }

  /** What staging leaves for activation and rollback. */
  predicate IsReadyToActivate(l: Layout, t: Tree, rollback: Content) {
    && IsFile(t, l.CandidateSource() + [MANIFEST]) && MayInstall(t, l.CandidateSource())
    && l.DurableArchive() in t && t[l.DurableArchive()] == File(rollback)
    && forall q :: q in Prefixes(l.BackupRoot()) ==> IsDir(t, q)
  }

  lemma WithArchiveElsewhere(tools: Tools, l: Layout, id: ArchiveIdentity, rollback: Content, t: Tree, q: Path)
    requires |q| != 7 || q[6] == "candidate-source"
    ensures SameAt(t, WithArchive(tools, l, id, rollback, t), q)
  {
    SecuredNamesDiffer();
    KeptNames(l);
    assert l.PreviousSource()[6] == "source-before-deploy.tar" && l.Identity()[6] == "deployment-identity.txt";
    assert |"source-before-deploy.tar"| == 24 && |"deployment-identity.txt"| == 23 && |"candidate-source"| == 16;
    assert l.DurableArchive()[6] == DURABLE;
  }

  lemma WithArchiveHolds(tools: Tools, l: Layout, id: ArchiveIdentity, rollback: Content, t: Tree)
    ensures var u := WithArchive(tools, l, id, rollback, t);
            l.DurableArchive() in u && u[l.DurableArchive()] == File(rollback)
  {
    KeptNames(l);
    assert l.DurableArchive()[6] == DURABLE && l.Identity()[6] == "deployment-identity.txt";
    assert |"deployment-identity.txt"| == 23;
  }

  /** The last three files of staging disturb nothing. */
  lemma WithArchiveIsReady(tools: Tools, l: Layout, id: ArchiveIdentity, rollback: Content, t: Tree)
    requires IsFile(t, l.CandidateSource() + [MANIFEST]) && IsDir(t, l.CandidateSource())
    requires IsDir(t, Parent(ADDON_SOURCE)) && forall q :: q in Prefixes(l.BackupRoot()) ==> IsDir(t, q)
    ensures IsReadyToActivate(l, WithArchive(tools, l, id, rollback, t), rollback)
  {
    var u := WithArchive(tools, l, id, rollback, t);
    WithArchiveHolds(tools, l, id, rollback, t);
    WithArchiveElsewhere(tools, l, id, rollback, t, l.CandidateSource() + [MANIFEST]);
    WithArchiveElsewhere(tools, l, id, rollback, t, l.CandidateSource());
    WithArchiveElsewhere(tools, l, id, rollback, t, Parent(ADDON_SOURCE));
    forall q | q in Prefixes(l.BackupRoot())
      ensures IsDir(u, q)
    {
      assert |q| <= 6;
      WithArchiveElsewhere(tools, l, id, rollback, t, q);
    }
  }

  lemma PreparedIsReady(tools: Tools, l: Layout, id: ArchiveIdentity, rollback: Content, sub: Tree, t: Tree)
    requires MayMake(t, l.BackupRoot()) && IsDir(t, Parent(ADDON_SOURCE))
    requires [] !in sub && [MANIFEST] in sub && sub[[MANIFEST]].File? && [CONFIG] in sub
    ensures IsReadyToActivate(l, Prepared(tools, l, id, rollback, sub, t), rollback)
  {
    var made, d := MakeDirs(t, l.BackupRoot()), l.CandidateSource();
    KeptIsBeside(l, "candidate-source");
    UnpackedHolds(made, d, sub, [MANIFEST]);
    UnpackedMayBeInstalled(made, d, sub);
    UnpackedBackups(l, made, sub);
    WithArchiveIsReady(tools, l, id, rollback, UnpackedAt(made, d, sub));
  }

  // ---------------------------------------------------------------------------
  // What staging records, and what cleanup removes
  // ---------------------------------------------------------------------------

  lemma OneMoreLine(line: string, rest: seq<string>)
    ensures Unlines([line] + rest) == line + "\n" + Unlines(rest)
  {
    assert ([line] + rest)[1..] == rest;
  }

  lemma SixLines(a: string, b: string, c: string, d: string, e: string, f: string)
    ensures Unlines([a, b, c, d, e, f]) ==
            a + "\n" + (b + "\n" + (c + "\n" + (d + "\n" + (e + "\n" + (f + "\n")))))
  {
    OneMoreLine(a, [b, c, d, e, f]);
    OneMoreLine(b, [c, d, e, f]);
    OneMoreLine(c, [d, e, f]);
    OneMoreLine(d, [e, f]);
    OneMoreLine(e, [f]);
    OneMoreLine(f, []);
    assert [a, b, c, d, e, f] == [a] + [b, c, d, e, f] && [b, c, d, e, f] == [b] + [c, d, e, f];
    assert [c, d, e, f] == [c] + [d, e, f] && [d, e, f] == [d] + [e, f] && [e, f] == [e] + [f] && [f] == [f] + [];
    assert f + "\n" + Unlines([]) == f + "\n";
  }

  /** The record of a deployment, line by line. */
  lemma IdentityExactly(id: ArchiveIdentity)
    ensures IdentityText(id) ==
            "schema_version=1" + "\n"
            + ("candidate_commit=" + id.candidateCommit + "\n"
               + ("candidate_manifest=" + id.candidateManifestSha + "\n"
                  + ("rollback_commit=" + ROLLBACK_COMMIT + "\n"
                     + ("rollback_manifest=" + ROLLBACK_MANIFEST_SHA256 + "\n"
                        + ("rollback_archive=" + id.rollbackArchiveSha + "\n")))))
  {
    SixLines("schema_version=1", "candidate_commit=" + id.candidateCommit,
             "candidate_manifest=" + id.candidateManifestSha, "rollback_commit=" + ROLLBACK_COMMIT,
             "rollback_manifest=" + ROLLBACK_MANIFEST_SHA256, "rollback_archive=" + id.rollbackArchiveSha);
  }

  /** Cleanup runs through on every guest, and removes the temporary directory and both unpacked
      sources and nothing else. */
  lemma {:induction false} CleanupRemovesExactly(tools: Tools, l: Layout, t: Tree, a: ScriptAnswer)
    requires a.breaksAt >= 4
    ensures var u := TreeAfter(tools, t, Cleanup(l), a);
            forall q :: if Under(l.TemporaryRoot(), q) || Under(l.CandidateSource(), q) || Under(l.RollbackSource(), q)
                        then q !in u else SameAt(t, u, q)
  {
    var first := RemoveAll(t, l.TemporaryRoot());
    var second := RemoveAll(first, l.CandidateSource());
    var third := RemoveAll(second, l.RollbackSource());
    var done := Marker("temporary_files_removed");
    AfterThree(tools, first, RmRf(l.CandidateSource()), second, RmRf(l.RollbackSource()), third, done, third);
    AfterOne(tools, t, RmRf(l.TemporaryRoot()));
    AfterJoin(tools, t, [RmRf(l.TemporaryRoot())], [RmRf(l.CandidateSource()), RmRf(l.RollbackSource()), done]);
    assert Cleanup(l) ==
           [RmRf(l.TemporaryRoot())] + [RmRf(l.CandidateSource()), RmRf(l.RollbackSource()), done];
    RunsThroughExactly(tools, t, Cleanup(l), a.breaksAt, a.partial);
  }

  // ---------------------------------------------------------------------------
  // The deployment
  // ---------------------------------------------------------------------------

  /** The script is not broken off and its marker arrives. */
  predicate IsUndisturbed(a: ScriptAnswer, commands: nat) { a.breaksAt >= commands && a.markerArrives }

  lemma {:induction false} AcknowledgedExactly(tools: Tools, t: Tree, script: seq<Command>, a: ScriptAnswer)
    ensures Acknowledged(tools, t, script, a) <==>
            AfterAll(tools, t, script).Some? && IsUndisturbed(a, |script|)
    ensures Acknowledged(tools, t, script, a) ==> AfterAll(tools, t, script) == Some(TreeAfter(tools, t, script, a))
  {
    RunsThroughExactly(tools, t, script, a.breaksAt, a.partial);
  }

  lemma {:induction false} UploadsExactly(tools: Tools, t: Tree, bundle: Bundle, l: Layout, w: World)
    requires IsOrdinary(l, t)
    ensures Uploads(tools, t, bundle, l, w) <==>
            && IsUndisturbed(w.initialize, 3) && IsUndisturbed(w.candidateUpload, 1)
            && IsUndisturbed(w.rollbackUpload, 1)
    ensures Uploads(tools, t, bundle, l, w) ==>
              UploadedTree(tools, t, bundle, l, w) == Delivered(l, bundle.candidateArchive, bundle.rollbackArchive, t)
  {
    UploadsRunThrough(tools, l, bundle.candidateArchive, bundle.rollbackArchive, t);
    AcknowledgedExactly(tools, t, Initialize(l), w.initialize);
    AcknowledgedExactly(tools, InitializedTree(tools, t, l, w),
                        [WriteFile(l.CandidateArchive(), bundle.candidateArchive)], w.candidateUpload);
    AcknowledgedExactly(tools, HalfUploadedTree(tools, t, bundle, l, w),
                        [WriteFile(l.RollbackUpload(), bundle.rollbackArchive)], w.rollbackUpload);
  }

  /** On an ordinary guest staging succeeds exactly if nothing disturbs it and the candidate archive
      is the package it says it is. */
  lemma {:induction false} StagesExactly(
    tools: Tools, t: Tree, options: Options, bundle: Bundle, l: Layout, w: World)
    requires var id := IdentityOf(tools, options, bundle);
             ValidIdentity(id) && LayoutMatches(l, id) && IsOrdinary(l, t)
    ensures Stages(tools, t, options, bundle, l, w) <==>
            && IsUndisturbed(w.initialize, 3) && IsUndisturbed(w.candidateUpload, 1)
            && IsUndisturbed(w.rollbackUpload, 1) && IsUndisturbed(w.prepare, 16)
            && IsPackage(tools, bundle.candidateArchive, bundle.candidateManifestSha, bundle.candidateVersion)
    ensures Stages(tools, t, options, bundle, l, w) ==>
              IsReadyToActivate(l, StagedTree(tools, t, options, bundle, l, w), bundle.rollbackArchive)
  {
    var id, u := IdentityOf(tools, options, bundle), UploadedTree(tools, t, bundle, l, w);
    UploadsExactly(tools, t, bundle, l, w);
    if Uploads(tools, t, bundle, l, w) {
      DeliveredAt(l, bundle.candidateArchive, bundle.rollbackArchive, t);
      DeliveredHasRoom(l, bundle.candidateArchive, bundle.rollbackArchive, t);
      PrepareRunsExactly(tools, l, id, bundle.candidateArchive, bundle.rollbackArchive, u);
      AcknowledgedExactly(tools, u, Prepare(l, id), w.prepare);
      if IsPackage(tools, bundle.candidateArchive, bundle.candidateManifestSha, bundle.candidateVersion) {
        PreparedIsReady(tools, l, id, bundle.rollbackArchive, tools.unpack(bundle.candidateArchive).value, u);
      }
    }
  }

  // After any activation, whether it ran through or not.

  /** Every end of a script is the end of one of its runs. */
  lemma {:induction false} TraceOf(tools: Tools, t: Tree, script: seq<Command>, breaksAt: nat, partial: Tree)
    returns (trace: seq<Tree>, done: nat)
    ensures IsRun(tools, script, trace, done) && trace[0] == t
    ensures trace[|trace| - 1] == RunFrom(tools, t, script, breaksAt, partial).0
    decreases |script|
  {
    if script == [] {
      return [t], 0;
    }
    var effect := Effect(tools, t, script[0]);
    if breaksAt == 0 || effect.None? {
      trace, done := [t, LeftBy(t, script[0], partial)], 0;
      return;
    }
    var rest, after := TraceOf(tools, effect.value, script[1..], breaksAt - 1, partial);
    trace, done := [t] + rest, after + 1;
    forall i | 0 <= i < |trace| - 1
      ensures Ran(tools, trace[i], script[i], trace[i + 1], i < done)
    {
      if i > 0 { assert Ran(tools, rest[i - 1], script[1..][i - 1], rest[i - 1 + 1], i - 1 < after); }
    }
  }

  /** And every run is one that the guest may take: wherever it stops, and whatever it leaves of the
      command that failed. */
  lemma {:induction false} AnswerOf(tools: Tools, script: seq<Command>, trace: seq<Tree>, done: nat)
    returns (breaksAt: nat, partial: Tree)
    requires IsRun(tools, script, trace, done)
    ensures RunFrom(tools, trace[0], script, breaksAt, partial) == (trace[|trace| - 1], done == |script|)
    decreases |script|
  {
    if done == 0 {
      breaksAt, partial := 0, trace[|trace| - 1];
      if script != [] {
        assert |trace| == 2 ==> Ran(tools, trace[0], script[0], trace[1], false);
        assert Frames(trace[0], script[0], trace[0]);
      }
      return;
    }
    assert Ran(tools, trace[0], script[0], trace[1], true);
    forall i | 0 <= i < |trace| - 2
      ensures Ran(tools, trace[1..][i], script[1..][i], trace[1..][i + 1], i < done - 1)
    {
      assert Ran(tools, trace[i + 1], script[i + 1], trace[i + 2], i + 1 < done);
    }
    var stop, left := AnswerOf(tools, script[1..], trace[1..], done - 1);
    breaksAt, partial := stop + 1, left;
  }

  /** What the rollback needs. */
  predicate MayRestore(l: Layout, t: Tree, rollback: Content) {
    && l.DurableArchive() in t && t[l.DurableArchive()] == File(rollback) && IsDir(t, Parent(ADDON_SOURCE))
    && forall q :: q in Prefixes(l.BackupRoot()) ==> IsDir(t, q)
  }

  lemma {:induction false} ActivationLeavesRestorable(
    tools: Tools, l: Layout, t: Tree, rollback: Content, a: ScriptAnswer)
    requires IsReadyToActivate(l, t, rollback)
    ensures MayRestore(l, TreeAfter(tools, t, Activate(l), a), rollback)
  {
    var script := Activate(l);
    var trace, done := TraceOf(tools, t, script, a.breaksAt, a.partial);
    LaterScriptsSpareArchive(l, "");
    ActivationSparesBackups(l);
    AwaySpares(script, l.DurableArchive());
    RunKeepsUntouched(tools, script, trace, done, l.DurableArchive(), |trace| - 1);
    AwaySpares(script, Parent(ADDON_SOURCE));
    RunKeepsUntouched(tools, script, trace, done, Parent(ADDON_SOURCE), |trace| - 1);
    forall q | q in Prefixes(l.BackupRoot())
      ensures IsDir(trace[|trace| - 1], q)
    {
      AwaySpares(script, q);
      RunKeepsUntouched(tools, script, trace, done, q, |trace| - 1);
    }
  }

  lemma ActivationSparesBackups(l: Layout)
    ensures ScriptWritesAwayFrom(Activate(l), Parent(ADDON_SOURCE))
    ensures forall q :: q in Prefixes(l.BackupRoot()) ==> ScriptWritesAwayFrom(Activate(l), q)
  {
    forall q | q in Prefixes(l.BackupRoot())
      ensures ScriptWritesAwayFrom(Activate(l), q)
    {
      assert |q| <= 6 && |l.CandidateSource()| == 7 && |ADDON_SOURCE + [CONFIG]| == 7 && |ADDON_SOURCE| == 6;
      assert |q| == 6 ==> q[3] == "backup" && ADDON_SOURCE[3] == "apps";
    }
  }

  /** On an ordinary guest, once staged: activation is acknowledged exactly if nothing disturbs it;
      and wherever it broke off, the rollback is acknowledged exactly if nothing disturbs it and the
      rollback archive is the package of the rollback release. */
  lemma {:induction false} ScriptsAcknowledgedExactly(
    tools: Tools, t: Tree, options: Options, bundle: Bundle, l: Layout, w: World)
    requires IsOrdinary(l, t) && Stages(tools, t, options, bundle, l, w)
    ensures var staged := StagedTree(tools, t, options, bundle, l, w);
            && (Acknowledged(tools, staged, Activate(l), w.activate) <==> IsUndisturbed(w.activate, 5))
            && (Acknowledged(tools, TreeAfter(tools, staged, Activate(l), w.activate),
                             RollbackSource(l, tools.sha256(bundle.rollbackArchive)), w.rollback) <==>
                && IsUndisturbed(w.rollback, 10)
                && IsPackage(tools, bundle.rollbackArchive, ROLLBACK_MANIFEST_SHA256, ROLLBACK_VERSION))
  {
    var staged, sha := StagedTree(tools, t, options, bundle, l, w), tools.sha256(bundle.rollbackArchive);
    var left := TreeAfter(tools, staged, Activate(l), w.activate);
    StagesExactly(tools, t, options, bundle, l, w);
    ActivationRunsExactly(tools, l, staged);
    AcknowledgedExactly(tools, staged, Activate(l), w.activate);
    ActivationLeavesRestorable(tools, l, staged, bundle.rollbackArchive, w.activate);
    RollbackRunsExactly(tools, l, sha, left);
    AcknowledgedExactly(tools, left, RollbackSource(l, sha), w.rollback);
  }

  /** The Supervisor does as it is asked and reports back, a probe answers, and the app reads as
      the version installed. */
  predicate IsObliging(s: SupervisorAnswer, c: CheckAnswer, version: string, slug: string) {
    && s.reloads && s.finishes && c.appReads && (exists i :: 0 <= i < |c.probes| && i < 30 && c.probes[i])
    && s.app == AppInfo(slug, version, "started", "auto", "local", true, "profile", true)
  }

  lemma ObligingInstalls(tools: Tools, t: Tree, script: seq<Command>, version: string, slug: string,
                         a: ScriptAnswer, s: SupervisorAnswer, c: CheckAnswer)
    ensures Installs(tools, t, script, version, slug, a, s, c) <==>
            Acknowledged(tools, t, script, a) && IsObliging(s, c, version, slug)
  {
  }

  /** An ordinary guest, a candidate that is what it says, and staging undisturbed: the candidate is
      activated exactly if nothing disturbs activation and the Supervisor obliges with the candidate;
      and wherever that broke off, the rollback succeeds exactly if nothing disturbs it, the archive
      is the genuine rollback release, and the Supervisor obliges with that. */
  lemma {:induction false} OrdinaryRunSucceedsExactly(
    tools: Tools, t: Tree, options: Options, bundle: Bundle, l: Layout, w: World)
    requires var id := IdentityOf(tools, options, bundle);
             ValidIdentity(id) && LayoutMatches(l, id) && IsOrdinary(l, t)
    requires IsPackage(tools, bundle.candidateArchive, bundle.candidateManifestSha, bundle.candidateVersion)
    requires IsUndisturbed(w.initialize, 3) && IsUndisturbed(w.candidateUpload, 1)
    requires IsUndisturbed(w.rollbackUpload, 1) && IsUndisturbed(w.prepare, 16)
    ensures Stages(tools, t, options, bundle, l, w)
    ensures Activates(tools, StagedTree(tools, t, options, bundle, l, w), options, bundle, l, w) <==>
            && IsUndisturbed(w.activate, 5)
            && IsObliging(w.update, w.check, options.candidateVersion, options.addonSlug)
            && w.check.manifestReads && w.update.manifestSha == bundle.candidateManifestSha
    ensures var staged := StagedTree(tools, t, options, bundle, l, w);
            Restores(tools, TreeAfter(tools, staged, Activate(l), w.activate), options, bundle, l, w) <==>
            && IsUndisturbed(w.rollback, 10) && IsObliging(w.rebuild, w.recheck, "0.1.93", options.addonSlug)
            && IsPackage(tools, bundle.rollbackArchive, ROLLBACK_MANIFEST_SHA256, "0.1.93")
            && w.runtimeReads && w.rebuild.runtimeSha == ROLLBACK_RUNTIME_SHA256
  {
    StagesExactly(tools, t, options, bundle, l, w);
    ScriptsAcknowledgedExactly(tools, t, options, bundle, l, w);
    var staged, sha := StagedTree(tools, t, options, bundle, l, w), tools.sha256(bundle.rollbackArchive);
    ObligingInstalls(tools, staged, Activate(l), options.candidateVersion, options.addonSlug,
                     w.activate, w.update, w.check);
    ObligingInstalls(tools, TreeAfter(tools, staged, Activate(l), w.activate), RollbackSource(l, sha),
                     ROLLBACK_VERSION, options.addonSlug, w.rollback, w.rebuild, w.recheck);
  }
}
