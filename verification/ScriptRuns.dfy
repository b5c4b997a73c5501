/**
 Running scripts without interruption: what single commands do to the places they name, and what
 several commands come to (tools/haos-candidate-deploy-core.ts:205-289).

 `AfterAll` is the tree a script leaves when every command succeeds, and None as soon as one cannot.
 The rest are small facts for putting such runs together: a path below which nothing is, a directory
 made where none was, a file written beside its place and renamed into it, an archive unpacked, and
 the names taken below the backup directory of one deployment.  The script of staging is cut into
 the parts that the run of it is argued in.
 */
module ScriptRuns {
  import opened Wrappers
  import opened RemoteTree
  import opened DeployScripts

  predicate IsVacant(t: Tree, p: Path) { forall q :: q in t ==> !Under(p, q) }

  lemma RemoveNothing(t: Tree, p: Path)
    requires IsVacant(t, p)
    ensures RemoveAll(t, p) == t
  {
  }

  lemma MakePresentDirs(tools: Tools, t: Tree, p: Path)
    requires forall q :: q in Prefixes(p) ==> IsDir(t, q)
    ensures Effect(tools, t, MkdirP(p)) == Some(t)
  {
    assert MakeDirs(t, p) == t;
  }

  lemma MakeOneDir(tools: Tools, t: Tree, p: Path)
    requires p != [] && p !in t && forall q :: q in Prefixes(Parent(p)) ==> IsDir(t, q)
    ensures Effect(tools, t, MkdirP(p)) == Some(t[p := Dir])
  {
    forall q | q in Prefixes(p) && q != p
      ensures IsDir(t, q)
    {
      assert q == Parent(p)[..|q|] && q in Prefixes(Parent(p));
    }
    assert p == p[..|p|] && p in Prefixes(p);
    assert MakeDirs(t, p) == t[p := Dir];
  }

  lemma MvMoves(tools: Tools, t: Tree, from: Path, to: Path, target: Path)
    requires from in t && target == Target(t, from, to) && target !in t
    requires !Under(from, target) && IsDir(t, Parent(target))
    ensures Effect(tools, t, Mv(from, to)) == Some(Move(t, from, target))
  {
  }

  /** Moving a file that nothing else is named after to a path where nothing is. */
  lemma MoveFreshFile(t: Tree, from: Path, to: Path, content: Content)
    requires IsVacant(t, from) && IsVacant(t, to) && !Under(from, to) && !Under(to, from)
    ensures Move(t[from := File(content)], from, to) == t[to := File(content)]
  {
    var full := t[from := File(content)];
    assert Under(from, from) && from[|from|..] == [] && from + [] == from && to + [] == to;
    assert RemoveAll(RemoveAll(full, from), to) == t;
    assert Below(full, from) == map[[] := File(content)] by {
      forall q | q in full && Under(from, q)
        ensures q == from
      {
      }
    }
    assert Under(to, to) && to[|to|..] == [];
  }

  /** A file written beside its place and then renamed is the file written in place. */
  lemma RenameFreshFile(tools: Tools, t: Tree, from: Path, to: Path, content: Content)
    requires IsVacant(t, from) && IsVacant(t, to) && !Under(from, to) && !Under(to, from)
    requires from != [] && IsDir(t, Parent(to))
    ensures Effect(tools, t[from := File(content)], Mv(from, to)) == Some(t[to := File(content)])
  {
    assert Under(to, to) && Under(from, from);
    var full := t[from := File(content)];
    assert Target(full, from, to) == to && to !in full && IsDir(full, Parent(to));
    MvMoves(tools, full, from, to, to);
    MoveFreshFile(t, from, to, content);
  }

  function AfterAll(tools: Tools, t: Tree, script: seq<Command>): Option<Tree>
    decreases |script|
  {
    if script == [] then Some(t)
    else
      match Effect(tools, t, script[0])
      case None => None
      case Some(u) => AfterAll(tools, u, script[1..])
  }

  lemma {:induction false} AfterBoth(tools: Tools, t: Tree, first: seq<Command>, u: Tree, second: seq<Command>)
    requires AfterAll(tools, t, first) == Some(u)
    ensures AfterAll(tools, t, first + second) == AfterAll(tools, u, second)
    decreases |first|
  {
    if first == [] {
      assert first + second == second;
    } else {
      assert (first + second)[1..] == first[1..] + second;
      AfterBoth(tools, Effect(tools, t, first[0]).value, first[1..], u, second);
    }
  }

  lemma AfterParts(
    tools: Tools, t: Tree, a: seq<Command>, u: Tree, b: seq<Command>, v: Tree, c: seq<Command>, w: Tree)
    requires AfterAll(tools, t, a) == Some(u) && AfterAll(tools, u, b) == Some(v) && AfterAll(tools, v, c) == Some(w)
    ensures AfterAll(tools, t, a + (b + c)) == Some(w)
  {
    AfterBoth(tools, u, b, v, c);
    AfterBoth(tools, t, a, u, b + c);
  }

  lemma AfterTwo(tools: Tools, t: Tree, a: Command, u: Tree, b: Command, v: Tree)
    requires Effect(tools, t, a) == Some(u) && Effect(tools, u, b) == Some(v)
    ensures AfterAll(tools, t, [a, b]) == Some(v)
  {
    assert [a, b][1..] == [b] && [b][1..] == [];
    assert AfterAll(tools, u, [b]) == Some(v);
  }

  lemma AfterThree(tools: Tools, t: Tree, a: Command, u: Tree, b: Command, v: Tree, c: Command, w: Tree)
    requires Effect(tools, t, a) == Some(u) && Effect(tools, u, b) == Some(v) && Effect(tools, v, c) == Some(w)
    ensures AfterAll(tools, t, [a, b, c]) == Some(w)
  {
    AfterTwo(tools, u, b, v, c, w);
    assert [a, b, c][1..] == [b, c];
  }

  /** Commands that all succeed make a completed run. */
  lemma {:induction false} RunOf(tools: Tools, t: Tree, script: seq<Command>, u: Tree) returns (trace: seq<Tree>)
    requires AfterAll(tools, t, script) == Some(u)
    ensures IsRun(tools, script, trace, |script|) && Completed(script, trace, |script|)
    ensures trace[0] == t && trace[|script|] == u
    decreases |script|
  {
    if script == [] {
      trace := [t];
    } else {
      var next := Effect(tools, t, script[0]).value;
      var rest := RunOf(tools, next, script[1..], u);
      trace := [t] + rest;
      forall i | 0 <= i < |trace| - 1
        ensures Ran(tools, trace[i], script[i], trace[i + 1], i < |script|)
      {
        if i > 0 {
          assert Ran(tools, rest[i - 1], script[1..][i - 1], rest[i - 1 + 1], i - 1 < |script[1..]|);
        }
      }
    }
  }

  /** Below the backup root nothing but these names is taken. */
  predicate OnlyTaken(l: Layout, t: Tree, names: set<string>) {
    forall q :: q in t && Under(l.BackupRoot(), q) && |q| > 6 ==> q[6] in names
  }

  lemma UnderKept(l: Layout, name: string, q: Path)
    requires Under(l.Kept(name), q)
    ensures Under(l.BackupRoot(), q) && |q| > 6 && q[6] == name
  {
    UnderAt(l.Kept(name), q, 6);
    assert q[..6] == l.Kept(name)[..6] == l.BackupRoot();
  }

  lemma FreeNameIsVacant(l: Layout, t: Tree, names: set<string>, name: string)
    requires OnlyTaken(l, t, names) && name !in names
    ensures IsVacant(t, l.Kept(name)) && l.Kept(name) !in t
  {
    forall q | Under(l.Kept(name), q)
      ensures q !in t
    {
      UnderKept(l, name, q);
    }
    assert Under(l.Kept(name), l.Kept(name));
  }

  lemma TakeName(l: Layout, t: Tree, names: set<string>, p: Path, node: Node)
    requires OnlyTaken(l, t, names) && |p| > 6
    ensures OnlyTaken(l, t[p := node], names + {p[6]})
  {
  }

  lemma ClearAndMake(tools: Tools, t: Tree, c: Path)
    requires IsVacant(t, c) && c != [] && c !in t && forall q :: q in Prefixes(Parent(c)) ==> IsDir(t, q)
    ensures AfterAll(tools, t, [RmRf(c), MkdirP(c)]) == Some(t[c := Dir])
  {
    RemoveNothing(t, c);
    MakeOneDir(tools, t, c);
    AfterTwo(tools, t, RmRf(c), t, MkdirP(c), t[c := Dir]);
  }

  lemma UntarEffect(tools: Tools, t: Tree, archive: Path, c: Path, members: Tree)
    requires archive in t && t[archive].File? && IsDir(t, c)
    requires tools.unpack(t[archive].content) == Some(members) && [] !in members
    ensures Effect(tools, t, Untar(archive, c)) == Some(Place(t, c, members))
  {
  }

  lemma WhenPresent(tools: Tools, t: Tree, dir: Path, c: Command)
    requires IsDir(t, dir)
    ensures Effect(tools, t, WhenDir(dir, c)) == Effect(tools, t, c)
  {
  }

  lemma TarEffect(tools: Tools, t: Tree, dir: Path, archive: Path)
    requires IsDir(t, dir) && IsDir(t, Parent(archive)) && archive !in t
    ensures Effect(tools, t, TarDir(dir, archive)) == Some(t[archive := File(tools.pack(Below(t, dir)))])
  {
  }

  lemma TarAndRename(tools: Tools, t: Tree, dir: Path, from: Path, to: Path)
    requires IsVacant(t, from) && IsVacant(t, to) && !Under(from, to) && !Under(to, from) && from != [] && from !in t
    requires IsDir(t, dir) && IsDir(t, Parent(from)) && IsDir(t, Parent(to)) && dir != from
    ensures AfterAll(tools, t, [WhenDir(dir, TarDir(dir, from)), WhenDir(dir, Mv(from, to))])
            == Some(t[to := File(tools.pack(Below(t, dir)))])
  {
    var packed := tools.pack(Below(t, dir));
    var archived := t[from := File(packed)];
    RenameFreshFile(tools, t, from, to, packed);
    TarEffect(tools, t, dir, from);
    WhenPresent(tools, t, dir, TarDir(dir, from));
    WhenPresent(tools, archived, dir, Mv(from, to));
    AfterTwo(tools, t, WhenDir(dir, TarDir(dir, from)), archived, WhenDir(dir, Mv(from, to)),
             t[to := File(packed)]);
  }

  lemma WriteEffect(tools: Tools, t: Tree, p: Path, text: Content)
    requires IsDir(t, Parent(p)) && p !in t
    ensures Effect(tools, t, WriteFile(p, text)) == Some(t[p := File(text)])
  {
  }

  lemma MarkerEffect(tools: Tools, t: Tree, marker: string)
    ensures Effect(tools, t, Marker(marker)) == Some(t)
  {
  }

  lemma WriteAndRename(tools: Tools, t: Tree, from: Path, to: Path, text: Content, marker: string)
    requires IsVacant(t, from) && IsVacant(t, to) && !Under(from, to) && !Under(to, from) && from != [] && from !in t
    requires IsDir(t, Parent(from)) && IsDir(t, Parent(to))
    ensures AfterAll(tools, t, [WriteFile(from, text), Mv(from, to), Marker(marker)]) == Some(t[to := File(text)])
  {
    var written, moved := t[from := File(text)], t[to := File(text)];
    assert Effect(tools, t, WriteFile(from, text)) == Some(written) by { WriteEffect(tools, t, from, text); }
    assert Effect(tools, written, Mv(from, to)) == Some(moved) by { RenameFreshFile(tools, t, from, to, text); }
    assert Effect(tools, moved, Marker(marker)) == Some(moved) by { MarkerEffect(tools, moved, marker); }
    AfterThree(tools, t, WriteFile(from, text), written, Mv(from, to), moved, Marker(marker), moved);
  }

  // ---------------------------------------------------------------------------
  // Staging, part by part
  // ---------------------------------------------------------------------------

  const DURABLE := "rollback-" + ROLLBACK_COMMIT + ".tgz"
  const DURABLE_TMP := "rollback-" + ROLLBACK_COMMIT + ".tgz.tmp"

  lemma KeptNames(l: Layout)
    ensures l.CandidateSource() == l.Kept("candidate-source")
    ensures l.PreviousTmp() == l.Kept("source-before-deploy.tar.tmp")
            && l.PreviousSource() == l.Kept("source-before-deploy.tar")
    ensures l.DurableArchive() == l.Kept(DURABLE) && l.DurableTmp() == l.Kept(DURABLE_TMP)
    ensures l.IdentityTmp() == l.Kept("deployment-identity.txt.tmp")
            && l.Identity() == l.Kept("deployment-identity.txt")
    ensures |DURABLE| == 53 && |DURABLE_TMP| == 57
  {
    assert |ROLLBACK_COMMIT| == 40;
  }

  function CheckUploads(l: Layout, id: ArchiveIdentity): seq<Command> {
    [HashCheck(l.CandidateArchive(), id.candidateArchiveSha), HashCheck(l.RollbackUpload(), id.rollbackArchiveSha),
     MkdirP(l.BackupRoot())]
  }

  function MakeRoom(l: Layout): seq<Command> { [RmRf(l.CandidateSource()), MkdirP(l.CandidateSource())] }

  function UnpackCandidate(l: Layout, id: ArchiveIdentity): seq<Command> {
    var c := l.CandidateSource();
    [Untar(l.CandidateArchive(), c), HashCheck(c + [MANIFEST], id.candidateManifestSha),
     GrepVersion(c + [CONFIG], id.candidateVersion)]
  }

  function SaveSource(l: Layout): seq<Command> {
    [WhenDir(ADDON_SOURCE, TarDir(ADDON_SOURCE, l.PreviousTmp())),
     WhenDir(ADDON_SOURCE, Mv(l.PreviousTmp(), l.PreviousSource()))]
  }

  function SecureCopy(l: Layout, id: ArchiveIdentity): seq<Command> {
    [Cp(l.RollbackUpload(), l.DurableTmp()), HashCheck(l.DurableTmp(), id.rollbackArchiveSha),
     Mv(l.DurableTmp(), l.DurableArchive())]
  }

  function RecordDone(l: Layout, id: ArchiveIdentity): seq<Command> {
    [WriteFile(l.IdentityTmp(), IdentityText(id)), Mv(l.IdentityTmp(), l.Identity()), Marker("stage_ready")]
  }

  lemma PrepareParts(l: Layout, id: ArchiveIdentity)
    ensures StageCandidate(l, id) == CheckUploads(l, id) + (MakeRoom(l) + UnpackCandidate(l, id))
    ensures SecureRollback(l, id) == SaveSource(l) + (SecureCopy(l, id) + RecordDone(l, id))
  {
  }
}
