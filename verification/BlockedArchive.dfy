/**
 A run in which a directory sits at the durable archive path: staging completes, the archive
 ends up inside the directory, and activation then removes the source with nothing to restore
 it from (tools/haos-candidate-deploy-core.ts:216-263).

 The guest is any with both archives uploaded, an add-on source, and nothing in the backup
 directory but that directory.  Hashes are the contents themselves, every archive unpacks to one
 package, and every configuration declares every version, so that no check stands in the way.
 */
module BlockedArchive {
  import opened Wrappers
  import opened RemoteTree
  import opened DeployScripts
  import opened DeployEffects
  import opened ScriptRuns
  import Deployment

  function Package(id: ArchiveIdentity): Tree {
    map[[MANIFEST] := File(id.candidateManifestSha), [CONFIG] := File("config")]
  }

  /** Contents hash to themselves, and every archive holds the same two files. */
  function PlainTools(id: ArchiveIdentity): Tools {
    Tools(content => content, archive => Some(Package(id)), tree => "previous", (content, version) => true)
  }

  // ---------------------------------------------------------------------------
  // One command on a tree
  // ---------------------------------------------------------------------------

  lemma InsideIsApart(from: Path, dir: Path)
    requires from != [] && !Under(from, dir) && !Under(dir, from)
    ensures !Under(from, dir + [Name(from)]) && !Under(dir + [Name(from)], from)
  {
    var to := dir + [Name(from)];
    assert to[..|dir|] == dir;
    if |from| <= |dir| {
      assert to[..|from|] == dir[..|from|];
    }
    if |to| <= |from| {
      assert from[..|to|][..|dir|] == from[..|dir|];
    }
  }

  /** With a directory in its place it ends up inside. */
  lemma RenameIntoDirectory(tools: Tools, t: Tree, from: Path, dir: Path, content: Content)
    requires IsVacant(t, from) && IsVacant(t, dir + [Name(from)]) && !Under(from, dir) && !Under(dir, from)
    requires from != [] && IsDir(t, dir)
    ensures Effect(tools, t[from := File(content)], Mv(from, dir)) == Some(t[dir + [Name(from)] := File(content)])
  {
    var to := dir + [Name(from)];
    InsideIsApart(from, dir);
    assert Under(to, to) && Under(from, from) && Parent(to) == dir;
    var full := t[from := File(content)];
    assert Target(full, from, dir) == to && to !in full && IsDir(full, Parent(to));
    MvMoves(tools, full, from, dir, to);
    MoveFreshFile(t, from, to, content);
  }

  // ---------------------------------------------------------------------------
  // The guest
  // ---------------------------------------------------------------------------

  function Inside(l: Layout): Path { l.DurableArchive() + [DURABLE_TMP] }

  /** Both archives are uploaded, the source is there, and so is the directory. */
  predicate IsBlocked(l: Layout, id: ArchiveIdentity, t: Tree) {
    && OnlyTaken(l, t, {DURABLE}) && IsDir(t, l.DurableArchive()) && IsVacant(t, Inside(l))
    && (forall q :: q in Prefixes(l.BackupRoot()) ==> IsDir(t, q))
    && l.CandidateArchive() in t && t[l.CandidateArchive()] == File(id.candidateArchiveSha)
    && l.RollbackUpload() in t && t[l.RollbackUpload()] == File(id.rollbackArchiveSha)
    && IsDir(t, ADDON_SOURCE)
  }

  function BlockedTree(l: Layout, id: ArchiveIdentity): Tree {
    var dirs := Prefixes(l.DurableArchive()) + Prefixes(ADDON_SOURCE) + Prefixes(l.TemporaryRoot());
    (map q | q in dirs :: Dir)
    + map[l.CandidateArchive() := File(id.candidateArchiveSha), l.RollbackUpload() := File(id.rollbackArchiveSha),
          ADDON_SOURCE + [CONFIG] := File("installed")]
  }

  lemma PrefixOfPrefix(p: Path, n: nat)
    requires n <= |p|
    ensures forall q :: q in Prefixes(p[..n]) ==> q in Prefixes(p)
  {
    forall i | 0 <= i <= n
      ensures p[..n][..i] in Prefixes(p)
    {
      assert p[..n][..i] == p[..i];
    }
  }

  lemma BlockedTreeIsBlocked(l: Layout, id: ArchiveIdentity)
    ensures IsBlocked(l, id, BlockedTree(l, id)) && ADDON_SOURCE + [CONFIG] in BlockedTree(l, id)
  {
    var t := BlockedTree(l, id);
    BlockedTreeDirs(l, id);
    BlockedTreeTaken(l, id);
  }

  lemma BlockedTreeDirs(l: Layout, id: ArchiveIdentity)
    ensures var t := BlockedTree(l, id);
            && IsDir(t, l.DurableArchive()) && IsDir(t, ADDON_SOURCE)
            && (forall q :: q in Prefixes(l.BackupRoot()) ==> IsDir(t, q))
            && l.CandidateArchive() in t && t[l.CandidateArchive()] == File(id.candidateArchiveSha)
            && l.RollbackUpload() in t && t[l.RollbackUpload()] == File(id.rollbackArchiveSha)
  {
    var d := l.DurableArchive();
    assert d == d[..7] && ADDON_SOURCE == ADDON_SOURCE[..6] && d[..6] == l.BackupRoot();
    PrefixOfPrefix(d, 6);
    assert l.CandidateArchive()[0] == "tmp" && l.RollbackUpload()[0] == "tmp" && d[0] == "mnt";
    assert l.CandidateArchive()[2] != l.RollbackUpload()[2];
    forall q | q in Prefixes(d) + Prefixes(ADDON_SOURCE)
      ensures q != l.CandidateArchive() && q != l.RollbackUpload() && q != ADDON_SOURCE + [CONFIG]
    {
      assert |q| > 0 ==> q[0] == "mnt";
      assert |q| == 7 ==> q[4] != (ADDON_SOURCE + [CONFIG])[4];
    }
  }

  lemma BlockedTreeTaken(l: Layout, id: ArchiveIdentity)
    ensures OnlyTaken(l, BlockedTree(l, id), {DURABLE}) && IsVacant(BlockedTree(l, id), Inside(l))
  {
    var t := BlockedTree(l, id);
    forall q | q in t
      ensures |q| < 8 && (Under(l.BackupRoot(), q) && |q| > 6 ==> q[6] == DURABLE)
    {
      if Under(l.BackupRoot(), q) && |q| > 6 {
        UnderAt(l.BackupRoot(), q, 4);
        assert q[4] == "ha-smartthings-web-bridge" && (ADDON_SOURCE + [CONFIG])[4] == "local";
        assert q == l.DurableArchive();
      }
    }
  }

  // ---------------------------------------------------------------------------
  // Staging on such a guest
  // ---------------------------------------------------------------------------

  function Unpacked(l: Layout, id: ArchiveIdentity, t: Tree): Tree {
    WithPackage(id, t[l.CandidateSource() := Dir], l.CandidateSource())
  }

  lemma StagePrologue(l: Layout, id: ArchiveIdentity, t: Tree)
    requires IsBlocked(l, id, t)
    ensures AfterAll(PlainTools(id), t, CheckUploads(l, id)) == Some(t)
  {
    MakePresentDirs(PlainTools(id), t, l.BackupRoot());
    AfterThree(PlainTools(id), t, HashCheck(l.CandidateArchive(), id.candidateArchiveSha), t,
               HashCheck(l.RollbackUpload(), id.rollbackArchiveSha), t,
               MkdirP(l.BackupRoot()), t);
  }

  lemma StageClears(l: Layout, id: ArchiveIdentity, t: Tree)
    requires IsBlocked(l, id, t)
    ensures AfterAll(PlainTools(id), t, MakeRoom(l)) == Some(t[l.CandidateSource() := Dir])
  {
    FreeNameIsVacant(l, t, {DURABLE}, "candidate-source");
    assert Parent(l.CandidateSource()) == l.BackupRoot();
    ClearAndMake(PlainTools(id), t, l.CandidateSource());
  }

  function WithPackage(id: ArchiveIdentity, t: Tree, c: Path): Tree {
    t[c + [MANIFEST] := File(id.candidateManifestSha)][c + [CONFIG] := File("config")]
  }

  lemma PlacePackage(id: ArchiveIdentity, t: Tree, c: Path)
    ensures Place(t, c, Package(id)) == WithPackage(id, t, c)
  {
    var u := Place(t, c, Package(id));
    assert |MANIFEST| != |CONFIG| && [MANIFEST] != [CONFIG];
    PlaceAt(t, c, Package(id), [MANIFEST]);
    PlaceAt(t, c, Package(id), [CONFIG]);
    forall q | q != c + [MANIFEST] && q != c + [CONFIG]
      ensures SameAt(t, u, q)
    {
      if Under(c, q) {
        assert q == c + q[|c|..];
        PlaceAt(t, c, Package(id), q[|c|..]);
      } else {
        PlaceElsewhere(t, c, Package(id), q);
      }
    }
  }

  lemma PackageHasNoRoot(id: ArchiveIdentity)
    ensures [] !in Package(id)
  {
    assert |[MANIFEST]| == |[CONFIG]| == 1;
  }

  lemma UnpackEffect(id: ArchiveIdentity, tools: Tools, t: Tree, archive: Path, c: Path)
    requires archive in t && t[archive].File? && IsDir(t, c) && tools.unpack(t[archive].content) == Some(Package(id))
    ensures Effect(tools, t, Untar(archive, c)) == Some(WithPackage(id, t, c))
  {
    PackageHasNoRoot(id);
    UntarEffect(tools, t, archive, c, Package(id));
    PlacePackage(id, t, c);
  }

  lemma CheckPackage(id: ArchiveIdentity, tools: Tools, t: Tree, c: Path, version: string)
    requires tools.sha256(id.candidateManifestSha) == id.candidateManifestSha
             && tools.declaresVersion("config", version)
    ensures var u := WithPackage(id, t, c);
            Effect(tools, u, HashCheck(c + [MANIFEST], id.candidateManifestSha)) == Some(u)
            && Effect(tools, u, GrepVersion(c + [CONFIG], version)) == Some(u)
  {
    assert (c + [MANIFEST])[|c|] != (c + [CONFIG])[|c|] by { assert |MANIFEST| != |CONFIG|; }
  }

  lemma StageUnpacks(l: Layout, id: ArchiveIdentity, t: Tree)
    requires IsBlocked(l, id, t)
    ensures AfterAll(PlainTools(id), t[l.CandidateSource() := Dir], UnpackCandidate(l, id)) == Some(Unpacked(l, id, t))
  {
    var c, archive := l.CandidateSource(), l.CandidateArchive();
    assert |archive| != |c|;
    UnpackEffect(id, PlainTools(id), t[c := Dir], archive, c);
    CheckPackage(id, PlainTools(id), t[c := Dir], c, id.candidateVersion);
    AfterThree(PlainTools(id), t[c := Dir], Untar(archive, c), Unpacked(l, id, t),
               HashCheck(c + [MANIFEST], id.candidateManifestSha),
               Unpacked(l, id, t), GrepVersion(c + [CONFIG], id.candidateVersion), Unpacked(l, id, t));
  }

  lemma StageSucceeds(l: Layout, id: ArchiveIdentity, t: Tree)
    requires IsBlocked(l, id, t)
    ensures AfterAll(PlainTools(id), t, StageCandidate(l, id)) == Some(Unpacked(l, id, t))
  {
    StagePrologue(l, id, t);
    StageClears(l, id, t);
    StageUnpacks(l, id, t);
    PrepareParts(l, id);
    AfterParts(PlainTools(id), t, CheckUploads(l, id), t, MakeRoom(l), t[l.CandidateSource() := Dir],
               UnpackCandidate(l, id),
               Unpacked(l, id, t));
  }

  // ---------------------------------------------------------------------------
  // Securing the rollback
  // ---------------------------------------------------------------------------

  /** What the rest of staging needs to find. */
  predicate IsStaged(l: Layout, id: ArchiveIdentity, t: Tree, names: set<string>) {
    && OnlyTaken(l, t, names) && IsDir(t, l.BackupRoot()) && IsDir(t, l.DurableArchive()) && IsDir(t, ADDON_SOURCE)
    && l.RollbackUpload() in t && t[l.RollbackUpload()] == File(id.rollbackArchiveSha)
  }

  lemma AddKept(l: Layout, id: ArchiveIdentity, t: Tree, names: set<string>, name: string, node: Node)
    requires IsStaged(l, id, t, names) && name !in names && DURABLE in names
    ensures IsStaged(l, id, t[l.Kept(name) := node], names + {name})
  {
    var p := l.Kept(name);
    TakeName(l, t, names, p, node);
    assert p != l.BackupRoot() && p != l.RollbackUpload() && p != ADDON_SOURCE by {
      assert |p| == 7 && |l.BackupRoot()| == 6 && |l.RollbackUpload()| == 3 && |ADDON_SOURCE| == 6;
    }
    assert p[6] != l.DurableArchive()[6];
  }

  lemma KeepPrevious(l: Layout, id: ArchiveIdentity, t: Tree, names: set<string>)
    requires IsStaged(l, id, t, names) && DURABLE in names
    requires "source-before-deploy.tar.tmp" !in names && "source-before-deploy.tar" !in names
    ensures AfterAll(PlainTools(id), t, SaveSource(l)) == Some(t[l.PreviousSource() := File("previous")])
  {
    var from, to := l.PreviousTmp(), l.PreviousSource();
    FreeNameIsVacant(l, t, names, "source-before-deploy.tar.tmp");
    FreeNameIsVacant(l, t, names, "source-before-deploy.tar");
    assert |from[6]| != |to[6]|;
    Apart(from, to, 6);
    assert Parent(from) == l.BackupRoot() == Parent(to);
    TarAndRename(PlainTools(id), t, ADDON_SOURCE, from, to);
  }

  lemma CopyIntoDirectory(tools: Tools, t: Tree, upload: Path, from: Path, dir: Path, archive: Content)
    requires IsVacant(t, from) && IsVacant(t, dir + [Name(from)]) && !Under(from, dir) && !Under(dir, from)
    requires from != [] && from !in t && IsDir(t, dir) && IsDir(t, Parent(from))
    requires upload in t && t[upload] == File(archive) && tools.sha256(archive) == archive
    ensures AfterAll(tools, t, [Cp(upload, from), HashCheck(from, archive), Mv(from, dir)])
            == Some(t[dir + [Name(from)] := File(archive)])
  {
    RenameIntoDirectory(tools, t, from, dir, archive);
    var copied := t[from := File(archive)];
    AfterThree(tools, t, Cp(upload, from), copied, HashCheck(from, archive), copied,
               Mv(from, dir), t[dir + [Name(from)] := File(archive)]);
  }

  /** The checked copy of the rollback archive is moved into the directory. */
  lemma LoseRollback(l: Layout, id: ArchiveIdentity, t: Tree, names: set<string>)
    requires IsStaged(l, id, t, names) && DURABLE in names && DURABLE_TMP !in names && IsVacant(t, Inside(l))
    ensures AfterAll(PlainTools(id), t, SecureCopy(l, id)) == Some(t[Inside(l) := File(id.rollbackArchiveSha)])
  {
    KeptNames(l);
    FreeNameIsVacant(l, t, names, DURABLE_TMP);
    Apart(l.DurableTmp(), l.DurableArchive(), 6);
    assert Parent(l.DurableTmp()) == l.BackupRoot() && Name(l.DurableTmp()) == DURABLE_TMP;
    CopyIntoDirectory(PlainTools(id), t, l.RollbackUpload(), l.DurableTmp(), l.DurableArchive(), id.rollbackArchiveSha);
  }

  lemma RecordIdentity(l: Layout, id: ArchiveIdentity, t: Tree, names: set<string>)
    requires IsStaged(l, id, t, names) && DURABLE in names
    requires "deployment-identity.txt.tmp" !in names && "deployment-identity.txt" !in names
    ensures AfterAll(PlainTools(id), t, RecordDone(l, id)) == Some(t[l.Identity() := File(IdentityText(id))])
  {
    var from, to := l.IdentityTmp(), l.Identity();
    FreeNameIsVacant(l, t, names, "deployment-identity.txt.tmp");
    FreeNameIsVacant(l, t, names, "deployment-identity.txt");
    assert |from[6]| != |to[6]|;
    Apart(from, to, 6);
    assert Parent(from) == l.BackupRoot() == Parent(to);
    WriteAndRename(PlainTools(id), t, from, to, IdentityText(id), "stage_ready");
  }

  /** The guest after staging. */
  function Secured(l: Layout, id: ArchiveIdentity, t: Tree): Tree {
    Archived(l, id, t)[Inside(l) := File(id.rollbackArchiveSha)][l.Identity() := File(IdentityText(id))]
  }

  const UNPACKED_NAMES := {DURABLE, "candidate-source"}
  const KEPT_NAMES := {DURABLE, "candidate-source", "source-before-deploy.tar"}

  lemma NamesDiffer()
    ensures DURABLE in UNPACKED_NAMES && DURABLE in KEPT_NAMES && "candidate-source" in UNPACKED_NAMES
    ensures "candidate-source" !in {DURABLE} && "source-before-deploy.tar" !in UNPACKED_NAMES
    ensures "source-before-deploy.tar.tmp" !in UNPACKED_NAMES && DURABLE_TMP !in KEPT_NAMES
    ensures "deployment-identity.txt.tmp" !in KEPT_NAMES && "deployment-identity.txt" !in KEPT_NAMES
    ensures "candidate-source" != DURABLE && "source-before-deploy.tar" != DURABLE
            && "deployment-identity.txt" != DURABLE
  {
    assert |ROLLBACK_COMMIT| == 40;
    assert |DURABLE| == 53 && |DURABLE_TMP| == 57 && |"candidate-source"| == 16;
    assert |"source-before-deploy.tar.tmp"| == 28 && |"source-before-deploy.tar"| == 24;
    assert |"deployment-identity.txt.tmp"| == 27 && |"deployment-identity.txt"| == 23;
  }

  /** What matters while names are added: the guest is staged and the place inside is free. */
  predicate IsReady(l: Layout, id: ArchiveIdentity, t: Tree, names: set<string>) {
    IsStaged(l, id, t, names) && IsVacant(t, Inside(l)) && DURABLE in names
  }

  lemma ReadyWithKept(l: Layout, id: ArchiveIdentity, t: Tree, names: set<string>, name: string, node: Node)
    requires IsReady(l, id, t, names) && name !in names
    ensures IsReady(l, id, t[l.Kept(name) := node], names + {name})
  {
    AddKept(l, id, t, names, name, node);
    InsideIsFar(l, t, l.Kept(name), node);
  }

  lemma ReadyWithBelow(l: Layout, id: ArchiveIdentity, t: Tree, names: set<string>, p: Path, node: Node)
    requires IsReady(l, id, t, names) && |p| > 7 && p[6] in names && p[6] != DURABLE
    ensures IsReady(l, id, t[p := node], names)
  {
    AddBelow(l, id, t, names, p, node);
    InsideIsFar(l, t, p, node);
  }

  lemma BlockedIsReady(l: Layout, id: ArchiveIdentity, t: Tree)
    requires IsBlocked(l, id, t)
    ensures IsReady(l, id, t, {DURABLE})
  {
    assert l.BackupRoot() == l.BackupRoot()[..6] && l.BackupRoot() in Prefixes(l.BackupRoot());
  }

  lemma UnpackedIsReady(l: Layout, id: ArchiveIdentity, t: Tree)
    requires IsBlocked(l, id, t)
    ensures IsReady(l, id, Unpacked(l, id, t), UNPACKED_NAMES)
  {
    NamesDiffer();
    BlockedIsReady(l, id, t);
    ReadyWithKept(l, id, t, {DURABLE}, "candidate-source", Dir);
    assert {DURABLE} + {"candidate-source"} == UNPACKED_NAMES;
    var c := l.CandidateSource();
    PackageKeepsReady(l, id, t[c := Dir], c);
  }

  lemma PackageKeepsReady(l: Layout, id: ArchiveIdentity, t: Tree, c: Path)
    requires IsReady(l, id, t, UNPACKED_NAMES) && |c| == 7 && c[6] in UNPACKED_NAMES && c[6] != DURABLE
    ensures IsReady(l, id, WithPackage(id, t, c), UNPACKED_NAMES)
  {
    var m, g := c + [MANIFEST], c + [CONFIG];
    ReadyWithBelow(l, id, t, UNPACKED_NAMES, m, File(id.candidateManifestSha));
    ReadyWithBelow(l, id, t[m := File(id.candidateManifestSha)], UNPACKED_NAMES, g, File("config"));
  }

  lemma AddBelow(l: Layout, id: ArchiveIdentity, t: Tree, names: set<string>, p: Path, node: Node)
    requires IsStaged(l, id, t, names) && |p| > 7 && p[6] in names
    ensures IsStaged(l, id, t[p := node], names)
  {
    TakeName(l, t, names, p, node);
    assert names + {p[6]} == names;
    assert |l.BackupRoot()| == 6 && |l.RollbackUpload()| == 3 && |ADDON_SOURCE| == 6 && |l.DurableArchive()| == 7;
  }

  /** Nothing of another name gets into the directory. */
  lemma InsideIsFar(l: Layout, t: Tree, p: Path, node: Node)
    requires IsVacant(t, Inside(l)) && |p| > 6 && p[6] != DURABLE
    ensures IsVacant(t[p := node], Inside(l))
  {
    if Under(Inside(l), p) {
      UnderAt(Inside(l), p, 6);
      assert false;
    }
  }

  function Archived(l: Layout, id: ArchiveIdentity, t: Tree): Tree {
    Unpacked(l, id, t)[l.PreviousSource() := File("previous")]
  }

  lemma ArchivedIsReady(l: Layout, id: ArchiveIdentity, t: Tree)
    requires IsBlocked(l, id, t)
    ensures IsReady(l, id, Archived(l, id, t), KEPT_NAMES)
  {
    NamesDiffer();
    UnpackedIsReady(l, id, t);
    ReadyWithKept(l, id, Unpacked(l, id, t), UNPACKED_NAMES, "source-before-deploy.tar", File("previous"));
    assert UNPACKED_NAMES + {"source-before-deploy.tar"} == KEPT_NAMES;
  }

  lemma SecureSucceeds(l: Layout, id: ArchiveIdentity, t: Tree)
    requires IsBlocked(l, id, t)
    ensures AfterAll(PlainTools(id), Unpacked(l, id, t), SecureRollback(l, id)) == Some(Secured(l, id, t))
  {
    var u, v := Archived(l, id, t), Archived(l, id, t)[Inside(l) := File(id.rollbackArchiveSha)];
    NamesDiffer();
    UnpackedIsReady(l, id, t);
    KeepPrevious(l, id, Unpacked(l, id, t), UNPACKED_NAMES);
    ArchivedIsReady(l, id, t);
    LoseRollback(l, id, u, KEPT_NAMES);
    AddBelow(l, id, u, KEPT_NAMES, Inside(l), File(id.rollbackArchiveSha));
    RecordIdentity(l, id, v, KEPT_NAMES);
    PrepareParts(l, id);
    AfterParts(PlainTools(id), Unpacked(l, id, t), SaveSource(l), u, SecureCopy(l, id), v, RecordDone(l, id),
               Secured(l, id, t));
  }

  // ---------------------------------------------------------------------------
  // The loss
  // ---------------------------------------------------------------------------

  lemma SecuredFacts(l: Layout, id: ArchiveIdentity, t: Tree)
    requires IsBlocked(l, id, t)
    ensures var u := Secured(l, id, t);
            && IsDir(u, l.DurableArchive()) && IsDir(u, ADDON_SOURCE) && IsFile(u, l.CandidateSource() + [MANIFEST])
  {
    ArchivedIsReady(l, id, t);
    NamesDiffer();
    var u := Archived(l, id, t);
    AddBelow(l, id, u, KEPT_NAMES, Inside(l), File(id.rollbackArchiveSha));
    AddKept(l, id, u[Inside(l) := File(id.rollbackArchiveSha)], KEPT_NAMES, "deployment-identity.txt",
            File(IdentityText(id)));
    ManifestStays(l, id, t);
  }

  lemma ManifestStays(l: Layout, id: ArchiveIdentity, t: Tree)
    ensures IsFile(Secured(l, id, t), l.CandidateSource() + [MANIFEST])
  {
    var m := l.CandidateSource() + [MANIFEST];
    NamesDiffer();
    assert |m| == 8 && |l.PreviousSource()| == |l.Identity()| == 7 && m[6] != Inside(l)[6];
    assert m[7] != CONFIG by { assert |MANIFEST| != |CONFIG|; }
    assert IsFile(WithPackage(id, t[l.CandidateSource() := Dir], l.CandidateSource()), m);
  }

  /** For every identity the builders accept, and its layout: from every guest with a directory at
      the durable path, staging runs to its end and an activation that breaks off after its second
      command leaves neither the source nor the archive; the rollback cannot pass its first
      command. */
  lemma DirectoryLosesBoth(l: Layout, id: ArchiveIdentity, t: Tree)
    returns (staging: seq<Tree>, activation: seq<Tree>)
    requires ValidIdentity(id) && Deployment.LayoutMatches(l, id) && IsBlocked(l, id, t)
    ensures IsRun(PlainTools(id), Prepare(l, id), staging, 16) && Completed(Prepare(l, id), staging, 16)
    ensures staging[0] == t && IsDir(staging[16], l.DurableArchive())
    ensures IsRun(PlainTools(id), Activate(l), activation, 2) && activation[0] == staging[16]
    ensures var lost := activation[|activation| - 1];
            && !SourceSame(t, lost) && !ArchiveSafe(PlainTools(id), l, id.rollbackArchiveSha, lost)
            && Effect(PlainTools(id), lost, RollbackSource(l, id.rollbackArchiveSha)[0]) == None
  {
    staging := StagingRuns(l, id, t);
    SecuredFacts(l, id, t);
    activation := BreaksOff(l, id, Secured(l, id, t));
    NothingLeft(l, id, t, activation[2]);
  }

  lemma StagingRuns(l: Layout, id: ArchiveIdentity, t: Tree) returns (staging: seq<Tree>)
    requires IsBlocked(l, id, t)
    ensures IsRun(PlainTools(id), Prepare(l, id), staging, 16) && Completed(Prepare(l, id), staging, 16)
    ensures staging[0] == t && staging[16] == Secured(l, id, t)
  {
    StageSucceeds(l, id, t);
    SecureSucceeds(l, id, t);
    AfterBoth(PlainTools(id), t, StageCandidate(l, id), Unpacked(l, id, t), SecureRollback(l, id));
    staging := RunOf(PlainTools(id), t, Prepare(l, id), Secured(l, id, t));
  }

  lemma NothingLeft(l: Layout, id: ArchiveIdentity, t: Tree, lost: Tree)
    requires IsDir(t, ADDON_SOURCE) && ADDON_SOURCE !in lost && IsDir(lost, l.DurableArchive())
    ensures !SourceSame(t, lost) && !ArchiveSafe(PlainTools(id), l, id.rollbackArchiveSha, lost)
    ensures Effect(PlainTools(id), lost, RollbackSource(l, id.rollbackArchiveSha)[0]) == None
  {
    assert Under(ADDON_SOURCE, ADDON_SOURCE);
    assert !SameAt(t, lost, ADDON_SOURCE);
  }

  lemma BreaksOff(l: Layout, id: ArchiveIdentity, t: Tree) returns (activation: seq<Tree>)
    requires IsDir(t, l.DurableArchive()) && IsFile(t, l.CandidateSource() + [MANIFEST])
    ensures IsRun(PlainTools(id), Activate(l), activation, 2) && |activation| == 3 && activation[0] == t
    ensures ADDON_SOURCE !in activation[2] && IsDir(activation[2], l.DurableArchive())
  {
    activation := [t, t, RemoveAll(t, ADDON_SOURCE)];
    assert Under(ADDON_SOURCE, ADDON_SOURCE);
    OutsideSource(l.DurableArchive(), ADDON_SOURCE);
    assert Ran(PlainTools(id), t, Activate(l)[0], t, true);
    assert Ran(PlainTools(id), t, Activate(l)[1], activation[2], true);
  }

  /** There is such a guest for every identity the builders accept: the promise fails for it. */
  lemma BlockedGuestExists(id: ArchiveIdentity)
    returns (l: Layout, t: Tree, staging: seq<Tree>, activation: seq<Tree>)
    requires ValidIdentity(id)
    ensures CreateLayout(id.candidateCommit, id.candidateManifestSha) == Some(l) && Deployment.LayoutMatches(l, id)
    ensures IsDir(t, l.DurableArchive()) && IsDir(t, ADDON_SOURCE)
    ensures IsRun(PlainTools(id), Prepare(l, id), staging, 16) && Completed(Prepare(l, id), staging, 16)
            && staging[0] == t
    ensures IsRun(PlainTools(id), Activate(l), activation, 2) && activation[0] == staging[16]
    ensures !Deployment.Recoverable(PlainTools(id), l, id.rollbackArchiveSha, t, activation[|activation| - 1])
  {
    l := CreateLayout(id.candidateCommit, id.candidateManifestSha).value;
    t := BlockedTree(l, id);
    BlockedTreeIsBlocked(l, id);
    staging, activation := DirectoryLosesBoth(l, id, t);
  }
}
