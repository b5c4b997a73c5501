/**
 The remote layout and the scripts of one candidate deployment
 (tools/haos-candidate-deploy-core.ts:119-143, 205-289 and 327-336).
 */
module DeployScripts {
  import opened Wrappers
  import opened RemoteTree

  const ROLLBACK_COMMIT := "eee8ebe3312a0f9935edd7ae3a13a1c1e50ff208"
  const ROLLBACK_VERSION := "0.1.93"
  const ROLLBACK_MANIFEST_SHA256 := "eea6eec161685b0ee5f04e0d848f0148" + "f7fc8be1d95a0c3ab0d6f584daf3003c"
  const ROLLBACK_RUNTIME_SHA256 := "a297edc3e277d87b2e01c1d4722c4b85f269bfe6d363a77a48b0d06fa37c554f"

  const MANIFEST := "addon-package-manifest.json"
  const CONFIG := "config.yaml"
  const ADDON_SOURCE: Path := ["mnt", "data", "supervisor", "apps", "local", "smartthings_web_bridge"]
  const BACKUPS: Path := ["mnt", "data", "supervisor", "backup", "ha-smartthings-web-bridge"]

  datatype Layout = Layout(deploymentId: string) {
    function TemporaryRoot(): Path { ["tmp", "ha-smartthings-web-bridge-" + deploymentId] }
    function CandidateArchive(): Path { TemporaryRoot() + ["candidate.tgz"] }
    function RollbackUpload(): Path { TemporaryRoot() + ["rollback.tgz"] }
    function BackupRoot(): Path { BACKUPS + [deploymentId] }
    function Kept(name: string): Path { BackupRoot() + [name] }
    function CandidateSource(): Path { Kept("candidate-source") }
    function RollbackSource(): Path { Kept("rollback-source") }
    function DurableArchive(): Path { Kept("rollback-" + ROLLBACK_COMMIT + ".tgz") }
    function DurableTmp(): Path { Kept("rollback-" + ROLLBACK_COMMIT + ".tgz.tmp") }
    function PreviousSource(): Path { Kept("source-before-deploy.tar") }
    function PreviousTmp(): Path { Kept("source-before-deploy.tar.tmp") }
    function Identity(): Path { Kept("deployment-identity.txt") }
    function IdentityTmp(): Path { Kept("deployment-identity.txt.tmp") }
  }

  predicate IsHex(s: string, n: nat) {
    |s| == n && forall i :: 0 <= i < n ==> '0' <= s[i] <= '9' || 'a' <= s[i] <= 'f'
  }

  /** None stands for the thrown `haos_candidate_deploy_input_invalid`. */
  function CreateLayout(commit: string, manifestSha: string): Option<Layout> {
    if !IsHex(commit, 40) || !IsHex(manifestSha, 64) then None
    else Some(Layout(commit[..12] + "-" + manifestSha[..12]))
  }

  datatype ArchiveIdentity = ArchiveIdentity(
    candidateCommit: string,
    candidateArchiveSha: string,
    candidateManifestSha: string,
    candidateVersion: string,
    rollbackArchiveSha: string)

  predicate IsNumber(s: string) {
    1 <= |s| <= 9 && forall i :: 0 <= i < |s| ==> '0' <= s[i] <= '9'
  }

  predicate SplitsAt(s: string, i: int, j: int) {
    0 <= i < j < |s| && s[i] == '.' && s[j] == '.' && IsNumber(s[..i]) && IsNumber(s[i + 1..j]) && IsNumber(s[j + 1..])
  }

  /** Three numbers with dots between them. */
  predicate IsVersion(s: string) { exists i, j :: 0 <= i < |s| && 0 <= j < |s| && SplitsAt(s, i, j) }

  predicate AreDigits(s: string) { 0 < |s| < 10 && forall x :: x in s ==> '0' <= x <= '9' }

  lemma NumbersAreDigits(s: string)
    ensures IsNumber(s) <==> AreDigits(s)
  {
    assert forall i :: 0 <= i < |s| ==> s[i] in s;
  }

  predicate JoinsAs(s: string, a: string, b: string, c: string) { s == a + "." + b + "." + c }

  lemma JoinedAt(s: string, i: nat, j: nat)
    requires i < j < |s| && s[i] == '.' && s[j] == '.'
    ensures JoinsAs(s, s[..i], s[i + 1..j], s[j + 1..])
  {
    assert s == s[..i] + [s[i]] + s[i + 1..j] + [s[j]] + s[j + 1..];
  }

  lemma SplitAgain(s: string, a: string, b: string, c: string)
    requires JoinsAs(s, a, b, c)
    ensures var i, j := |a|, |a| + 1 + |b|;
            i < j < |s| && s[i] == '.' && s[j] == '.' && s[..i] == a && s[i + 1..j] == b && s[j + 1..] == c
  {
  }

  /** A version is one to nine digits, three times, with dots between. */
  lemma VersionExactly(s: string)
    ensures IsVersion(s) <==>
            exists a, b, c :: JoinsAs(s, a, b, c) && AreDigits(a) && AreDigits(b) && AreDigits(c)
  {
    if i, j :| 0 <= i < |s| && 0 <= j < |s| && SplitsAt(s, i, j) {
      JoinedAt(s, i, j);
      NumbersAreDigits(s[..i]);
      NumbersAreDigits(s[i + 1..j]);
      NumbersAreDigits(s[j + 1..]);
    }
    if a, b, c :| JoinsAs(s, a, b, c) && AreDigits(a) && AreDigits(b) && AreDigits(c) {
      SplitAgain(s, a, b, c);
      NumbersAreDigits(a);
      NumbersAreDigits(b);
      NumbersAreDigits(c);
      assert SplitsAt(s, |a|, |a| + 1 + |b|);
    }
  }

  /** What the builder of the prepare script asks of an identity; it throws for any other. */
  predicate ValidIdentity(id: ArchiveIdentity) {
    && IsHex(id.candidateCommit, 40) && IsHex(id.candidateArchiveSha, 64) && IsHex(id.candidateManifestSha, 64)
    && IsVersion(id.candidateVersion) && IsHex(id.rollbackArchiveSha, 64)
  }

  function Initialize(l: Layout): seq<Command> {
    [RmRf(l.TemporaryRoot()), MkdirP(l.TemporaryRoot()), Marker("upload_ready")]
  }

  function Unlines(lines: seq<string>): string {
    if lines == [] then "" else lines[0] + "\n" + Unlines(lines[1..])
  }

  function IdentityLines(id: ArchiveIdentity): seq<string> {
    ["schema_version=1", "candidate_commit=" + id.candidateCommit, "candidate_manifest=" + id.candidateManifestSha,
     "rollback_commit=" + ROLLBACK_COMMIT, "rollback_manifest=" + ROLLBACK_MANIFEST_SHA256,
     "rollback_archive=" + id.rollbackArchiveSha]
  }

  function IdentityText(id: ArchiveIdentity): Content { Unlines(IdentityLines(id)) }

  function StageCandidate(l: Layout, id: ArchiveIdentity): seq<Command> {
    [HashCheck(l.CandidateArchive(), id.candidateArchiveSha),
     HashCheck(l.RollbackUpload(), id.rollbackArchiveSha),
     MkdirP(l.BackupRoot()),
     RmRf(l.CandidateSource()),
     MkdirP(l.CandidateSource()),
     Untar(l.CandidateArchive(), l.CandidateSource()),
     HashCheck(l.CandidateSource() + [MANIFEST], id.candidateManifestSha),
     GrepVersion(l.CandidateSource() + [CONFIG], id.candidateVersion)]
  }

  function SecureRollback(l: Layout, id: ArchiveIdentity): seq<Command> {
    [WhenDir(ADDON_SOURCE, TarDir(ADDON_SOURCE, l.PreviousTmp())),
     WhenDir(ADDON_SOURCE, Mv(l.PreviousTmp(), l.PreviousSource())),
     Cp(l.RollbackUpload(), l.DurableTmp()),
     HashCheck(l.DurableTmp(), id.rollbackArchiveSha),
     Mv(l.DurableTmp(), l.DurableArchive()),
     WriteFile(l.IdentityTmp(), IdentityText(id)),
     Mv(l.IdentityTmp(), l.Identity()),
     Marker("stage_ready")]
  }

  function Prepare(l: Layout, id: ArchiveIdentity): seq<Command> {
    StageCandidate(l, id) + SecureRollback(l, id)
  }

  function Activate(l: Layout): seq<Command> {
    [TestFile(l.CandidateSource() + [MANIFEST]),
     RmRf(ADDON_SOURCE),
     Mv(l.CandidateSource(), ADDON_SOURCE),
     Touch(ADDON_SOURCE + [CONFIG]),
     Marker("source_activated")]
  }

  function RollbackSource(l: Layout, rollbackArchiveSha: string): seq<Command> {
    [HashCheck(l.DurableArchive(), rollbackArchiveSha),
     RmRf(l.RollbackSource()),
     MkdirP(l.RollbackSource()),
     Untar(l.DurableArchive(), l.RollbackSource()),
     HashCheck(l.RollbackSource() + [MANIFEST], ROLLBACK_MANIFEST_SHA256),
     GrepVersion(l.RollbackSource() + [CONFIG], ROLLBACK_VERSION),
     RmRf(ADDON_SOURCE),
     Mv(l.RollbackSource(), ADDON_SOURCE),
     Touch(ADDON_SOURCE + [CONFIG]),
     Marker("rollback_source_restored")]
  }

  function Cleanup(l: Layout): seq<Command> {
    [RmRf(l.TemporaryRoot()), RmRf(l.CandidateSource()), RmRf(l.RollbackSource()),
     Marker("temporary_files_removed")]
  }

  // ---------------------------------------------------------------------------
  // Where the paths lie
  // ---------------------------------------------------------------------------

  lemma UnderAt(a: Path, q: Path, i: nat)
    requires Under(a, q) && i < |a|
    ensures |q| >= |a| && q[i] == a[i]
  {
    assert q[..|a|][i] == a[i];
  }

  /** Paths that differ in one component have nothing below them in common. */
  lemma Apart(a: Path, b: Path, i: nat)
    requires i < |a| && i < |b| && a[i] != b[i]
    ensures !Under(a, b) && !Under(b, a)
    ensures forall q :: Under(a, q) ==> !Under(b, q)
  {
    assert Under(a, a) && Under(b, b);
    forall q ensures Under(a, q) ==> |q| >= |a| && q[i] == a[i] {
      if Under(a, q) { UnderAt(a, q, i); }
    }
    forall q ensures Under(b, q) ==> |q| >= |b| && q[i] == b[i] {
      if Under(b, q) { UnderAt(b, q, i); }
    }
  }

  /** A path outside /mnt/data/supervisor/apps neither contains nor lies in the add-on source. */
  lemma OutsideSource(p: Path, q: Path)
    requires Under(ADDON_SOURCE, q)
    requires |p| > 0 && (p[0] != "mnt" || (|p| > 3 && p[3] != "apps"))
    ensures !Under(p, q) && !Under(q, p)
  {
    UnderAt(ADDON_SOURCE, q, 0);
    UnderAt(ADDON_SOURCE, q, 3);
    if p[0] != "mnt" { Apart(p, q, 0); } else { Apart(p, q, 3); }
  }

  // ---------------------------------------------------------------------------
  // The durable rollback archive
  // ---------------------------------------------------------------------------

  /** The archive is there with the verified hash, and so is every directory above it. */
  ghost predicate ArchiveSafe(tools: Tools, l: Layout, sha: string, t: Tree) {
    && IsFile(t, l.DurableArchive()) && tools.sha256(t[l.DurableArchive()].content) == sha
    && forall q :: Under(q, l.BackupRoot()) ==> IsDir(t, q)
  }

  predicate WritesAwayFrom(c: Command, p: Path) {
    match c
    case MkdirP(r) => !Under(p, r)
    case RmRf(r) => !Under(r, p)
    case Untar(_, dir) => !Under(dir, p)
    case TarDir(_, archive) => !Under(archive, p)
    case Cp(_, to) => !Under(to, p)
    case Mv(from, to) => !Under(from, p) && !Under(to, p)
    case WriteFile(r, _) => !Under(r, p)
    case Touch(r) => !Under(r, p)
    case WhenDir(_, inner) => WritesAwayFrom(inner, p)
    case _ => true
  }

  /** Whoever writes away from a path leaves it, and every directory above it, in place. */
  lemma AwayKeepsAncestors(t: Tree, c: Command, p: Path, q: Path)
    requires WritesAwayFrom(c, p) && Under(q, p) && q in t
    ensures !Touches(t, c, q)
  {
    match c {
      case RmRf(r) => if Under(r, q) { UnderTransitive(r, q, p); }
      case Untar(_, dir) => if Under(dir, q) { UnderTransitive(dir, q, p); }
      case Cp(_, to) => if Under(to, q) { UnderTransitive(to, q, p); }
      case Mv(from, to) =>
        if Under(from, q) { UnderTransitive(from, q, p); }
        if Under(to, q) { UnderTransitive(to, q, p); }
      case WhenDir(_, inner) => AwayKeepsAncestors(t, inner, p, q);
      case _ =>
    }
  }

  lemma AwayTouchesNot(t: Tree, c: Command, p: Path)
    requires WritesAwayFrom(c, p)
    ensures !Touches(t, c, p)
  {
    if c.MkdirP? {
    } else if c.WhenDir? {
      AwayTouchesNot(t, c.then_, p);
    } else {
      assert Under(p, p);
    }
  }

  lemma StepKeepsArchive(tools: Tools, l: Layout, sha: string, t: Tree, c: Command, u: Tree, ok: bool)
    requires ArchiveSafe(tools, l, sha, t) && Ran(tools, t, c, u, ok)
    requires WritesAwayFrom(c, l.DurableArchive())
    ensures ArchiveSafe(tools, l, sha, u)
  {
    var p := l.DurableArchive();
    RanFrames(tools, t, c, u, ok);
    AwayTouchesNot(t, c, p);
    assert Under(l.BackupRoot(), p);
    forall q | Under(q, l.BackupRoot()) ensures IsDir(u, q) {
      UnderTransitive(q, l.BackupRoot(), p);
      AwayKeepsAncestors(t, c, p, q);
    }
  }

  predicate ScriptWritesAwayFrom(script: seq<Command>, p: Path) {
    forall i :: 0 <= i < |script| ==> WritesAwayFrom(script[i], p)
  }

  lemma {:induction false} RunKeepsArchive(tools: Tools, l: Layout, sha: string, script: seq<Command>,
                                           trace: seq<Tree>, done: nat, j: nat)
    requires IsRun(tools, script, trace, done) && j < |trace|
    requires ArchiveSafe(tools, l, sha, trace[0]) && ScriptWritesAwayFrom(script, l.DurableArchive())
    ensures ArchiveSafe(tools, l, sha, trace[j])
  {
    if j > 0 {
      RunKeepsArchive(tools, l, sha, script, trace, done, j - 1);
      StepKeepsArchive(tools, l, sha, trace[j - 1], script[j - 1], trace[j], j - 1 < done);
    }
  }

  /** Activation, rollback and cleanup never remove the archive or a directory above it. */
  lemma LaterScriptsSpareArchive(l: Layout, sha: string)
    ensures ScriptWritesAwayFrom(Activate(l), l.DurableArchive())
    ensures ScriptWritesAwayFrom(RollbackSource(l, sha), l.DurableArchive())
    ensures ScriptWritesAwayFrom(Cleanup(l), l.DurableArchive())
  {
    var p := l.DurableArchive();
    Apart(l.CandidateSource(), p, 6);
    Apart(l.RollbackSource(), p, 6);
    Apart(l.TemporaryRoot(), p, 0);
    Apart(ADDON_SOURCE, p, 3);
    Apart(ADDON_SOURCE + [CONFIG], p, 3);
  }

  // ---------------------------------------------------------------------------
  // The add-on source
  // ---------------------------------------------------------------------------

  /** The whole add-on source is what it was. */
  ghost predicate SourceSame(t: Tree, u: Tree) {
    forall q :: Under(ADDON_SOURCE, q) ==> SameAt(t, u, q)
  }

  lemma AwaySpares(script: seq<Command>, p: Path)
    requires ScriptWritesAwayFrom(script, p)
    ensures Spares(script, p)
  {
    forall i, t | 0 <= i < |script| ensures !Touches(t, script[i], p) {
      AwayTouchesNot(t, script[i], p);
    }
  }

  lemma EarlyScriptsWriteOutsideSource(l: Layout, id: ArchiveIdentity, q: Path)
    requires Under(ADDON_SOURCE, q)
    ensures ScriptWritesAwayFrom(Initialize(l), q)
    ensures ScriptWritesAwayFrom(StageCandidate(l, id), q)
    ensures ScriptWritesAwayFrom(Cleanup(l), q)
    ensures ScriptWritesAwayFrom(SecureRollback(l, id), q)
  {
    OutsideSource(l.TemporaryRoot(), q);
    OutsideSource(l.BackupRoot(), q);
    OutsideSource(l.CandidateSource(), q);
    OutsideSource(l.RollbackSource(), q);
    OutsideSource(l.PreviousTmp(), q);
    OutsideSource(l.PreviousSource(), q);
    OutsideSource(l.DurableTmp(), q);
    OutsideSource(l.DurableArchive(), q);
    OutsideSource(l.IdentityTmp(), q);
    OutsideSource(l.Identity(), q);
  }

  /** Initialising, staging and cleaning up never touch the add-on source. */
  lemma EarlyScriptsSpareSource(l: Layout, id: ArchiveIdentity, q: Path)
    requires Under(ADDON_SOURCE, q)
    ensures Spares(Initialize(l), q) && Spares(Prepare(l, id), q) && Spares(Cleanup(l), q)
  {
    EarlyScriptsWriteOutsideSource(l, id, q);
    AwaySpares(Initialize(l), q);
    AwaySpares(Prepare(l, id), q);
    AwaySpares(Cleanup(l), q);
  }
}
