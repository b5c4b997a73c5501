/**
 What the scripts of a deployment achieve when they run to their end: staging secures the
 rollback archive, activation moves the staged candidate into place, and the rollback
 script restores exactly the archived source.
 */
module DeployEffects {
  import opened Wrappers
  import opened RemoteTree
  import opened DeployScripts

  lemma Slice(tools: Tools, script: seq<Command>, trace: seq<Tree>, done: nat, a: nat, b: nat)
    requires IsRun(tools, script, trace, done) && a <= b <= done
    ensures IsRun(tools, script[a..b], trace[a..b + 1], b - a)
  {
    forall i | 0 <= i < b - a
      ensures Ran(tools, trace[a..b + 1][i], script[a..b][i], trace[a..b + 1][i + 1], true)
    {
      assert Ran(tools, trace[a + i], script[a + i], trace[a + i + 1], true);
    }
  }

  ghost predicate BackupDirsPresent(l: Layout, t: Tree) {
    forall q :: Under(q, l.BackupRoot()) ==> IsDir(t, q)
  }

  lemma {:induction false} RunKeepsBackupDirs(tools: Tools, l: Layout, script: seq<Command>, trace: seq<Tree>,
                                              done: nat, j: nat)
    requires IsRun(tools, script, trace, done) && j < |trace|
    requires BackupDirsPresent(l, trace[0]) && ScriptWritesAwayFrom(script, l.Kept("."))
    ensures BackupDirsPresent(l, trace[j])
  {
    if j > 0 {
      RunKeepsBackupDirs(tools, l, script, trace, done, j - 1);
      var t, c, u := trace[j - 1], script[j - 1], trace[j];
      RanFrames(tools, t, c, u, j - 1 < done);
      var p := l.Kept(".");
      assert Under(l.BackupRoot(), p);
      forall q | Under(q, l.BackupRoot()) ensures IsDir(u, q) {
        UnderTransitive(q, l.BackupRoot(), p);
        AwayKeepsAncestors(t, c, p, q);
      }
    }
  }

  // ---------------------------------------------------------------------------
  // Staging
  // ---------------------------------------------------------------------------

  predicate AreApart(a: Path, b: Path) { !Under(a, b) && !Under(b, a) }

  /** Everything staging writes lies beside the path. */
  predicate BesideStaging(l: Layout, p: Path) {
    && AreApart(l.CandidateSource(), p) && AreApart(l.PreviousTmp(), p) && AreApart(l.PreviousSource(), p)
    && AreApart(l.DurableTmp(), p) && AreApart(l.IdentityTmp(), p) && AreApart(l.Identity(), p)
  }

  lemma OtherNamesLieBeside(l: Layout, name: string)
    requires |name| in {1, |l.DurableArchive()[6]|}
    ensures BesideStaging(l, l.Kept(name))
  {
    var p := l.Kept(name);
    assert l.CandidateSource()[6] != name && l.PreviousTmp()[6] != name && l.PreviousSource()[6] != name
      && l.DurableTmp()[6] != name && l.IdentityTmp()[6] != name && l.Identity()[6] != name;
    Apart(l.CandidateSource(), p, 6);
    Apart(l.PreviousTmp(), p, 6);
    Apart(l.PreviousSource(), p, 6);
    Apart(l.DurableTmp(), p, 6);
    Apart(l.IdentityTmp(), p, 6);
    Apart(l.Identity(), p, 6);
  }

  lemma StageWritesBeside(l: Layout, id: ArchiveIdentity, p: Path)
    requires BesideStaging(l, p)
    ensures ScriptWritesAwayFrom(StageCandidate(l, id)[3..], p)
  {
    var stage := StageCandidate(l, id)[3..];
    assert stage == [RmRf(l.CandidateSource()), MkdirP(l.CandidateSource()),
                     Untar(l.CandidateArchive(), l.CandidateSource()),
                     HashCheck(l.CandidateSource() + [MANIFEST], id.candidateManifestSha),
                     GrepVersion(l.CandidateSource() + [CONFIG], id.candidateVersion)];
  }

  lemma SecureWritesBeside(l: Layout, id: ArchiveIdentity, p: Path)
    requires BesideStaging(l, p)
    ensures ScriptWritesAwayFrom(SecureRollback(l, id)[..4], p) && ScriptWritesAwayFrom(SecureRollback(l, id)[5..], p)
  {
    var early, late := SecureRollback(l, id)[..4], SecureRollback(l, id)[5..];
    assert early == [WhenDir(ADDON_SOURCE, TarDir(ADDON_SOURCE, l.PreviousTmp())),
                     WhenDir(ADDON_SOURCE, Mv(l.PreviousTmp(), l.PreviousSource())),
                     Cp(l.RollbackUpload(), l.DurableTmp()),
                     HashCheck(l.DurableTmp(), id.rollbackArchiveSha)];
    assert late == [WriteFile(l.IdentityTmp(), IdentityText(id)), Mv(l.IdentityTmp(), l.Identity()),
                    Marker("stage_ready")];
  }

  /** Staging writes nothing at a path of another name. */
  lemma StagingWritesBeside(l: Layout, id: ArchiveIdentity, name: string)
    requires |name| in {1, |l.DurableArchive()[6]|}
    ensures var p := l.Kept(name);
            && ScriptWritesAwayFrom(StageCandidate(l, id)[3..], p)
            && ScriptWritesAwayFrom(SecureRollback(l, id)[..4], p)
            && ScriptWritesAwayFrom(SecureRollback(l, id)[5..], p)
  {
    OtherNamesLieBeside(l, name);
    StageWritesBeside(l, id, l.Kept(name));
    SecureWritesBeside(l, id, l.Kept(name));
  }

  lemma FirstCommandsSpareArchive(l: Layout, id: ArchiveIdentity)
    ensures ScriptWritesAwayFrom(StageCandidate(l, id)[..3], l.DurableArchive())
  {
    assert |l.DurableArchive()| > |l.BackupRoot()|;
    assert StageCandidate(l, id)[..3] ==
      [HashCheck(l.CandidateArchive(), id.candidateArchiveSha), HashCheck(l.RollbackUpload(), id.rollbackArchiveSha),
       MkdirP(l.BackupRoot())];
  }

  lemma MkdirMakesBackupDirs(tools: Tools, l: Layout, t: Tree, u: Tree)
    requires Effect(tools, t, MkdirP(l.BackupRoot())) == Some(u)
    ensures BackupDirsPresent(l, u)
  {
    var p := l.BackupRoot();
    forall q | Under(q, p) ensures IsDir(u, q) {
      assert q == p[..|q|] && q in Prefixes(p);
    }
  }

  /** The checked copy becomes the durable archive, or vanishes into a directory of that name. */
  lemma RenameToDurable(tools: Tools, l: Layout, t: Tree, u: Tree)
    requires Effect(tools, t, Mv(l.DurableTmp(), l.DurableArchive())) == Some(u)
    requires IsFile(t, l.DurableTmp())
    ensures if IsDir(t, l.DurableArchive()) then IsDir(u, l.DurableArchive())
            else l.DurableArchive() in u && u[l.DurableArchive()] == t[l.DurableTmp()]
  {
    var from, to := l.DurableTmp(), l.DurableArchive();
    Apart(from, to, 6);
    if IsDir(t, to) {
      MoveElsewhere(t, from, to + [Name(from)], to);
    } else {
      MoveAt(t, from, to, []);
      assert from + [] == from && to + [] == to;
    }
  }

  /** Staging that ran to its end secured the archive, exactly unless a directory was in its place. */
  lemma PrepareSecuresArchive(tools: Tools, l: Layout, id: ArchiveIdentity, trace: seq<Tree>)
    requires IsRun(tools, Prepare(l, id), trace, 16) && Completed(Prepare(l, id), trace, 16)
    ensures ArchiveSafe(tools, l, id.rollbackArchiveSha, trace[16]) <==> !IsDir(trace[0], l.DurableArchive())
  {
    var p, script, dot := l.DurableArchive(), Prepare(l, id), l.Kept(".");
    StagingWritesBeside(l, id, p[6]);
    StagingWritesBeside(l, id, ".");
    FirstCommandsSpareArchive(l, id);
    Apart(p, dot, 6);
    // The directories above the archive exist from command 2 on.
    assert Ran(tools, trace[2], script[2], trace[3], true);
    MkdirMakesBackupDirs(tools, l, trace[2], trace[3]);
    Slice(tools, script, trace, 16, 3, 16);
    assert script[3..16] == StageCandidate(l, id)[3..] + SecureRollback(l, id)[..4]
                            + [Mv(l.DurableTmp(), p)] + SecureRollback(l, id)[5..];
    Apart(l.DurableTmp(), dot, 6);
    RunKeepsBackupDirs(tools, l, script[3..16], trace[3..17], 13, 13);
    // Nothing touches the archive's own path before command 12.
    Slice(tools, script, trace, 16, 0, 12);
    assert script[0..12] == StageCandidate(l, id)[..3] + StageCandidate(l, id)[3..] + SecureRollback(l, id)[..4];
    AwaySpares(script[0..12], p);
    RunKeepsUntouched(tools, script[0..12], trace[0..13], 12, p, 12);
    // Command 11 verifies the copy, command 12 renames it, and the rest leaves it alone.
    assert Ran(tools, trace[11], script[11], trace[12], true) && Ran(tools, trace[12], script[12], trace[13], true);
    RenameToDurable(tools, l, trace[12], trace[13]);
    Slice(tools, script, trace, 16, 13, 16);
    assert script[13..16] == SecureRollback(l, id)[5..];
    AwaySpares(script[13..16], p);
    RunKeepsUntouched(tools, script[13..16], trace[13..17], 3, p, 3);
  }

  /** The staged candidate: its manifest has the verified hash, its config names the version. */
  predicate HoldsPackage(tools: Tools, t: Tree, root: Path, manifestSha: string, version: string) {
    && IsFile(t, root + [MANIFEST]) && tools.sha256(t[root + [MANIFEST]].content) == manifestSha
    && IsFile(t, root + [CONFIG]) && tools.declaresVersion(t[root + [CONFIG]].content, version)
  }

  lemma PrepareStagesCandidate(tools: Tools, l: Layout, id: ArchiveIdentity, trace: seq<Tree>)
    requires IsRun(tools, Prepare(l, id), trace, 16) && Completed(Prepare(l, id), trace, 16)
    ensures HoldsPackage(tools, trace[16], l.CandidateSource(), id.candidateManifestSha, id.candidateVersion)
  {
    var script := Prepare(l, id);
    assert Ran(tools, trace[6], script[6], trace[7], true) && Ran(tools, trace[7], script[7], trace[8], true);
    Slice(tools, script, trace, 16, 8, 16);
    assert script[8..16] == SecureRollback(l, id);
    SecureSparesStaged(tools, l, id, MANIFEST, trace[8..17]);
    SecureSparesStaged(tools, l, id, CONFIG, trace[8..17]);
  }

  /** Securing the rollback leaves the unpacked candidate alone. */
  lemma SecureSparesStaged(tools: Tools, l: Layout, id: ArchiveIdentity, name: string, trace: seq<Tree>)
    requires IsRun(tools, SecureRollback(l, id), trace, 8)
    ensures SameAt(trace[0], trace[8], l.CandidateSource() + [name])
  {
    var q := l.CandidateSource() + [name];
    Apart(l.PreviousTmp(), q, 6);
    Apart(l.PreviousSource(), q, 6);
    Apart(l.DurableTmp(), q, 6);
    Apart(l.DurableArchive(), q, 6);
    Apart(l.IdentityTmp(), q, 6);
    Apart(l.Identity(), q, 6);
    AwaySpares(SecureRollback(l, id), q);
    RunKeepsUntouched(tools, SecureRollback(l, id), trace, 8, q, 8);
  }

  // ---------------------------------------------------------------------------
  // Replacing the add-on source
  // ---------------------------------------------------------------------------

  lemma StepAt(tools: Tools, script: seq<Command>, trace: seq<Tree>, i: nat, c: Command)
    requires IsRun(tools, script, trace, |script|) && i < |script| && script[i] == c
    ensures Effect(tools, trace[i], c) == Some(trace[i + 1])
    ensures c.HashCheck? || c.TestFile? || c.GrepVersion? || c.Marker? ==> trace[i + 1] == trace[i]
  {
    assert Ran(tools, trace[i], script[i], trace[i + 1], true);
  }

  /** u holds at `to` exactly what t held at `from`. */
  ghost predicate Relocated(t: Tree, from: Path, u: Tree, to: Path) {
    forall rel :: (to + rel in u <==> from + rel in t) && (from + rel in t ==> u[to + rel] == t[from + rel])
  }

  lemma MoveRelocates(tools: Tools, from: Path, to: Path, t: Tree, u: Tree)
    requires Effect(tools, t, Mv(from, to)) == Some(u) && to !in t
    requires !Under(to, from) && !Under(from, to)
    ensures Relocated(t, from, u, to)
  {
    forall rel ensures (to + rel in u <==> from + rel in t) && (from + rel in t ==> u[to + rel] == t[from + rel]) {
      MoveAt(t, from, to, rel);
    }
  }

  /** The last commands of activation and of rollback: clear the source, move in, touch. */
  lemma MoveIntoPlace(tools: Tools, from: Path, t0: Tree, t1: Tree, t2: Tree, t3: Tree)
    requires Effect(tools, t0, RmRf(ADDON_SOURCE)) == Some(t1)
    requires Effect(tools, t1, Mv(from, ADDON_SOURCE)) == Some(t2)
    requires Effect(tools, t2, Touch(ADDON_SOURCE + [CONFIG])) == Some(t3)
    requires !Under(from, ADDON_SOURCE) && !Under(ADDON_SOURCE, from)
    requires from + [CONFIG] in t0
    ensures Relocated(t0, from, t3, ADDON_SOURCE)
  {
    assert Under(ADDON_SOURCE, ADDON_SOURCE);
    MoveRelocates(tools, from, ADDON_SOURCE, t1, t2);
    ClearingSpares(tools, from, t0, t1);
    TouchChangesNothing(tools, from, t0, t1, t2, t3);
  }

  lemma ClearingSpares(tools: Tools, from: Path, t0: Tree, t1: Tree)
    requires Effect(tools, t0, RmRf(ADDON_SOURCE)) == Some(t1)
    requires !Under(from, ADDON_SOURCE) && !Under(ADDON_SOURCE, from)
    ensures forall rel: Path :: SameAt(t0, t1, from + rel)
  {
    forall rel: Path ensures SameAt(t0, t1, from + rel) {
      assert Under(from, from + rel);
      if Under(ADDON_SOURCE, from + rel) { NestedOrApart(from, ADDON_SOURCE, from + rel); }
    }
  }

  lemma TouchChangesNothing(tools: Tools, from: Path, t0: Tree, t1: Tree, t2: Tree, t3: Tree)
    requires Relocated(t1, from, t2, ADDON_SOURCE) && from + [CONFIG] in t0
    requires forall rel: Path :: SameAt(t0, t1, from + rel)
    requires Effect(tools, t2, Touch(ADDON_SOURCE + [CONFIG])) == Some(t3)
    ensures Relocated(t0, from, t3, ADDON_SOURCE)
  {
    assert SameAt(t0, t1, from + [CONFIG]);
    assert ADDON_SOURCE + [CONFIG] in t2;
    forall rel: Path
      ensures (ADDON_SOURCE + rel in t3 <==> from + rel in t0)
              && (from + rel in t0 ==> t3[ADDON_SOURCE + rel] == t0[from + rel])
    {
      assert SameAt(t0, t1, from + rel);
    }
  }

  /** Activation that ran to its end turned the staged tree, node for node, into the source. */
  lemma ActivateInstallsCandidate(tools: Tools, l: Layout, trace: seq<Tree>)
    requires IsRun(tools, Activate(l), trace, 5) && Completed(Activate(l), trace, 5)
    requires l.CandidateSource() + [CONFIG] in trace[0]
    ensures Relocated(trace[0], l.CandidateSource(), trace[5], ADDON_SOURCE)
  {
    var d := l.CandidateSource();
    ActivateSteps(tools, l, trace);
    Apart(ADDON_SOURCE, d, 3);
    MoveIntoPlace(tools, d, trace[1], trace[2], trace[3], trace[4]);
  }

  lemma ActivateSteps(tools: Tools, l: Layout, trace: seq<Tree>)
    requires IsRun(tools, Activate(l), trace, 5) && Completed(Activate(l), trace, 5)
    ensures trace[1] == trace[0] && trace[5] == trace[4]
    ensures Effect(tools, trace[1], RmRf(ADDON_SOURCE)) == Some(trace[2])
    ensures Effect(tools, trace[2], Mv(l.CandidateSource(), ADDON_SOURCE)) == Some(trace[3])
    ensures Effect(tools, trace[3], Touch(ADDON_SOURCE + [CONFIG])) == Some(trace[4])
  {
    var script, d := Activate(l), l.CandidateSource();
    StepAt(tools, script, trace, 0, TestFile(d + [MANIFEST]));
    StepAt(tools, script, trace, 1, RmRf(ADDON_SOURCE));
    StepAt(tools, script, trace, 2, Mv(d, ADDON_SOURCE));
    StepAt(tools, script, trace, 3, Touch(ADDON_SOURCE + [CONFIG]));
    StepAt(tools, script, trace, 4, Marker("source_activated"));
  }

  /** The source is a directory holding exactly what the archive unpacks to. */
  ghost predicate SourceIs(t: Tree, sub: Tree) {
    && IsDir(t, ADDON_SOURCE)
    && forall rel: Path :: rel != [] ==>
         (ADDON_SOURCE + rel in t <==> rel in sub) && (rel in sub ==> t[ADDON_SOURCE + rel] == sub[rel])
  }

  lemma FreshDirIsEmpty(tools: Tools, d: Path, t0: Tree, t1: Tree, t2: Tree)
    requires Effect(tools, t0, RmRf(d)) == Some(t1) && Effect(tools, t1, MkdirP(d)) == Some(t2)
    ensures IsDir(t2, d)
    ensures forall rel: Path :: rel != [] ==> d + rel !in t2
  {
    assert d == d[..|d|] && d in Prefixes(d);
    forall rel: Path | rel != [] ensures d + rel !in t2 {
      assert Under(d, d + rel);
      assert forall i :: 0 <= i <= |d| ==> |d[..i]| < |d + rel|;
    }
  }

  lemma UntarFills(tools: Tools, archive: Path, d: Path, t: Tree, u: Tree)
    requires Effect(tools, t, Untar(archive, d)) == Some(u)
    requires forall rel: Path :: rel != [] ==> d + rel !in t
    ensures IsFile(t, archive) && tools.unpack(t[archive].content).Some? && IsDir(u, d)
    ensures var sub := tools.unpack(t[archive].content).value;
            forall rel: Path :: rel != [] ==>
              (d + rel in u <==> rel in sub) && (rel in sub ==> u[d + rel] == sub[rel])
  {
    var sub := tools.unpack(t[archive].content).value;
    PlaceAt(t, d, sub, []);
    assert d + [] == d;
    forall rel: Path | rel != []
      ensures (d + rel in u <==> rel in sub) && (rel in sub ==> u[d + rel] == sub[rel])
    {
      PlaceAt(t, d, sub, rel);
    }
  }

  /** Rollback that ran to its end restored the archived source, with its verified manifest. */
  lemma RollbackRestoresSource(tools: Tools, l: Layout, sha: string, trace: seq<Tree>)
    requires IsRun(tools, RollbackSource(l, sha), trace, 10) && Completed(RollbackSource(l, sha), trace, 10)
    ensures IsFile(trace[0], l.DurableArchive())
    ensures var archive := trace[0][l.DurableArchive()].content;
            && tools.sha256(archive) == sha
            && tools.unpack(archive).Some?
            && SourceIs(trace[10], tools.unpack(archive).value)
            && HoldsPackage(tools, trace[10], ADDON_SOURCE, ROLLBACK_MANIFEST_SHA256, ROLLBACK_VERSION)
  {
    var d, p := l.RollbackSource(), l.DurableArchive();
    UnpackSteps(tools, l, sha, trace);
    FreshDirIsEmpty(tools, d, trace[1], trace[2], trace[3]);
    ArchiveOutlivesFreshDir(tools, l, trace[1], trace[2], trace[3]);
    UntarFills(tools, p, d, trace[3], trace[4]);
    RestoreSteps(tools, l, sha, trace);
    SourceFromUnpacked(tools, d, tools.unpack(trace[0][p].content).value, trace[6], trace[7], trace[8], trace[9]);
  }

  lemma UnpackSteps(tools: Tools, l: Layout, sha: string, trace: seq<Tree>)
    requires IsRun(tools, RollbackSource(l, sha), trace, 10) && Completed(RollbackSource(l, sha), trace, 10)
    ensures trace[1] == trace[0] && IsFile(trace[0], l.DurableArchive())
    ensures tools.sha256(trace[0][l.DurableArchive()].content) == sha
    ensures Effect(tools, trace[1], RmRf(l.RollbackSource())) == Some(trace[2])
    ensures Effect(tools, trace[2], MkdirP(l.RollbackSource())) == Some(trace[3])
    ensures Effect(tools, trace[3], Untar(l.DurableArchive(), l.RollbackSource())) == Some(trace[4])
  {
    var script, d, p := RollbackSource(l, sha), l.RollbackSource(), l.DurableArchive();
    StepAt(tools, script, trace, 0, HashCheck(p, sha));
    StepAt(tools, script, trace, 1, RmRf(d));
    StepAt(tools, script, trace, 2, MkdirP(d));
    StepAt(tools, script, trace, 3, Untar(p, d));
  }

  lemma RestoreSteps(tools: Tools, l: Layout, sha: string, trace: seq<Tree>)
    requires IsRun(tools, RollbackSource(l, sha), trace, 10) && Completed(RollbackSource(l, sha), trace, 10)
    ensures trace[6] == trace[4] && trace[10] == trace[9]
    ensures HoldsPackage(tools, trace[6], l.RollbackSource(), ROLLBACK_MANIFEST_SHA256, ROLLBACK_VERSION)
    ensures Effect(tools, trace[6], RmRf(ADDON_SOURCE)) == Some(trace[7])
    ensures Effect(tools, trace[7], Mv(l.RollbackSource(), ADDON_SOURCE)) == Some(trace[8])
    ensures Effect(tools, trace[8], Touch(ADDON_SOURCE + [CONFIG])) == Some(trace[9])
  {
    var script, d := RollbackSource(l, sha), l.RollbackSource();
    StepAt(tools, script, trace, 4, HashCheck(d + [MANIFEST], ROLLBACK_MANIFEST_SHA256));
    StepAt(tools, script, trace, 5, GrepVersion(d + [CONFIG], ROLLBACK_VERSION));
    StepAt(tools, script, trace, 6, RmRf(ADDON_SOURCE));
    StepAt(tools, script, trace, 7, Mv(d, ADDON_SOURCE));
    StepAt(tools, script, trace, 8, Touch(ADDON_SOURCE + [CONFIG]));
    StepAt(tools, script, trace, 9, Marker("rollback_source_restored"));
  }

  lemma ArchiveOutlivesFreshDir(tools: Tools, l: Layout, t0: Tree, t1: Tree, t2: Tree)
    requires Effect(tools, t0, RmRf(l.RollbackSource())) == Some(t1)
    requires Effect(tools, t1, MkdirP(l.RollbackSource())) == Some(t2)
    requires l.DurableArchive() in t0
    ensures SameAt(t0, t2, l.DurableArchive())
  {
    Apart(l.RollbackSource(), l.DurableArchive(), 6);
  }

  lemma SourceFromUnpacked(tools: Tools, d: Path, sub: Tree, t0: Tree, t1: Tree, t2: Tree, t3: Tree)
    requires Effect(tools, t0, RmRf(ADDON_SOURCE)) == Some(t1)
    requires Effect(tools, t1, Mv(d, ADDON_SOURCE)) == Some(t2)
    requires Effect(tools, t2, Touch(ADDON_SOURCE + [CONFIG])) == Some(t3)
    requires |d| > 3 && d[3] != "apps"
    requires IsDir(t0, d) && HoldsPackage(tools, t0, d, ROLLBACK_MANIFEST_SHA256, ROLLBACK_VERSION)
    requires forall rel: Path :: rel != [] ==>
               (d + rel in t0 <==> rel in sub) && (rel in sub ==> t0[d + rel] == sub[rel])
    ensures SourceIs(t3, sub)
    ensures HoldsPackage(tools, t3, ADDON_SOURCE, ROLLBACK_MANIFEST_SHA256, ROLLBACK_VERSION)
  {
    Apart(ADDON_SOURCE, d, 3);
    MoveIntoPlace(tools, d, t0, t1, t2, t3);
    RelocatedPackage(tools, t0, d, t3, ADDON_SOURCE, ROLLBACK_MANIFEST_SHA256, ROLLBACK_VERSION);
    assert ADDON_SOURCE + [] == ADDON_SOURCE && d + [] == d;
    forall rel: Path | rel != []
      ensures (ADDON_SOURCE + rel in t3 <==> rel in sub) && (rel in sub ==> t3[ADDON_SOURCE + rel] == sub[rel])
    {
      assert ADDON_SOURCE + rel in t3 <==> d + rel in t0;
    }
  }

  lemma RelocatedPackage(tools: Tools, t: Tree, from: Path, u: Tree, to: Path, manifestSha: string, version: string)
    requires Relocated(t, from, u, to) && HoldsPackage(tools, t, from, manifestSha, version)
    ensures HoldsPackage(tools, u, to, manifestSha, version)
  {
    assert from + [MANIFEST] in t && from + [CONFIG] in t;
  }
}
