/**
 The deployment transaction (tools/haos-candidate-deploy.ts:296-444): stage, activate,
 verify, and roll back on any failure.

 What the guest and the network do is a `World`, of which nothing is assumed: every script may
 break off at any command and leave that command's work half done, every success marker may be
 lost, every probe may answer or not, and the Supervisor may install anything.  A script whose
 marker was lost has stopped before the next one starts.
 */
module Deployment {
  import opened Wrappers
  import opened RemoteTree
  import opened DeployScripts
  import opened DeployEffects

  datatype AppInfo = AppInfo(slug: string, version: string, state: string, boot: string,
                             repository: string, build: bool, apparmor: string, ingress: bool)

  predicate DeployedAppMatches(app: AppInfo, version: string, slug: string) {
    && app.slug == slug && app.version == version
    && app.state == "started" && app.boot == "auto" && app.repository == "local"
    && app.build && app.apparmor == "profile" && app.ingress
  }

  datatype Options = Options(candidateVersion: string, candidateCommit: string, addonSlug: string)

  datatype Bundle = Bundle(candidateArchive: Content, candidateManifestSha: string, candidateVersion: string,
                           rollbackArchive: Content)

  datatype Readiness = Unavailable | Denied | Authorized
  datatype Outcome = Aborted | PreflightChanged | Deployed | RolledBack | RollbackFailed

  const HEALTH_ATTEMPTS := 30

  /** The safety promise for one tree of the run: nothing lost, or everything recoverable. */
  ghost predicate Recoverable(tools: Tools, l: Layout, sha: string, before: Tree, t: Tree) {
    SourceSame(before, t) || ArchiveSafe(tools, l, sha, t)
  }

  function IdentityOf(tools: Tools, options: Options, bundle: Bundle): ArchiveIdentity {
    ArchiveIdentity(options.candidateCommit, tools.sha256(bundle.candidateArchive), bundle.candidateManifestSha,
                    bundle.candidateVersion, tools.sha256(bundle.rollbackArchive))
  }

  /** What the transaction asks of the guest, in order. */
  datatype Action = Script(commands: seq<Command>) | SupervisorAction

  function StagingScripts(options: Options, tools: Tools, bundle: Bundle, l: Layout): seq<seq<Command>> {
    [Initialize(l),
     [WriteFile(l.CandidateArchive(), bundle.candidateArchive)],
     [WriteFile(l.RollbackUpload(), bundle.rollbackArchive)],
     Prepare(l, IdentityOf(tools, options, bundle))]
  }

  function Scripts(scripts: seq<seq<Command>>): (actions: seq<Action>)
    ensures |actions| == |scripts|
  {
    seq(|scripts|, i requires 0 <= i < |scripts| => Script(scripts[i]))
  }

  /** One script, then the Supervisor unless the script went unacknowledged. */
  predicate AreAttempt(actions: seq<Action>, script: seq<Command>, finished: bool) {
    actions == [Script(script), SupervisorAction] || (!finished && actions == [Script(script)])
  }

  /** The order of actions behind each outcome: nothing follows a failed staging; a failed
      activation is always followed by a rollback; only a settled run is cleaned up. */
  ghost predicate FollowsPlan(outcome: Outcome, actions: seq<Action>, staging: seq<Action>, l: Layout, sha: string) {
    match outcome
    case Aborted => actions <= staging
    case PreflightChanged => actions == staging + [Script(Cleanup(l))]
    case Deployed => actions == staging + [Script(Activate(l)), SupervisorAction] + [Script(Cleanup(l))]
    case RolledBack => exists tried ::
      AreAttempt(tried, Activate(l), false)
      && actions == staging + tried + [Script(RollbackSource(l, sha)), SupervisorAction] + [Script(Cleanup(l))]
    case RollbackFailed => exists tried, restoring ::
      AreAttempt(tried, Activate(l), false) && AreAttempt(restoring, RollbackSource(l, sha), false)
      && actions == staging + tried + restoring
  }

  predicate LayoutMatches(l: Layout, id: ArchiveIdentity) {
    && |id.candidateCommit| >= 12 && |id.candidateManifestSha| >= 12
    && l.deploymentId == id.candidateCommit[..12] + "-" + id.candidateManifestSha[..12]
  }

  /** For an identity the builders accept there is one layout that matches: the one created. */
  lemma LayoutMatchesExactly(l: Layout, id: ArchiveIdentity)
    requires ValidIdentity(id)
    ensures LayoutMatches(l, id) <==> CreateLayout(id.candidateCommit, id.candidateManifestSha) == Some(l)
  {
  }

  // ---------------------------------------------------------------------------
  // What the guest and the network do
  // ---------------------------------------------------------------------------

  /** Where a script breaks off, if before its end, the tree that command would leave, and whether
      the marker of a script that ran through arrives. */
  datatype ScriptAnswer = ScriptAnswer(breaksAt: nat, partial: Tree, markerArrives: bool)

  /** Whether the store reloads, what an update or rebuild installs, and whether it reports back. */
  datatype SupervisorAnswer =
    SupervisorAnswer(reloads: bool, app: AppInfo, manifestSha: string, runtimeSha: string, finishes: bool)

  /** The health probes one by one, and whether the app and the manifest can be read. */
  datatype CheckAnswer = CheckAnswer(probes: seq<bool>, appReads: bool, manifestReads: bool)

  datatype World = World(
    initialize: ScriptAnswer, candidateUpload: ScriptAnswer, rollbackUpload: ScriptAnswer, prepare: ScriptAnswer,
    readiness: Readiness,
    activate: ScriptAnswer, update: SupervisorAnswer, check: CheckAnswer,
    rollback: ScriptAnswer, rebuild: SupervisorAnswer, recheck: CheckAnswer, runtimeReads: bool,
    cleanup: ScriptAnswer)

  /** What a broken command leaves: nothing outside the paths it works on has changed. */
  function LeftBy(t: Tree, c: Command, partial: Tree): Tree { if Frames(t, c, partial) then partial else t }

  /** The tree a script leaves, and whether it ran through. */
  function RunFrom(tools: Tools, t: Tree, script: seq<Command>, breaksAt: nat, partial: Tree): (Tree, bool)
    decreases |script|
  {
    if script == [] then (t, true)
    else
      var effect := Effect(tools, t, script[0]);
      if breaksAt == 0 || effect.None? then (LeftBy(t, script[0], partial), false)
      else RunFrom(tools, effect.value, script[1..], breaksAt - 1, partial)
  }

  /** After some commands that succeeded the rest runs from the tree they led to; once one has
      failed, its tree is the last. */
  predicate IsPartOfRun(tools: Tools, t: Tree, script: seq<Command>, a: ScriptAnswer, i: nat, u: Tree, ok: bool)
    requires i <= |script|
  {
    RunFrom(tools, t, script, a.breaksAt, a.partial)
    == if ok && i <= a.breaksAt then RunFrom(tools, u, script[i..], a.breaksAt - i, a.partial) else (u, false)
  }

  lemma NextCommand(tools: Tools, t: Tree, script: seq<Command>, a: ScriptAnswer, i: nat, u: Tree, v: Tree, ok: bool)
    requires i < |script| && i <= a.breaksAt && IsPartOfRun(tools, t, script, a, i, u, true)
    requires ok <==> i != a.breaksAt && Effect(tools, u, script[i]).Some?
    requires v == if ok then Effect(tools, u, script[i]).value else LeftBy(u, script[i], a.partial)
    ensures IsPartOfRun(tools, t, script, a, if ok then i + 1 else i, v, ok) && (ok ==> i + 1 <= a.breaksAt)
  {
    assert script[i..][0] == script[i] && script[i..][1..] == script[i + 1..];
  }

  lemma RunGrows(tools: Tools, script: seq<Command>, trace: seq<Tree>, i: nat, u: Tree, ok: bool)
    requires i < |script| && IsRun(tools, script, trace, i) && |trace| == i + 1
    requires Ran(tools, trace[i], script[i], u, ok)
    ensures IsRun(tools, script, trace + [u], if ok then i + 1 else i)
  {
    var all, done := trace + [u], if ok then i + 1 else i;
    forall k | 0 <= k < |all| - 1
      ensures Ran(tools, all[k], script[k], all[k + 1], k < done)
    {
      if k < i { assert Ran(tools, trace[k], script[k], trace[k + 1], k < i); }
    }
  }

  function TreeAfter(tools: Tools, t: Tree, script: seq<Command>, a: ScriptAnswer): Tree {
    RunFrom(tools, t, script, a.breaksAt, a.partial).0
  }

  predicate Acknowledged(tools: Tools, t: Tree, script: seq<Command>, a: ScriptAnswer) {
    RunFrom(tools, t, script, a.breaksAt, a.partial).1 && a.markerArrives
  }

  // ---------------------------------------------------------------------------
  // When each part succeeds
  // ---------------------------------------------------------------------------

  /** One of at most thirty probes answers. */
  predicate Answers(probes: seq<bool>) { exists i :: 0 <= i < |probes| && i < 30 && probes[i] }

  function InitializedTree(tools: Tools, t: Tree, l: Layout, w: World): Tree {
    TreeAfter(tools, t, Initialize(l), w.initialize)
  }

  function HalfUploadedTree(tools: Tools, t: Tree, bundle: Bundle, l: Layout, w: World): Tree {
    TreeAfter(tools, InitializedTree(tools, t, l, w), [WriteFile(l.CandidateArchive(), bundle.candidateArchive)],
              w.candidateUpload)
  }

  function UploadedTree(tools: Tools, t: Tree, bundle: Bundle, l: Layout, w: World): Tree {
    TreeAfter(tools, HalfUploadedTree(tools, t, bundle, l, w),
              [WriteFile(l.RollbackUpload(), bundle.rollbackArchive)], w.rollbackUpload)
  }

  function StagedTree(tools: Tools, t: Tree, options: Options, bundle: Bundle, l: Layout, w: World): Tree {
    TreeAfter(tools, UploadedTree(tools, t, bundle, l, w), Prepare(l, IdentityOf(tools, options, bundle)), w.prepare)
  }

  /** The temporary directory is made and both archives arrive in it. */
  predicate Uploads(tools: Tools, t: Tree, bundle: Bundle, l: Layout, w: World) {
    && Acknowledged(tools, t, Initialize(l), w.initialize)
    && Acknowledged(tools, InitializedTree(tools, t, l, w),
                    [WriteFile(l.CandidateArchive(), bundle.candidateArchive)], w.candidateUpload)
    && Acknowledged(tools, HalfUploadedTree(tools, t, bundle, l, w),
                    [WriteFile(l.RollbackUpload(), bundle.rollbackArchive)], w.rollbackUpload)
  }

  predicate Stages(tools: Tools, t: Tree, options: Options, bundle: Bundle, l: Layout, w: World) {
    var id := IdentityOf(tools, options, bundle);
    && Uploads(tools, t, bundle, l, w) && ValidIdentity(id) && LayoutMatches(l, id)
    && Acknowledged(tools, UploadedTree(tools, t, bundle, l, w), Prepare(l, id), w.prepare)
  }

  /** The script and the Supervisor report back, a probe answers, and what the Supervisor installed
      is read and is the version asked for. */
  predicate Installs(tools: Tools, t: Tree, script: seq<Command>, version: string, slug: string,
                     a: ScriptAnswer, s: SupervisorAnswer, c: CheckAnswer) {
    && Acknowledged(tools, t, script, a) && s.reloads && s.finishes
    && Answers(c.probes) && c.appReads
    && s.app.slug == slug && s.app.version == version && s.app.state == "started" && s.app.boot == "auto"
    && s.app.repository == "local" && s.app.build && s.app.apparmor == "profile" && s.app.ingress
  }

  predicate Activates(tools: Tools, staged: Tree, options: Options, bundle: Bundle, l: Layout, w: World) {
    && Installs(tools, staged, Activate(l), options.candidateVersion, options.addonSlug, w.activate, w.update, w.check)
    && w.check.manifestReads && w.update.manifestSha == bundle.candidateManifestSha
  }

  predicate Restores(tools: Tools, t: Tree, options: Options, bundle: Bundle, l: Layout, w: World) {
    && Installs(tools, t, RollbackSource(l, tools.sha256(bundle.rollbackArchive)), ROLLBACK_VERSION, options.addonSlug,
                w.rollback, w.rebuild, w.recheck)
    && w.runtimeReads && w.rebuild.runtimeSha == ROLLBACK_RUNTIME_SHA256
  }

  class Guest {
    const tools: Tools
    var tree: Tree
    var app: AppInfo
    var manifestSha: string
    var runtimeSha: string
    /** Every tree since the deployment began; the current one is last. */
    ghost var history: seq<Tree>
    ghost var actions: seq<Action>

    constructor (tools: Tools, tree: Tree, app: AppInfo)
      ensures this.tools == tools && this.tree == tree && this.app == app && history == [tree] && actions == []
    {
      this.tools, this.tree, this.app := tools, tree, app;
      manifestSha, runtimeSha, history, actions := "", "", [tree], [];
    }

    ghost predicate Recorded()
      reads this
    {
      history != [] && history[|history| - 1] == tree
    }

    // -------------------------------------------------------------------------
    // What the guest does
    // -------------------------------------------------------------------------

    method Execute(c: Command, breaks: bool, partial: Tree) returns (ok: bool)
      requires Recorded()
      modifies this`tree, this`history
      ensures ok <==> !breaks && Effect(tools, old(tree), c).Some?
      ensures tree == if ok then Effect(tools, old(tree), c).value else LeftBy(old(tree), c, partial)
      ensures Recorded() && history == old(history) + [tree]
      ensures Ran(tools, old(tree), c, tree, ok)
    {
      var effect := Effect(tools, tree, c);
      ok := !breaks && effect.Some?;
      if ok {
        tree := effect.value;
      } else {
        tree := LeftBy(tree, c, partial);
      }
      history := history + [tree];
    }

    /** `runGuestMarker`: acknowledged exactly if the script ran through and its marker arrived. */
    method RunGuestMarker(script: seq<Command>, a: ScriptAnswer)
      returns (acknowledged: bool, ghost trace: seq<Tree>, ghost done: nat)
      requires Recorded()
      modifies this`tree, this`history, this`actions
      ensures actions == old(actions) + [Script(script)]
      ensures IsRun(tools, script, trace, done) && trace[0] == old(tree) && trace[|trace| - 1] == tree
      ensures acknowledged <==> Acknowledged(tools, old(tree), script, a)
      ensures tree == TreeAfter(tools, old(tree), script, a)
      ensures acknowledged ==> Completed(script, trace, done)
      ensures Recorded() && history == old(history) + trace[1..]
    {
      trace, done, actions := [tree], 0, actions + [Script(script)];
      var i := 0;
      var ok := true;
      while i < |script| && ok
        invariant i <= |script| && Recorded()
        invariant IsRun(tools, script, trace, done) && trace[0] == old(tree) && trace[|trace| - 1] == tree
        invariant history == old(history) + trace[1..] && actions == old(actions) + [Script(script)]
        invariant ok ==> done == i && |trace| == i + 1 && i <= a.breaksAt
        invariant IsPartOfRun(tools, old(tree), script, a, i, tree, ok)
        decreases |script| - i, ok
      {
        ghost var before, last := trace, tree;
        ok := Execute(script[i], i == a.breaksAt, a.partial);
        trace := trace + [tree];
        assert trace[1..] == before[1..] + [tree];
        RunGrows(tools, script, before, i, tree, ok);
        NextCommand(tools, old(tree), script, a, i, last, tree, ok);
        if ok {
          i, done := i + 1, done + 1;
        }
      }
      acknowledged := ok && a.markerArrives;
    }

    /** A Supervisor update or rebuild may install anything; the file tree is not its business. */
    method SupervisorInstalls(a: SupervisorAnswer) returns (acknowledged: bool)
      modifies this`app, this`manifestSha, this`runtimeSha, this`actions
      ensures actions == old(actions) + [SupervisorAction]
      ensures acknowledged <==> a.reloads && a.finishes
      ensures a.reloads ==> app == a.app && manifestSha == a.manifestSha && runtimeSha == a.runtimeSha
      ensures !a.reloads ==> app == old(app) && manifestSha == old(manifestSha) && runtimeSha == old(runtimeSha)
    {
      actions := actions + [SupervisorAction];
      if !a.reloads {
        return false;
      }
      app, manifestSha, runtimeSha := a.app, a.manifestSha, a.runtimeSha;
      return a.finishes;
    }

    /** Probes until one answers, thirty times at most. */
    method WaitForHealth(probes: seq<bool>) returns (healthy: bool, ghost attempts: nat)
      ensures healthy <==> Answers(probes)
      ensures attempts <= HEALTH_ATTEMPTS && (!healthy ==> attempts == HEALTH_ATTEMPTS)
      ensures healthy ==> 0 < attempts <= |probes| && probes[attempts - 1]
      ensures forall i :: 0 <= i < |probes| && i < attempts - 1 ==> !probes[i]
    {
      var attempt := 1;
      attempts := 0;
      while attempt <= HEALTH_ATTEMPTS
        invariant 1 <= attempt <= HEALTH_ATTEMPTS + 1 && attempts == attempt - 1
        invariant forall i :: 0 <= i < |probes| && i < attempts ==> !probes[i]
      {
        attempts := attempt;
        if attempt <= |probes| && probes[attempt - 1] {
          return true, attempts;
        }
        attempt := attempt + 1;
      }
      return false, attempts;
    }

    /** A health probe, then the app, then the manifest if one is expected. */
    method VerifyInstalledVersion(version: string, slug: string, manifest: Option<string>, a: CheckAnswer)
      returns (ok: bool)
      ensures ok <==> && Answers(a.probes) && a.appReads && DeployedAppMatches(app, version, slug)
                      && (manifest.Some? ==> a.manifestReads && manifestSha == manifest.value)
    {
      var healthy, attempts := WaitForHealth(a.probes);
      if !healthy || !a.appReads || !DeployedAppMatches(app, version, slug) {
        return false;
      }
      if manifest.Some? {
        return a.manifestReads && manifestSha == manifest.value;
      }
      return true;
    }

    /** Cleanup failures are swallowed; whatever happens, source and archive stay as they are. */
    method BestEffortCleanup(l: Layout, a: ScriptAnswer, ghost sha: string)
      requires Recorded()
      modifies this`tree, this`history, this`actions
      ensures actions == old(actions) + [Script(Cleanup(l))]
      ensures tree == TreeAfter(tools, old(tree), Cleanup(l), a)
      ensures Recorded() && old(history) <= history
      ensures forall i :: |old(history)| <= i < |history| ==> SourceSame(old(tree), history[i])
      ensures ArchiveSafe(tools, l, sha, old(tree)) ==>
                forall i :: |old(history)| <= i < |history| ==> ArchiveSafe(tools, l, sha, history[i])
      ensures SourceSame(old(tree), tree)
      ensures ArchiveSafe(tools, l, sha, old(tree)) ==> ArchiveSafe(tools, l, sha, tree)
    {
      var acknowledged, trace, done := RunGuestMarker(Cleanup(l), a);
      CleanupKeeps(tools, l, sha, trace, done);
      assert forall i :: |old(history)| <= i < |history| ==> history[i] == trace[i - |old(history)| + 1];
    }

    // -------------------------------------------------------------------------
    // The transaction
    // -------------------------------------------------------------------------

    /** One of the scripts that only write to the temporary directory. */
    method RunTemporary(script: seq<Command>, a: ScriptAnswer, bundle: Bundle, l: Layout) returns (acknowledged: bool)
      requires Recorded()
      requires script in [Initialize(l), [WriteFile(l.CandidateArchive(), bundle.candidateArchive)],
                          [WriteFile(l.RollbackUpload(), bundle.rollbackArchive)]]
      modifies this`tree, this`history, this`actions
      ensures acknowledged <==> Acknowledged(tools, old(tree), script, a)
      ensures tree == TreeAfter(tools, old(tree), script, a) && actions == old(actions) + [Script(script)]
      ensures Recorded() && old(history) <= history
      ensures forall i :: |old(history)| <= i < |history| ==> SourceSame(old(tree), history[i])
      ensures SourceSame(old(tree), tree) && SameAt(old(tree), tree, l.DurableArchive())
    {
      var ok, trace, done := RunGuestMarker(script, a);
      TemporaryScriptsSpare(l, script, bundle);
      UntouchedRun(tools, l, script, trace, done);
      ExtendHistory(old(tree), old(history), history, trace);
      return ok;
    }

    /** The temporary directory and both uploads; the first three scripts of staging. */
    method Upload(options: Options, bundle: Bundle, l: Layout, w: World) returns (uploaded: bool)
      requires Recorded()
      modifies this`tree, this`history, this`actions
      ensures uploaded <==> Uploads(tools, old(tree), bundle, l, w)
      ensures uploaded ==> tree == UploadedTree(tools, old(tree), bundle, l, w)
      ensures var staging := Scripts(StagingScripts(options, tools, bundle, l));
              if uploaded then actions == old(actions) + staging[..3]
              else exists k :: 0 <= k <= 3 && actions == old(actions) + staging[..k]
      ensures Recorded() && old(history) <= history
      ensures forall i :: |old(history)| <= i < |history| ==> SourceSame(old(tree), history[i])
      ensures SourceSame(old(tree), tree) && SameAt(old(tree), tree, l.DurableArchive())
    {
      ghost var staging := Scripts(StagingScripts(options, tools, bundle, l));
      FirstScripts(staging);
      var initialized := RunTemporary(Initialize(l), w.initialize, bundle, l);
      assert actions == old(actions) + staging[..1];
      if !initialized {
        return false;
      }
      label half:
      var half :=
        RunTemporary([WriteFile(l.CandidateArchive(), bundle.candidateArchive)], w.candidateUpload, bundle, l);
      KeepSource(old(tree), old@half(tree), old@half(history), history);
      SourceSameTwice(old(tree), old@half(tree), tree);
      assert actions == old(actions) + staging[..2];
      if !half {
        return false;
      }
      label full:
      var full := RunTemporary([WriteFile(l.RollbackUpload(), bundle.rollbackArchive)], w.rollbackUpload, bundle, l);
      KeepSource(old(tree), old@full(tree), old@full(history), history);
      SourceSameTwice(old(tree), old@full(tree), tree);
      assert actions == old(actions) + staging[..3];
      return full;
    }

    /** Upload and stage; every tree on the way has the add-on source untouched. */
    method Stage(options: Options, bundle: Bundle, l: Layout, w: World) returns (staged: bool)
      requires Recorded()
      modifies this`tree, this`history, this`actions
      ensures staged <==> Stages(tools, old(tree), options, bundle, l, w)
      ensures staged ==> tree == StagedTree(tools, old(tree), options, bundle, l, w)
      ensures var staging := Scripts(StagingScripts(options, tools, bundle, l));
              if staged then actions == old(actions) + staging
              else exists k :: 0 <= k <= 4 && actions == old(actions) + staging[..k]
      ensures Recorded() && old(history) <= history
      ensures forall i :: |old(history)| <= i < |history| ==> SourceSame(old(tree), history[i])
      ensures SourceSame(old(tree), tree)
      ensures staged ==>
                HoldsPackage(tools, tree, l.CandidateSource(), bundle.candidateManifestSha, bundle.candidateVersion)
      ensures staged ==> (ArchiveSafe(tools, l, tools.sha256(bundle.rollbackArchive), tree)
                          <==> !IsDir(old(tree), l.DurableArchive()))
    {
      var id := IdentityOf(tools, options, bundle);
      ghost var staging := Scripts(StagingScripts(options, tools, bundle, l));
      var uploaded := Upload(options, bundle, l, w);
      if !uploaded || !ValidIdentity(id) || !LayoutMatches(l, id) {
        return false;
      }
      label staging:
      var acknowledged, trace, done := RunGuestMarker(Prepare(l, id), w.prepare);
      PrepareSparesSource(tools, l, id, trace, done);
      ExtendHistory(old(tree), old@staging(history), history, trace);
      assert staging[..4] == staging && staging == staging[..3] + [Script(Prepare(l, id))];
      if acknowledged {
        PrepareSecuresArchive(tools, l, id, trace);
        PrepareStagesCandidate(tools, l, id, trace);
      }
      return acknowledged;
    }

    method ActivateAndVerify(options: Options, bundle: Bundle, l: Layout, w: World, ghost sha: string)
      returns (ok: bool)
      requires Recorded()
      requires HoldsPackage(tools, tree, l.CandidateSource(), bundle.candidateManifestSha, bundle.candidateVersion)
      modifies this
      ensures ok <==> Activates(tools, old(tree), options, bundle, l, w)
      ensures tree == TreeAfter(tools, old(tree), Activate(l), w.activate)
      ensures old(actions) <= actions && AreAttempt(actions[|old(actions)|..], Activate(l), ok)
      ensures Recorded() && old(history) <= history
      ensures ArchiveSafe(tools, l, sha, old(tree)) ==>
                forall i :: |old(history)| <= i < |history| ==> ArchiveSafe(tools, l, sha, history[i])
      ensures ArchiveSafe(tools, l, sha, old(tree)) ==> ArchiveSafe(tools, l, sha, tree)
      ensures ok ==> DeployedAppMatches(app, options.candidateVersion, options.addonSlug)
      ensures ok ==> manifestSha == bundle.candidateManifestSha
      ensures ok ==> Relocated(old(tree), l.CandidateSource(), tree, ADDON_SOURCE)
    {
      var acknowledged, trace, done := RunGuestMarker(Activate(l), w.activate);
      LaterScriptsSpareArchive(l, sha);
      LaterRunKeepsArchive(tools, l, sha, Activate(l), trace, done);
      assert forall i :: |old(history)| <= i < |history| ==> history[i] == trace[i - |old(history)| + 1];
      if !acknowledged {
        return false;
      }
      ActivateInstallsCandidate(tools, l, trace);
      var installed := SupervisorInstalls(w.update);
      if !installed {
        return false;
      }
      ok := VerifyInstalledVersion(options.candidateVersion, options.addonSlug, Some(bundle.candidateManifestSha),
                                   w.check);
    }

    method RestoreRollback(options: Options, bundle: Bundle, l: Layout, w: World) returns (ok: bool)
      requires Recorded()
      modifies this
      ensures ok <==> Restores(tools, old(tree), options, bundle, l, w)
      ensures old(actions) <= actions
      ensures AreAttempt(actions[|old(actions)|..], RollbackSource(l, tools.sha256(bundle.rollbackArchive)), ok)
      ensures Recorded() && old(history) <= history
      ensures var sha := tools.sha256(bundle.rollbackArchive);
              ArchiveSafe(tools, l, sha, old(tree)) ==>
                && ArchiveSafe(tools, l, sha, tree)
                && forall i :: |old(history)| <= i < |history| ==> ArchiveSafe(tools, l, sha, history[i])
      ensures ok ==> DeployedAppMatches(app, ROLLBACK_VERSION, options.addonSlug)
      ensures ok ==> runtimeSha == ROLLBACK_RUNTIME_SHA256
      ensures ok ==> SourceRestored(tools, tools.sha256(bundle.rollbackArchive), tree)
    {
      ghost var sha := tools.sha256(bundle.rollbackArchive);
      var acknowledged, trace, done := RunGuestMarker(RollbackSource(l, tools.sha256(bundle.rollbackArchive)),
                                                         w.rollback);
      LaterScriptsSpareArchive(l, sha);
      LaterRunKeepsArchive(tools, l, sha, RollbackSource(l, sha), trace, done);
      assert forall i :: |old(history)| <= i < |history| ==> history[i] == trace[i - |old(history)| + 1];
      if !acknowledged {
        return false;
      }
      RollbackRestoresSource(tools, l, sha, trace);
      var rebuilt := SupervisorInstalls(w.rebuild);
      if !rebuilt {
        return false;
      }
      var verified := VerifyInstalledVersion(ROLLBACK_VERSION, options.addonSlug, None, w.recheck);
      ok := verified && w.runtimeReads && runtimeSha == ROLLBACK_RUNTIME_SHA256;
    }

    /** The candidate runs, and is what the source holds. */
    ghost predicate CandidateInstalled(options: Options, bundle: Bundle)
      reads this
    {
      && DeployedAppMatches(app, options.candidateVersion, options.addonSlug)
      && manifestSha == bundle.candidateManifestSha
      && HoldsPackage(tools, tree, ADDON_SOURCE, bundle.candidateManifestSha, bundle.candidateVersion)
    }

    /** The rollback version runs, with its known runtime, and the source is the archived one. */
    ghost predicate RollbackInstalled(options: Options, bundle: Bundle)
      reads this
    {
      && DeployedAppMatches(app, ROLLBACK_VERSION, options.addonSlug)
      && runtimeSha == ROLLBACK_RUNTIME_SHA256
      && SourceRestored(tools, tools.sha256(bundle.rollbackArchive), tree)
    }

    /** The `try` and `catch` of `executeDeployment`, on a staged candidate. */
    method ActivateOrRollBack(options: Options, bundle: Bundle, l: Layout, w: World) returns (outcome: Outcome)
      requires Recorded()
      requires HoldsPackage(tools, tree, l.CandidateSource(), bundle.candidateManifestSha, bundle.candidateVersion)
      modifies this
      ensures Recorded() && old(history) <= history
      ensures outcome == if Activates(tools, old(tree), options, bundle, l, w) then Deployed
                         else if Restores(tools, TreeAfter(tools, old(tree), Activate(l), w.activate),
                                          options, bundle, l, w) then RolledBack
                         else RollbackFailed
      ensures FollowsPlan(outcome, actions, old(actions), l, tools.sha256(bundle.rollbackArchive))
      ensures var sha := tools.sha256(bundle.rollbackArchive);
              ArchiveSafe(tools, l, sha, old(tree)) ==>
                && ArchiveSafe(tools, l, sha, tree)
                && forall i :: |old(history)| <= i < |history| ==> ArchiveSafe(tools, l, sha, history[i])
      ensures outcome == Deployed ==> CandidateInstalled(options, bundle)
      ensures outcome == RolledBack ==> RollbackInstalled(options, bundle)
    {
      ghost var sha := tools.sha256(bundle.rollbackArchive);
      ghost var stagedTree, staging := tree, actions;
      var ok := ActivateAndVerify(options, bundle, l, w, sha);
      ghost var tried := actions[|staging|..];
      assert actions == staging + tried;
      if ok {
        RelocatedPackage(tools, stagedTree, l.CandidateSource(), tree, ADDON_SOURCE,
                         bundle.candidateManifestSha, bundle.candidateVersion);
        label done:
        BestEffortCleanup(l, w.cleanup, sha);
        SourcePackageKept(tools, old@done(tree), tree, bundle.candidateManifestSha, bundle.candidateVersion);
        return Deployed;
      }
      label failed:
      outcome := RollBack(options, bundle, l, w);
      PlanOfRollback(outcome, staging, tried, actions[|old@failed(actions)|..], l, sha);
      assert actions == staging + tried + actions[|old@failed(actions)|..];
    }

    /** The `catch` of `executeDeployment`. */
    method RollBack(options: Options, bundle: Bundle, l: Layout, w: World) returns (outcome: Outcome)
      requires Recorded()
      modifies this
      ensures outcome == if Restores(tools, old(tree), options, bundle, l, w) then RolledBack else RollbackFailed
      ensures old(actions) <= actions
      ensures var more, sha := actions[|old(actions)|..], tools.sha256(bundle.rollbackArchive);
              if outcome == RolledBack
              then more == [Script(RollbackSource(l, sha)), SupervisorAction, Script(Cleanup(l))]
              else AreAttempt(more, RollbackSource(l, sha), false)
      ensures Recorded() && old(history) <= history
      ensures var sha := tools.sha256(bundle.rollbackArchive);
              ArchiveSafe(tools, l, sha, old(tree)) ==>
                && ArchiveSafe(tools, l, sha, tree)
                && forall i :: |old(history)| <= i < |history| ==> ArchiveSafe(tools, l, sha, history[i])
      ensures outcome == RolledBack ==> RollbackInstalled(options, bundle)
    {
      ghost var sha := tools.sha256(bundle.rollbackArchive);
      var restored := RestoreRollback(options, bundle, l, w);
      if !restored {
        return RollbackFailed;
      }
      label rolledBack:
      BestEffortCleanup(l, w.cleanup, sha);
      SourceRestoredKept(tools, sha, old@rolledBack(tree), tree);
      return RolledBack;
    }

    /** Staging and the last readiness check; some outcome if the transaction ends there. */
    method StageAndConfirm(options: Options, bundle: Bundle, l: Layout, w: World) returns (early: Option<Outcome>)
      requires history == [tree] && actions == []
      modifies this`tree, this`history, this`actions
      ensures early == if !Stages(tools, old(tree), options, bundle, l, w) || w.readiness == Unavailable
              then Some(Aborted)
                       else if w.readiness == Denied then Some(PreflightChanged) else None
      ensures early == None ==> tree == StagedTree(tools, old(tree), options, bundle, l, w)
      ensures Recorded() && old(history) <= history
      ensures forall i :: 0 <= i < |history| ==> SourceSame(old(tree), history[i])
      ensures var staging := Scripts(StagingScripts(options, tools, bundle, l));
              if early == None then actions == staging
              else early.value in {Aborted, PreflightChanged}
                   && FollowsPlan(early.value, actions, staging, l, tools.sha256(bundle.rollbackArchive))
      ensures early == None ==>
                HoldsPackage(tools, tree, l.CandidateSource(), bundle.candidateManifestSha, bundle.candidateVersion)
      ensures early == None ==> (ArchiveSafe(tools, l, tools.sha256(bundle.rollbackArchive), tree)
                                 <==> !IsDir(old(tree), l.DurableArchive()))
    {
      ghost var before := tree;
      var staged := Stage(options, bundle, l, w);
      if !staged {
        return Some(Aborted);
      }
      if w.readiness == Unavailable {
        return Some(Aborted);
      }
      if w.readiness == Denied {
        label denied:
        BestEffortCleanup(l, w.cleanup, tools.sha256(bundle.rollbackArchive));
        assert forall i :: |old@denied(history)| <= i < |history| ==> SourceSame(before, history[i]);
        return Some(PreflightChanged);
      }
      return None;
    }

    /** `executeDeployment`. */
    method ExecuteDeployment(options: Options, bundle: Bundle, l: Layout, w: World) returns (outcome: Outcome)
      requires history == [tree] && actions == []
      modifies this
      ensures Recorded() && history[0] == old(tree)
      // Each outcome comes exactly when it should.
      ensures var t := StagedTree(tools, old(tree), options, bundle, l, w);
              outcome == if !Stages(tools, old(tree), options, bundle, l, w) || w.readiness == Unavailable then Aborted
                         else if w.readiness == Denied then PreflightChanged
                         else if Activates(tools, t, options, bundle, l, w) then Deployed
                         else if Restores(tools, TreeAfter(tools, t, Activate(l), w.activate), options, bundle, l, w)
                         then RolledBack
                         else RollbackFailed
      ensures FollowsPlan(outcome, actions, Scripts(StagingScripts(options, tools, bundle, l)), l,
                          tools.sha256(bundle.rollbackArchive))
      // Whenever the source is not what it was, the verified archive is there to restore it.
      ensures !IsDir(old(tree), l.DurableArchive()) ==>
                forall i :: 0 <= i < |history| ==>
                  Recoverable(tools, l, tools.sha256(bundle.rollbackArchive), old(tree), history[i])
      ensures outcome in {Aborted, PreflightChanged} ==>
                && (forall i :: 0 <= i < |history| ==> SourceSame(old(tree), history[i]))
                && app == old(app) && manifestSha == old(manifestSha) && runtimeSha == old(runtimeSha)
      ensures outcome == Deployed ==> CandidateInstalled(options, bundle)
      ensures outcome == RolledBack ==> RollbackInstalled(options, bundle)
      ensures outcome in {Deployed, RolledBack, RollbackFailed} && !IsDir(old(tree), l.DurableArchive()) ==>
                ArchiveSafe(tools, l, tools.sha256(bundle.rollbackArchive), tree)
    {
      var early := StageAndConfirm(options, bundle, l, w);
      if early.Some? {
        return early.value;
      }
      outcome := ActivateOrRollBack(options, bundle, l, w);
    }
  }

  // ---------------------------------------------------------------------------
  // Glue between runs and the recorded history
  // ---------------------------------------------------------------------------

  /** The source is what some archive with this hash unpacks to, manifest and version verified. */
  ghost predicate SourceRestored(tools: Tools, sha: string, t: Tree) {
    && HoldsPackage(tools, t, ADDON_SOURCE, ROLLBACK_MANIFEST_SHA256, ROLLBACK_VERSION)
    && exists archive :: tools.sha256(archive) == sha && tools.unpack(archive).Some?
                         && SourceIs(t, tools.unpack(archive).value)
  }

  lemma SourcePackageKept(tools: Tools, t: Tree, u: Tree, manifestSha: string, version: string)
    requires SourceSame(t, u) && HoldsPackage(tools, t, ADDON_SOURCE, manifestSha, version)
    ensures HoldsPackage(tools, u, ADDON_SOURCE, manifestSha, version)
  {
    assert Under(ADDON_SOURCE, ADDON_SOURCE + [MANIFEST]) && Under(ADDON_SOURCE, ADDON_SOURCE + [CONFIG]);
  }

  lemma SourceRestoredKept(tools: Tools, sha: string, t: Tree, u: Tree)
    requires SourceSame(t, u) && SourceRestored(tools, sha, t)
    ensures SourceRestored(tools, sha, u)
  {
    SourcePackageKept(tools, t, u, ROLLBACK_MANIFEST_SHA256, ROLLBACK_VERSION);
    var archive :| tools.sha256(archive) == sha && tools.unpack(archive).Some?
                   && SourceIs(t, tools.unpack(archive).value);
    var sub := tools.unpack(archive).value;
    assert Under(ADDON_SOURCE, ADDON_SOURCE);
    forall rel: Path | rel != []
      ensures (ADDON_SOURCE + rel in u <==> rel in sub) && (rel in sub ==> u[ADDON_SOURCE + rel] == sub[rel])
    {
      assert Under(ADDON_SOURCE, ADDON_SOURCE + rel);
    }
    assert SourceIs(u, sub);
  }

  lemma TemporaryScriptsSpare(l: Layout, script: seq<Command>, bundle: Bundle)
    requires script in [Initialize(l), [WriteFile(l.CandidateArchive(), bundle.candidateArchive)],
                        [WriteFile(l.RollbackUpload(), bundle.rollbackArchive)]]
    ensures ScriptWritesAwayFrom(script, l.DurableArchive())
    ensures forall q :: Under(ADDON_SOURCE, q) ==> ScriptWritesAwayFrom(script, q)
  {
    Apart(l.TemporaryRoot(), l.DurableArchive(), 0);
    Apart(l.CandidateArchive(), l.DurableArchive(), 0);
    Apart(l.RollbackUpload(), l.DurableArchive(), 0);
    forall q | Under(ADDON_SOURCE, q) ensures ScriptWritesAwayFrom(script, q) {
      OutsideSource(l.TemporaryRoot(), q);
      OutsideSource(l.CandidateArchive(), q);
      OutsideSource(l.RollbackUpload(), q);
    }
  }

  lemma UntouchedRun(tools: Tools, l: Layout, script: seq<Command>, trace: seq<Tree>, done: nat)
    requires IsRun(tools, script, trace, done)
    requires ScriptWritesAwayFrom(script, l.DurableArchive())
    requires forall q :: Under(ADDON_SOURCE, q) ==> ScriptWritesAwayFrom(script, q)
    ensures forall j :: 0 <= j < |trace| ==>
              SourceSame(trace[0], trace[j]) && SameAt(trace[0], trace[j], l.DurableArchive())
  {
    forall j | 0 <= j < |trace|
      ensures SourceSame(trace[0], trace[j]) && SameAt(trace[0], trace[j], l.DurableArchive())
    {
      AwaySpares(script, l.DurableArchive());
      RunKeepsUntouched(tools, script, trace, done, l.DurableArchive(), j);
      forall q | Under(ADDON_SOURCE, q) ensures SameAt(trace[0], trace[j], q) {
        AwaySpares(script, q);
        RunKeepsUntouched(tools, script, trace, done, q, j);
      }
    }
  }

  lemma PrepareSparesSource(tools: Tools, l: Layout, id: ArchiveIdentity, trace: seq<Tree>, done: nat)
    requires IsRun(tools, Prepare(l, id), trace, done)
    ensures forall j :: 0 <= j < |trace| ==> SourceSame(trace[0], trace[j])
  {
    forall j, q | 0 <= j < |trace| && Under(ADDON_SOURCE, q) ensures SameAt(trace[0], trace[j], q) {
      EarlyScriptsSpareSource(l, id, q);
      RunKeepsUntouched(tools, Prepare(l, id), trace, done, q, j);
    }
  }

  lemma CleanupKeeps(tools: Tools, l: Layout, sha: string, trace: seq<Tree>, done: nat)
    requires IsRun(tools, Cleanup(l), trace, done)
    ensures forall j :: 0 <= j < |trace| ==> SourceSame(trace[0], trace[j])
    ensures ArchiveSafe(tools, l, sha, trace[0]) ==>
              forall j :: 0 <= j < |trace| ==> ArchiveSafe(tools, l, sha, trace[j])
  {
    var id := ArchiveIdentity("", "", "", "", "");
    forall j, q | 0 <= j < |trace| && Under(ADDON_SOURCE, q) ensures SameAt(trace[0], trace[j], q) {
      EarlyScriptsSpareSource(l, id, q);
      RunKeepsUntouched(tools, Cleanup(l), trace, done, q, j);
    }
    LaterScriptsSpareArchive(l, sha);
    LaterRunKeepsArchive(tools, l, sha, Cleanup(l), trace, done);
  }

  lemma LaterRunKeepsArchive(tools: Tools, l: Layout, sha: string, script: seq<Command>, trace: seq<Tree>, done: nat)
    requires IsRun(tools, script, trace, done) && ScriptWritesAwayFrom(script, l.DurableArchive())
    ensures ArchiveSafe(tools, l, sha, trace[0]) ==>
              forall j :: 0 <= j < |trace| ==> ArchiveSafe(tools, l, sha, trace[j])
  {
    if ArchiveSafe(tools, l, sha, trace[0]) {
      forall j | 0 <= j < |trace| ensures ArchiveSafe(tools, l, sha, trace[j]) {
        RunKeepsArchive(tools, l, sha, script, trace, done, j);
      }
    }
  }

  lemma PlanOfRollback(outcome: Outcome, staging: seq<Action>, tried: seq<Action>, more: seq<Action>, l: Layout,
                       sha: string)
    requires outcome in {RolledBack, RollbackFailed} && AreAttempt(tried, Activate(l), false)
    requires if outcome == RolledBack
             then more == [Script(RollbackSource(l, sha)), SupervisorAction, Script(Cleanup(l))]
             else AreAttempt(more, RollbackSource(l, sha), false)
    ensures FollowsPlan(outcome, staging + tried + more, staging, l, sha)
  {
    if outcome == RolledBack {
      assert staging + tried + more
             == staging + tried + [Script(RollbackSource(l, sha)), SupervisorAction] + [Script(Cleanup(l))];
    }
  }

  lemma FirstScripts(staging: seq<Action>)
    requires |staging| >= 3
    ensures staging[..1] == [staging[0]] && staging[..2] == staging[..1] + [staging[1]]
    ensures staging[..3] == staging[..2] + [staging[2]]
  {
  }

  lemma SourceSameTwice(before: Tree, t: Tree, u: Tree)
    requires SourceSame(before, t) && SourceSame(t, u)
    ensures SourceSame(before, u)
  {
    forall q | Under(ADDON_SOURCE, q) ensures SameAt(before, u, q) {
      assert SameAt(before, t, q) && SameAt(t, u, q);
    }
  }

  lemma KeepSource(before: Tree, t: Tree, h: seq<Tree>, g: seq<Tree>)
    requires SourceSame(before, t) && forall i :: |h| <= i < |g| ==> SourceSame(t, g[i])
    ensures forall i :: |h| <= i < |g| ==> SourceSame(before, g[i])
    ensures g != [] && |h| < |g| ==> SourceSame(before, g[|g| - 1])
  {
    forall i | |h| <= i < |g| ensures SourceSame(before, g[i]) {
      SourceSameTwice(before, t, g[i]);
    }
  }

  /** Trees that keep the source of a tree which kept it from the start keep it from the start. */
  lemma ExtendHistory(before: Tree, h: seq<Tree>, g: seq<Tree>, trace: seq<Tree>)
    requires |trace| > 0 && g == h + trace[1..]
    requires SourceSame(before, trace[0])
    requires forall j :: 0 <= j < |trace| ==> SourceSame(trace[0], trace[j])
    ensures forall j :: 0 <= j < |trace| ==> SourceSame(before, trace[j])
    ensures forall i :: |h| <= i < |g| ==> SourceSame(before, g[i])
  {
    forall j | 0 <= j < |trace| ensures SourceSame(before, trace[j]) {
      assert SourceSame(trace[0], trace[j]);
      forall q | Under(ADDON_SOURCE, q) ensures SameAt(before, trace[j], q) {
        assert SameAt(before, trace[0], q) && SameAt(trace[0], trace[j], q);
      }
    }
    assert forall i :: |h| <= i < |g| ==> g[i] == trace[i - |h| + 1];
  }
}
