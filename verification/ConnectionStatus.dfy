/**
 The protocol latch and the connection status of the Bridge (bridge/src/runtime.ts).

 Every callback that runs to completion without awaiting is one event here.  The protocol
 analyzer, the integrity store and the keeper manager answer as they please; their answers
 are part of the events.
 */
module ConnectionStatus {
  datatype RuntimeState =
    | Starting | BrowserStarting | LoginRequired | Authenticating | PageLoading | DiscoveringProtocol
    | Syncing | Connected | Stale | Reconnecting | ReauthRequired | ProtocolChanged | BrowserFailed | Fatal

  datatype Status = Status(
    state: RuntimeState,
    pushConnected: bool,
    initialSnapshotComplete: bool,
    parserHealthy: bool,
    authenticated: bool)

  datatype Analysis = NoResult | NewEvent | DuplicateEvent | SnapshotPart | Mismatch
  /** What recovering comes to: the store may also clear the stored mismatch, and the status update
      that should report it throw, because a recorded timestamp is not acceptable. */
  datatype Recovery = Recovered | RecoveredUnreported | NotRecovered | RecoveryThrew
  datatype Compatibility = Compatible | Incompatible

  /** One websocket frame with everything the collaborators say about it. */
  datatype Frame = Frame(
    analysis: Analysis,
    snapshotComplete: bool,
    hasFingerprint: bool,
    recovery: Recovery,
    compatibility: Compatibility)

  /** What the keeper page looks like: the login page, a SmartThings page, or anything else. */
  datatype KeeperPage = LoginPage | SmartThingsPage | OtherPage

  datatype Event =
    | FrameReceived(frame: Frame)
    | SocketRecoveryAttempted
    | ContextClosed
    | KeeperReconciled(page: KeeperPage)
    | KeeperAttached(page: KeeperPage)
    | SessionRejected
    | BrowserLaunching
    | BrowserGaveUp
    | RelaunchedWithMismatch

  datatype Bridge = Bridge(
    blocked: bool,
    recoveryCandidate: bool,
    recoveryEventSeen: bool,
    recoverySnapshotSeen: bool,
    recoveryWriteFailed: bool,
    fingerprintObserved: bool,
    status: Status)

  // ---------------------------------------------------------------------------
  // One event
  // ---------------------------------------------------------------------------

  function BlockedStatus(s: Status): Status {
    s.(state := ProtocolChanged, pushConnected := false, initialSnapshotComplete := false, parserHealthy := false)
  }

  function DisconnectedStatus(s: Status, state: RuntimeState): Status {
    s.(state := state, pushConnected := false, initialSnapshotComplete := false, parserHealthy := false)
  }

  predicate IsEvent(f: Frame) { f.analysis == NewEvent || f.analysis == DuplicateEvent }
  predicate IsCompleteSnapshot(f: Frame) { f.analysis == SnapshotPart && f.snapshotComplete }

  /** The recovery branch; the flag says whether it took the latch off and ended the callback. */
  function TryRecovery(b: Bridge, f: Frame): (Bridge, bool) {
    if !(b.blocked && b.recoveryCandidate && !b.recoveryWriteFailed) then (b, false)
    else
      var seen := b.(recoveryEventSeen := b.recoveryEventSeen || IsEvent(f),
                     recoverySnapshotSeen := b.recoverySnapshotSeen || IsCompleteSnapshot(f));
      if !(seen.recoveryEventSeen && seen.recoverySnapshotSeen && f.hasFingerprint) then (seen, false)
      else
        match f.recovery
        case Recovered =>
          (seen.(recoveryCandidate := false, blocked := false, fingerprintObserved := true,
                 status := seen.status.(state := Connected, pushConnected := true,
                                        initialSnapshotComplete := true, parserHealthy := true)), true)
        case RecoveredUnreported =>
          (seen.(recoveryCandidate := false, blocked := false, fingerprintObserved := true,
                 recoveryWriteFailed := true), false)
        case NotRecovered => (seen.(recoveryCandidate := false), false)
        case RecoveryThrew => (seen.(recoveryCandidate := false, recoveryWriteFailed := true), false)
  }

  function HealthyFrame(s: Status, f: Frame): Status {
    if f.analysis == SnapshotPart then
      s.(initialSnapshotComplete := f.snapshotComplete || s.initialSnapshotComplete,
         state := if f.snapshotComplete && s.pushConnected && s.parserHealthy then Connected else Syncing)
    else if f.analysis != NoResult then
      s.(parserHealthy := true, pushConnected := true,
         state := if s.initialSnapshotComplete then Connected else Syncing)
    else s
  }

  /** The rest of the callback: the first fingerprint check, then the capture itself. */
  function AfterRecovery(r: Bridge, f: Frame): Bridge {
    var checks := !r.blocked && !r.fingerprintObserved && f.hasFingerprint;
    var o := if checks then r.(fingerprintObserved := true) else r;
    if checks && f.compatibility == Incompatible then
      o.(blocked := true, status := BlockedStatus(o.status))
    else if o.blocked then o.(status := BlockedStatus(o.status))
    else o.(status := HealthyFrame(o.status, f))
  }

  function FrameStep(b: Bridge, f: Frame): Bridge {
    if f.analysis == Mismatch then
      b.(recoveryCandidate := false, blocked := true, status := BlockedStatus(b.status))
    else
      var (r, recovered) := TryRecovery(b, f);
      if recovered then r else AfterRecovery(r, f)
  }

  function ResetEvidence(b: Bridge): Bridge {
    b.(fingerprintObserved := false, recoveryEventSeen := false, recoverySnapshotSeen := false)
  }

  function KeeperState(page: KeeperPage): RuntimeState {
    match page
    case LoginPage => LoginRequired
    case SmartThingsPage => DiscoveringProtocol
    case OtherPage => PageLoading
  }

  /** Reconciling an authenticated keeper never takes a live protocol state back. */
  function KeeperStep(s: Status, page: KeeperPage, reconciling: bool): Status {
    var authenticated := page == SmartThingsPage;
    if reconciling && authenticated && s.state in {Syncing, Connected, Stale, ProtocolChanged}
    then s.(authenticated := authenticated)
    else s.(authenticated := authenticated, state := KeeperState(page))
  }

  function Step(b: Bridge, e: Event): Bridge {
    match e
    case FrameReceived(f) => FrameStep(b, f)
    case SocketRecoveryAttempted =>
      ResetEvidence(b).(status := DisconnectedStatus(b.status, Reconnecting))
    case ContextClosed =>
      ResetEvidence(b).(status := DisconnectedStatus(b.status, Reconnecting).(authenticated := false))
    case KeeperReconciled(page) => b.(status := KeeperStep(b.status, page, true))
    case KeeperAttached(page) => b.(status := KeeperStep(b.status, page, false))
    case SessionRejected => b.(status := b.status.(authenticated := false, state := LoginRequired))
    case BrowserLaunching => b.(status := b.status.(state := BrowserStarting))
    case BrowserGaveUp => b.(status := b.status.(state := BrowserFailed))
    case RelaunchedWithMismatch => b.(status := BlockedStatus(b.status))
  }

  /** A process starts with nothing observed; a stored mismatch blocks it from the start. */
  predicate IsStart(b: Bridge) {
    && !b.recoveryEventSeen && !b.recoverySnapshotSeen && !b.recoveryWriteFailed && !b.fingerprintObserved
    && (b.recoveryCandidate ==> b.blocked)
    && b.status == Status(if b.blocked then ProtocolChanged else Starting, false, false, false, false)
  }

  function After(start: Bridge, es: seq<Event>): Bridge {
    if es == [] then start else Step(After(start, es[..|es| - 1]), es[|es| - 1])
  }

  // ---------------------------------------------------------------------------
  // The pipeline and the status store
  // ---------------------------------------------------------------------------

  class CapturePipeline {
    var protocolBlocked: bool
    var recoveryCandidate: bool
    var recoveryEventSeen: bool
    var recoverySnapshotSeen: bool
    var recoveryWriteFailed: bool
    var protocolFingerprintObserved: bool
    var status: Status

    function View(): Bridge
      reads this
    {
      Bridge(protocolBlocked, recoveryCandidate, recoveryEventSeen, recoverySnapshotSeen, recoveryWriteFailed,
             protocolFingerprintObserved, status)
    }

    constructor (initiallyBlocked: bool, recoverable: bool)
      ensures IsStart(View())
      ensures protocolBlocked == initiallyBlocked && recoveryCandidate == (initiallyBlocked && recoverable)
      ensures status.state == if initiallyBlocked then ProtocolChanged else Starting
    {
      protocolBlocked, recoveryCandidate := initiallyBlocked, initiallyBlocked && recoverable;
      recoveryEventSeen, recoverySnapshotSeen, recoveryWriteFailed := false, false, false;
      protocolFingerprintObserved := false;
      status := Status(if initiallyBlocked then ProtocolChanged else Starting, false, false, false, false);
    }

    /** The sink's `write` for one websocket frame. */
    method Write(f: Frame)
      modifies this
      ensures View() == FrameStep(old(View()), f)
    {
      if f.analysis == Mismatch {
        recoveryCandidate := false;
        status := BlockedStatus(status);
        protocolBlocked := true;
        return;
      }
      var recovered := Recover(f);
      if !recovered {
        Capture(f);
      }
    }

    /** The recovery branch of `write`. */
    method Recover(f: Frame) returns (recovered: bool)
      modifies this
      ensures (View(), recovered) == TryRecovery(old(View()), f)
    {
      recovered := false;
      if protocolBlocked && recoveryCandidate && !recoveryWriteFailed {
        if f.analysis == NewEvent || f.analysis == DuplicateEvent {
          recoveryEventSeen := true;
        }
        if f.analysis == SnapshotPart && f.snapshotComplete {
          recoverySnapshotSeen := true;
        }
        if recoveryEventSeen && recoverySnapshotSeen && f.hasFingerprint {
          recoveryCandidate := false;
          if f.recovery == Recovered || f.recovery == RecoveredUnreported {
            protocolBlocked := false;
            protocolFingerprintObserved := true;
          }
          if f.recovery == Recovered {
            status := status.(initialSnapshotComplete := true, parserHealthy := true,
                              pushConnected := true, state := Connected);
            recovered := true;
          } else if f.recovery == RecoveryThrew || f.recovery == RecoveredUnreported {
            recoveryWriteFailed := true;
          }
        }
      }
    }

    /** The rest of `write`. */
    method Capture(f: Frame)
      modifies this
      ensures View() == AfterRecovery(old(View()), f)
    {
      if !protocolBlocked && !protocolFingerprintObserved && f.hasFingerprint {
        protocolFingerprintObserved := true;
        if f.compatibility == Incompatible {
          status := BlockedStatus(status);
          protocolBlocked := true;
          return;
        }
      }
      if protocolBlocked {
        status := BlockedStatus(status);
        return;
      }
      if f.analysis == SnapshotPart {
        var connected := f.snapshotComplete && status.pushConnected && status.parserHealthy;
        status := status.(initialSnapshotComplete := f.snapshotComplete || status.initialSnapshotComplete,
                          state := if connected then Connected else Syncing);
        return;
      }
      if f.analysis != NoResult {
        status := status.(parserHealthy := true, pushConnected := true,
                          state := if status.initialSnapshotComplete then Connected else Syncing);
      }
    }

    /** `reset` and `resetSnapshotSession` forget the evidence, never the latch. */
    method Reset()
      modifies this
      ensures View() == ResetEvidence(old(View()))
    {
      protocolFingerprintObserved := false;
      recoveryEventSeen := false;
      recoverySnapshotSeen := false;
    }

    method OnContextClose()
      modifies this
      ensures View() == Step(old(View()), ContextClosed)
    {
      Reset();
      status := status.(authenticated := false, pushConnected := false, parserHealthy := false,
                        initialSnapshotComplete := false, state := Reconnecting);
    }

    method OnSocketRecovery()
      modifies this
      ensures View() == Step(old(View()), SocketRecoveryAttempted)
    {
      Reset();
      status := status.(pushConnected := false, parserHealthy := false,
                        initialSnapshotComplete := false, state := Reconnecting);
    }

    method ReconcileActiveKeeper(page: KeeperPage)
      modifies this
      ensures View() == Step(old(View()), KeeperReconciled(page))
    {
      var patched := KeeperState(page);
      if page == SmartThingsPage && status.state in {Syncing, Connected, Stale, ProtocolChanged} {
        status := status.(authenticated := true);
      } else {
        status := status.(authenticated := page == SmartThingsPage, state := patched);
      }
    }
  }

  // ---------------------------------------------------------------------------
  // Over all interleavings
  // ---------------------------------------------------------------------------

  /** CONNECTED is backed by all three health flags, and a blocked Bridge reports none of them. */
  predicate Honest(b: Bridge) {
    && (b.status.state == Connected ==>
          b.status.initialSnapshotComplete && b.status.parserHealthy && b.status.pushConnected)
    && (b.blocked ==> !b.status.initialSnapshotComplete && !b.status.parserHealthy && !b.status.pushConnected)
    && (b.recoveryCandidate ==> b.blocked && !b.recoveryWriteFailed)
  }

  /** What one frame does to the latch and to the right to recover. */
  lemma FrameKeepsLatch(b: Bridge, f: Frame)
    ensures b.blocked && !b.recoveryCandidate ==> FrameStep(b, f).blocked && !FrameStep(b, f).recoveryCandidate
    ensures FrameStep(b, f).recoveryCandidate ==> b.recoveryCandidate
    ensures b.blocked && !FrameStep(b, f).blocked ==> b.recoveryCandidate && !FrameStep(b, f).recoveryCandidate
  {
  }

  lemma HealthyFrameBacksConnected(s: Status, f: Frame)
    requires s.state == Connected ==> s.initialSnapshotComplete && s.parserHealthy && s.pushConnected
    ensures var t := HealthyFrame(s, f);
            t.state == Connected ==> t.initialSnapshotComplete && t.parserHealthy && t.pushConnected
  {
  }

  lemma RecoveryIsHonest(b: Bridge, f: Frame)
    requires Honest(b)
    ensures Honest(TryRecovery(b, f).0)
    ensures !TryRecovery(b, f).1 ==> TryRecovery(b, f).0.status == b.status
  {
  }

  lemma FrameIsHonest(b: Bridge, f: Frame)
    requires Honest(b)
    ensures Honest(FrameStep(b, f))
  {
    if f.analysis != Mismatch {
      RecoveryIsHonest(b, f);
      var (r, recovered) := TryRecovery(b, f);
      UnrecoveredIsHonest(r, f);
    }
  }

  lemma UnrecoveredIsHonest(r: Bridge, f: Frame)
    requires Honest(r)
    ensures Honest(AfterRecovery(r, f))
  {
    HealthyFrameBacksConnected(r.status, f);
  }

  lemma StepKeepsLatch(b: Bridge, e: Event)
    ensures b.blocked && !b.recoveryCandidate ==> Step(b, e).blocked && !Step(b, e).recoveryCandidate
    ensures Step(b, e).recoveryCandidate ==> b.recoveryCandidate
    ensures b.blocked && !Step(b, e).blocked ==> b.recoveryCandidate && !Step(b, e).recoveryCandidate
  {
    if e.FrameReceived? { FrameKeepsLatch(b, e.frame); }
  }

  lemma StepIsHonest(b: Bridge, e: Event)
    requires Honest(b)
    ensures Honest(Step(b, e))
  {
    if e.FrameReceived? { FrameIsHonest(b, e.frame); }
  }

  lemma LastStep(start: Bridge, es: seq<Event>, i: nat)
    requires i < |es|
    ensures After(start, es[..i + 1]) == Step(After(start, es[..i]), es[i])
  {
    assert es[..i + 1][..i] == es[..i];
  }

  lemma {:induction false} RunIsHonest(start: Bridge, es: seq<Event>)
    requires IsStart(start)
    ensures Honest(After(start, es))
  {
    if es != [] {
      RunIsHonest(start, es[..|es| - 1]);
      StepIsHonest(After(start, es[..|es| - 1]), es[|es| - 1]);
    }
  }

  /** CONNECTED implies snapshot, parser and push; and no blocked Bridge is ever CONNECTED. */
  lemma ConnectedMeansHealthy(start: Bridge, es: seq<Event>)
    requires IsStart(start)
    ensures var b := After(start, es);
            && (b.status.state == Connected ==>
                  b.status.initialSnapshotComplete && b.status.parserHealthy && b.status.pushConnected)
            && (b.blocked ==> b.status.state != Connected)
  {
    RunIsHonest(start, es);
  }

  lemma BlockedFrameReports(b: Bridge, f: Frame)
    requires Honest(b) && FrameStep(b, f).blocked
    ensures FrameStep(b, f).status == BlockedStatus(b.status)
  {
    if f.analysis != Mismatch {
      RecoveryIsHonest(b, f);
    }
  }

  /** A frame that leaves the Bridge blocked ends in PROTOCOL_CHANGED with all flags down. */
  lemma BlockedFrameReportsChange(start: Bridge, es: seq<Event>, f: Frame)
    requires IsStart(start) && After(start, es + [FrameReceived(f)]).blocked
    ensures var s := After(start, es + [FrameReceived(f)]).status;
            s == BlockedStatus(After(start, es).status) && s.state == ProtocolChanged
            && !s.pushConnected && !s.initialSnapshotComplete && !s.parserHealthy
  {
    assert (es + [FrameReceived(f)])[..|es|] == es;
    RunIsHonest(start, es);
    BlockedFrameReports(After(start, es), f);
  }

  lemma {:induction false} LatchHolds(start: Bridge, es: seq<Event>, i: nat)
    requires i <= |es| && After(start, es[..i]).blocked && !After(start, es[..i]).recoveryCandidate
    ensures After(start, es).blocked && !After(start, es).recoveryCandidate
  {
    if i < |es| {
      var pre := es[..|es| - 1];
      assert pre[..i] == es[..i];
      LatchHolds(start, pre, i);
      StepKeepsLatch(After(start, pre), es[|es| - 1]);
    } else {
      assert es[..i] == es;
    }
  }

  lemma StepBlocks(b: Bridge, e: Event)
    requires Honest(b)
    requires (e.FrameReceived? && e.frame.analysis == Mismatch) || (!b.blocked && Step(b, e).blocked)
    ensures Step(b, e).blocked && !Step(b, e).recoveryCandidate
  {
    StepKeepsLatch(b, e);
  }

  /** Blocking that happens live, by surface or by fingerprint, lasts for the whole process. */
  lemma LiveBlockIsPermanent(start: Bridge, es: seq<Event>, i: nat)
    requires IsStart(start) && i < |es|
    requires (es[i].FrameReceived? && es[i].frame.analysis == Mismatch)
             || (!After(start, es[..i]).blocked && After(start, es[..i + 1]).blocked)
    ensures After(start, es).blocked
  {
    RunIsHonest(start, es[..i]);
    LastStep(start, es, i);
    StepBlocks(After(start, es[..i]), es[i]);
    LatchHolds(start, es, i + 1);
  }

  predicate Clears(start: Bridge, es: seq<Event>, i: nat)
    requires i < |es|
  {
    After(start, es[..i]).blocked && !After(start, es[..i + 1]).blocked
  }

  lemma {:induction false} CandidateOnlyFades(start: Bridge, es: seq<Event>, i: nat)
    requires i <= |es| && After(start, es).recoveryCandidate
    ensures After(start, es[..i]).recoveryCandidate
  {
    if i < |es| {
      var pre := es[..|es| - 1];
      assert pre[..i] == es[..i];
      StepKeepsLatch(After(start, pre), es[|es| - 1]);
      CandidateOnlyFades(start, pre, i);
    } else {
      assert es[..i] == es;
    }
  }

  /** The latch comes off at most once per process, and only if the process began blocked. */
  lemma ClearedAtMostOnce(start: Bridge, es: seq<Event>, i: nat, j: nat)
    requires IsStart(start) && i < |es| && j < |es| && Clears(start, es, i) && Clears(start, es, j)
    ensures i == j && start.blocked && start.recoveryCandidate
  {
    ClearsOnlyAsCandidate(start, es, i);
    ClearsOnlyAsCandidate(start, es, j);
    CandidateOnlyFades(start, es[..i], 0);
    if i < j {
      assert es[..j][..i + 1] == es[..i + 1];
      CandidateOnlyFades(start, es[..j], i + 1);
    } else if j < i {
      assert es[..i][..j + 1] == es[..j + 1];
      CandidateOnlyFades(start, es[..i], j + 1);
    }
  }

  lemma ClearsOnlyAsCandidate(start: Bridge, es: seq<Event>, i: nat)
    requires i < |es| && Clears(start, es, i)
    ensures After(start, es[..i]).recoveryCandidate && !After(start, es[..i + 1]).recoveryCandidate
  {
    LastStep(start, es, i);
    StepKeepsLatch(After(start, es[..i]), es[i]);
  }

  predicate IsReset(e: Event) { e == SocketRecoveryAttempted || e == ContextClosed }

  predicate IsEventFrame(e: Event) { e.FrameReceived? && IsEvent(e.frame) }
  predicate IsSnapshotFrame(e: Event) { e.FrameReceived? && IsCompleteSnapshot(e.frame) }

  predicate NoResetAfter(es: seq<Event>, k: int) {
    forall j :: 0 <= j < |es| && k < j ==> !IsReset(es[j])
  }

  lemma NoResetExtends(es: seq<Event>, e: Event, k: int)
    ensures k < |es| ==> (NoResetAfter(es + [e], k) <==> !IsReset(e) && NoResetAfter(es, k))
  {
    var all := es + [e];
    assert all[|es|] == e;
    assert forall j :: 0 <= j < |es| ==> all[j] == es[j];
  }

  /** An event frame arrived after the latest reset. */
  predicate EventSinceReset(es: seq<Event>) {
    exists k :: 0 <= k < |es| && IsEventFrame(es[k]) && NoResetAfter(es, k)
  }

  /** So did a complete snapshot. */
  predicate SnapshotSinceReset(es: seq<Event>) {
    exists k :: 0 <= k < |es| && IsSnapshotFrame(es[k]) && NoResetAfter(es, k)
  }

  lemma EventEvidenceExtends(es: seq<Event>, e: Event)
    ensures EventSinceReset(es + [e]) <==> IsEventFrame(e) || (!IsReset(e) && EventSinceReset(es))
  {
    var all := es + [e];
    assert all[|es|] == e && NoResetAfter(all, |es|);
    if EventSinceReset(es) && !IsReset(e) {
      var k :| 0 <= k < |es| && IsEventFrame(es[k]) && NoResetAfter(es, k);
      NoResetExtends(es, e, k);
      assert all[k] == es[k];
    }
    if EventSinceReset(all) {
      var k :| 0 <= k < |all| && IsEventFrame(all[k]) && NoResetAfter(all, k);
      NoResetExtends(es, e, k);
    }
  }

  lemma SnapshotEvidenceExtends(es: seq<Event>, e: Event)
    ensures SnapshotSinceReset(es + [e]) <==> IsSnapshotFrame(e) || (!IsReset(e) && SnapshotSinceReset(es))
  {
    var all := es + [e];
    assert all[|es|] == e && NoResetAfter(all, |es|);
    if SnapshotSinceReset(es) && !IsReset(e) {
      var k :| 0 <= k < |es| && IsSnapshotFrame(es[k]) && NoResetAfter(es, k);
      NoResetExtends(es, e, k);
      assert all[k] == es[k];
    }
    if SnapshotSinceReset(all) {
      var k :| 0 <= k < |all| && IsSnapshotFrame(all[k]) && NoResetAfter(all, k);
      NoResetExtends(es, e, k);
    }
  }

  lemma StepTracksEvidence(b: Bridge, e: Event)
    requires Honest(b) && b.recoveryCandidate && Step(b, e).recoveryCandidate
    ensures Step(b, e).recoveryEventSeen <==> IsEventFrame(e) || (!IsReset(e) && b.recoveryEventSeen)
    ensures Step(b, e).recoverySnapshotSeen <==> IsSnapshotFrame(e) || (!IsReset(e) && b.recoverySnapshotSeen)
  {
  }

  /** While recovery is possible, the two flags say exactly what arrived since the latest reset. */
  lemma {:induction false} FlagsRecordEvidence(start: Bridge, es: seq<Event>)
    requires IsStart(start) && After(start, es).recoveryCandidate
    ensures After(start, es).recoveryEventSeen <==> EventSinceReset(es)
    ensures After(start, es).recoverySnapshotSeen <==> SnapshotSinceReset(es)
  {
    if es != [] {
      var pre, e := es[..|es| - 1], es[|es| - 1];
      assert es == pre + [e] && pre == es[..|pre|];
      CandidateOnlyFades(start, es, |pre|);
      RunIsHonest(start, pre);
      FlagsRecordEvidence(start, pre);
      EventEvidenceExtends(pre, e);
      SnapshotEvidenceExtends(pre, e);
      StepTracksEvidence(After(start, pre), e);
    }
  }

  /** The latch comes off on a frame exactly when recovery is still possible, an event and a
      complete snapshot arrived since the latest reset, and the store accepts the fingerprint;
      it does so whether or not the status update that reports it succeeds. */
  lemma ClearingNeedsFreshEvidence(start: Bridge, es: seq<Event>, e: Event)
    requires IsStart(start) && After(start, es).blocked
    ensures !After(start, es + [e]).blocked <==>
            && e.FrameReceived? && e.frame.analysis != Mismatch
            && After(start, es).recoveryCandidate
            && EventSinceReset(es + [e]) && SnapshotSinceReset(es + [e])
            && e.frame.hasFingerprint && e.frame.recovery in {Recovered, RecoveredUnreported}
  {
    assert (es + [e])[..|es|] == es;
    RunIsHonest(start, es);
    if After(start, es).recoveryCandidate {
      FlagsRecordEvidence(start, es);
      EventEvidenceExtends(es, e);
      SnapshotEvidenceExtends(es, e);
    }
  }

  // ---------------------------------------------------------------------------
  // The status said of the history
  // ---------------------------------------------------------------------------

  /** The recovery branch took the latch off and reported it. */
  predicate RecoversOn(b: Bridge, e: Event) {
    e.FrameReceived? && b.blocked && !Step(b, e).blocked && e.frame.recovery == Recovered
  }

  predicate LeavesUnblocked(b: Bridge, e: Event) { e.FrameReceived? && !Step(b, e).blocked }

  /** An event that counts: decoded while nothing blocks, or among the evidence of a recovery. */
  predicate RaisesEvent(b: Bridge, e: Event) { LeavesUnblocked(b, e) && (IsEventFrame(e) || RecoversOn(b, e)) }

  predicate RaisesSnapshot(b: Bridge, e: Event) { LeavesUnblocked(b, e) && (IsSnapshotFrame(e) || RecoversOn(b, e)) }

  /** Resets, a relaunch under a stored mismatch and every blocked frame take the flags down. */
  predicate TakesDown(b: Bridge, e: Event) {
    IsReset(e) || e == RelaunchedWithMismatch || (e.FrameReceived? && Step(b, e).blocked)
  }

  predicate RaisesFingerprint(b: Bridge, e: Event) {
    && e.FrameReceived? && e.frame.analysis != Mismatch && e.frame.hasFingerprint
    && (!b.blocked || !Step(b, e).blocked)
  }

  predicate Authenticates(e: Event) { (e.KeeperReconciled? || e.KeeperAttached?) && e.page == SmartThingsPage }

  predicate EndsSession(e: Event) {
    || ((e.KeeperReconciled? || e.KeeperAttached?) && e.page != SmartThingsPage)
    || e == SessionRejected || e == ContextClosed
  }

  /** The four things of which the status keeps whether they have happened. */
  datatype Mark = EventMark | SnapshotMark | FingerprintMark | SessionMark

  predicate Sets(mark: Mark, b: Bridge, e: Event) {
    match mark
    case EventMark => RaisesEvent(b, e)
    case SnapshotMark => RaisesSnapshot(b, e)
    case FingerprintMark => RaisesFingerprint(b, e)
    case SessionMark => Authenticates(e)
  }

  predicate Unsets(mark: Mark, b: Bridge, e: Event) {
    match mark
    case EventMark => TakesDown(b, e)
    case SnapshotMark => TakesDown(b, e)
    case FingerprintMark => IsReset(e)
    case SessionMark => EndsSession(e)
  }

  predicate SetsAt(mark: Mark, start: Bridge, es: seq<Event>, k: int)
    requires 0 <= k < |es|
  {
    Sets(mark, After(start, es[..k]), es[k])
  }

  predicate ClearsAt(mark: Mark, start: Bridge, es: seq<Event>, k: int)
    requires 0 <= k < |es|
  {
    Unsets(mark, After(start, es[..k]), es[k])
  }

  predicate KeptAfter(mark: Mark, start: Bridge, es: seq<Event>, k: int) {
    forall j :: 0 <= j < |es| && k < j ==> !ClearsAt(mark, start, es, j)
  }

  /** It has happened, and nothing took it back since. */
  predicate Happened(mark: Mark, start: Bridge, es: seq<Event>) {
    exists k :: 0 <= k < |es| && SetsAt(mark, start, es, k) && KeptAfter(mark, start, es, k)
  }

  lemma SameAtPrefix(mark: Mark, start: Bridge, es: seq<Event>, e: Event, k: int)
    requires 0 <= k < |es|
    ensures SetsAt(mark, start, es + [e], k) <==> SetsAt(mark, start, es, k)
    ensures ClearsAt(mark, start, es + [e], k) <==> ClearsAt(mark, start, es, k)
  {
    assert (es + [e])[..k] == es[..k];
  }

  lemma KeptExtends(mark: Mark, start: Bridge, es: seq<Event>, e: Event, k: int)
    ensures k < |es| ==> (KeptAfter(mark, start, es + [e], k) <==>
                          KeptAfter(mark, start, es, k) && !Unsets(mark, After(start, es), e))
  {
    var all, n := es + [e], |es|;
    assert all[..n] == es;
    forall j | 0 <= j < n
      ensures ClearsAt(mark, start, all, j) <==> ClearsAt(mark, start, es, j)
    {
      SameAtPrefix(mark, start, es, e, j);
    }
    assert ClearsAt(mark, start, all, n) <==> Unsets(mark, After(start, es), e);
  }

  lemma HappenedExtends(mark: Mark, start: Bridge, es: seq<Event>, e: Event)
    ensures Happened(mark, start, es + [e]) <==>
            Sets(mark, After(start, es), e)
            || (Happened(mark, start, es) && !Unsets(mark, After(start, es), e))
  {
    var all, n := es + [e], |es|;
    assert all[..n] == es;
    assert SetsAt(mark, start, all, n) <==> Sets(mark, After(start, es), e);
    assert KeptAfter(mark, start, all, n);
    if Happened(mark, start, es) && !Unsets(mark, After(start, es), e) {
      var k :| 0 <= k < n && SetsAt(mark, start, es, k) && KeptAfter(mark, start, es, k);
      SameAtPrefix(mark, start, es, e, k);
      KeptExtends(mark, start, es, e, k);
    }
    if k :| 0 <= k < n && SetsAt(mark, start, all, k) && KeptAfter(mark, start, all, k) {
      SameAtPrefix(mark, start, es, e, k);
      KeptExtends(mark, start, es, e, k);
    }
  }

  /** The end of the callback, field by field. */
  lemma RestOfFrame(r: Bridge, f: Frame)
    requires f.analysis != Mismatch
    ensures var t := AfterRecovery(r, f);
            && (t.blocked ==> !t.status.pushConnected && !t.status.parserHealthy && !t.status.initialSnapshotComplete)
            && (!t.blocked ==>
                  && (t.status.pushConnected <==> r.status.pushConnected || IsEvent(f))
                  && (t.status.parserHealthy <==> r.status.parserHealthy || IsEvent(f))
                  && (t.status.initialSnapshotComplete <==> r.status.initialSnapshotComplete || IsCompleteSnapshot(f)))
            && (t.fingerprintObserved <==> r.fingerprintObserved || (!r.blocked && f.hasFingerprint))
            && t.status.authenticated == r.status.authenticated
            && (r.blocked ==> t.blocked)
  {
  }

  lemma RecoveryPart(b: Bridge, f: Frame)
    ensures var (r, recovered) := TryRecovery(b, f);
            && r.status.authenticated == b.status.authenticated
            && (recovered ==> b.blocked && !r.blocked && f.recovery == Recovered && f.hasFingerprint)
            && (!recovered ==> r.status == b.status)
            && (!recovered && !r.blocked && b.blocked ==> f.recovery == RecoveredUnreported && f.hasFingerprint)
            && (r.fingerprintObserved <==> b.fingerprintObserved || (b.blocked && !r.blocked))
            && (!b.blocked ==> !r.blocked)
  {
  }

  lemma FrameMovesFlags(b: Bridge, f: Frame)
    ensures var t, e := FrameStep(b, f), FrameReceived(f);
            && (t.status.pushConnected <==> RaisesEvent(b, e) || (b.status.pushConnected && !t.blocked))
            && (t.status.parserHealthy <==> RaisesEvent(b, e) || (b.status.parserHealthy && !t.blocked))
            && (t.status.initialSnapshotComplete <==>
                  RaisesSnapshot(b, e) || (b.status.initialSnapshotComplete && !t.blocked))
  {
    if f.analysis != Mismatch {
      RecoveryPart(b, f);
      RestOfFrame(TryRecovery(b, f).0, f);
    }
  }

  lemma StepMovesFlags(b: Bridge, e: Event)
    ensures Step(b, e).status.pushConnected <==> RaisesEvent(b, e) || (b.status.pushConnected && !TakesDown(b, e))
    ensures Step(b, e).status.parserHealthy <==> RaisesEvent(b, e) || (b.status.parserHealthy && !TakesDown(b, e))
    ensures Step(b, e).status.initialSnapshotComplete <==>
            RaisesSnapshot(b, e) || (b.status.initialSnapshotComplete && !TakesDown(b, e))
  {
    if e.FrameReceived? { FrameMovesFlags(b, e.frame); }
  }

  lemma FrameMovesMarks(b: Bridge, f: Frame)
    ensures FrameStep(b, f).fingerprintObserved <==> RaisesFingerprint(b, FrameReceived(f)) || b.fingerprintObserved
    ensures FrameStep(b, f).status.authenticated == b.status.authenticated
  {
    if f.analysis != Mismatch {
      RecoveryPart(b, f);
      RestOfFrame(TryRecovery(b, f).0, f);
    }
  }

  lemma StepMovesMarks(b: Bridge, e: Event)
    ensures Step(b, e).fingerprintObserved <==> RaisesFingerprint(b, e) || (b.fingerprintObserved && !IsReset(e))
    ensures Step(b, e).status.authenticated <==> Authenticates(e) || (b.status.authenticated && !EndsSession(e))
  {
    if e.FrameReceived? { FrameMovesMarks(b, e.frame); }
  }

  /** Every flag says of the whole history whether its mark was made and not taken back. */
  lemma {:induction false} FlagsAreHistory(start: Bridge, es: seq<Event>)
    requires IsStart(start)
    ensures var b := After(start, es);
            && (b.status.pushConnected <==> Happened(EventMark, start, es))
            && (b.status.parserHealthy <==> Happened(EventMark, start, es))
            && (b.status.initialSnapshotComplete <==> Happened(SnapshotMark, start, es))
            && (b.fingerprintObserved <==> Happened(FingerprintMark, start, es))
            && (b.status.authenticated <==> Happened(SessionMark, start, es))
  {
    if es != [] {
      var pre, e := es[..|es| - 1], es[|es| - 1];
      assert es == pre + [e];
      FlagsAreHistory(start, pre);
      StepMovesFlags(After(start, pre), e);
      StepMovesMarks(After(start, pre), e);
      HappenedExtends(EventMark, start, pre, e);
      HappenedExtends(SnapshotMark, start, pre, e);
      HappenedExtends(FingerprintMark, start, pre, e);
      HappenedExtends(SessionMark, start, pre, e);
    }
  }

  lemma RestState(r: Bridge, f: Frame)
    requires !AfterRecovery(r, f).blocked
    ensures var t := AfterRecovery(r, f).status;
            if IsEvent(f) then t.state == if r.status.initialSnapshotComplete then Connected else Syncing
            else if f.analysis == SnapshotPart then
              t.state == if f.snapshotComplete && r.status.pushConnected && r.status.parserHealthy then Connected
                         else Syncing
            else f.analysis == NoResult ==> t == r.status
  {
  }

  lemma FrameState(b: Bridge, f: Frame)
    requires !FrameStep(b, f).blocked
    ensures var t := FrameStep(b, f).status;
            if RecoversOn(b, FrameReceived(f)) then t.state == Connected
            else if IsEvent(f) then t.state == if b.status.initialSnapshotComplete then Connected else Syncing
            else if f.analysis == SnapshotPart then
              t.state == if f.snapshotComplete && b.status.pushConnected && b.status.parserHealthy then Connected
                         else Syncing
            else t == b.status
  {
    RecoveryPart(b, f);
    if !TryRecovery(b, f).1 { RestState(TryRecovery(b, f).0, f); }
  }

  /** When a frame brings CONNECTED: an event if a complete snapshot came before, a snapshot if it
      is complete and an event came before, each since the flags were last taken down; otherwise
      they bring SYNCING, and a frame without a result nothing. */
  lemma ConnectedExactly(start: Bridge, es: seq<Event>, f: Frame)
    requires IsStart(start) && !After(start, es + [FrameReceived(f)]).blocked
    ensures var t := After(start, es + [FrameReceived(f)]).status;
            if RecoversOn(After(start, es), FrameReceived(f)) then t.state == Connected
            else if IsEvent(f) then t.state == if Happened(SnapshotMark, start, es) then Connected else Syncing
            else if f.analysis == SnapshotPart then
              t.state == if f.snapshotComplete && Happened(EventMark, start, es) then Connected else Syncing
            else t == After(start, es).status
  {
    assert (es + [FrameReceived(f)])[..|es|] == es;
    FlagsAreHistory(start, es);
    FrameState(After(start, es), f);
  }

  /** When the latch goes on: on a mismatch of the surface, or on the first fingerprint since the
      latest reset, if that is incompatible. */
  lemma BlockedExactly(start: Bridge, es: seq<Event>, e: Event)
    requires IsStart(start) && !After(start, es).blocked
    ensures After(start, es + [e]).blocked <==>
            && e.FrameReceived?
            && (e.frame.analysis == Mismatch
                || (e.frame.hasFingerprint && e.frame.compatibility == Incompatible
                    && !Happened(FingerprintMark, start, es)))
  {
    assert (es + [e])[..|es|] == es;
    FlagsAreHistory(start, es);
  }

  /** What the other events show: a reset RECONNECTING, a stored mismatch PROTOCOL_CHANGED, and the
      keeper's page its own state, unless reconciling would take a live protocol state back. */
  lemma OtherEventsShow(start: Bridge, es: seq<Event>, e: Event)
    requires !e.FrameReceived?
    ensures var s, t := After(start, es), After(start, es + [e]);
            && t.blocked == s.blocked && t.recoveryCandidate == s.recoveryCandidate
            && (IsReset(e) ==> t.status.state == Reconnecting)
            && (e == RelaunchedWithMismatch ==> t.status.state == ProtocolChanged)
            && (e == SessionRejected ==> t.status.state == LoginRequired)
            && (e == BrowserLaunching ==> t.status.state == BrowserStarting)
            && (e == BrowserGaveUp ==> t.status.state == BrowserFailed)
            && (e.KeeperReconciled? && e.page == SmartThingsPage ==>
                  t.status.state == if s.status.state in {Syncing, Connected, Stale, ProtocolChanged}
                                    then s.status.state else DiscoveringProtocol)
            && (e.KeeperAttached? && e.page == SmartThingsPage ==> t.status.state == DiscoveringProtocol)
            && ((e.KeeperReconciled? || e.KeeperAttached?) && e.page == LoginPage ==> t.status.state == LoginRequired)
            && ((e.KeeperReconciled? || e.KeeperAttached?) && e.page == OtherPage ==> t.status.state == PageLoading)
  {
    assert (es + [e])[..|es|] == es;
  }

  /** The right to recover is spent by the first mismatch, or by the first frame on which both an
      event and a complete snapshot since the latest reset meet a fingerprint, whatever the store
      answers; nothing else takes it away. */
  lemma CandidateLastsExactly(start: Bridge, es: seq<Event>, e: Event)
    requires IsStart(start) && After(start, es).recoveryCandidate
    ensures After(start, es + [e]).recoveryCandidate <==>
            !(&& e.FrameReceived?
              && (e.frame.analysis == Mismatch
                  || (e.frame.hasFingerprint && EventSinceReset(es + [e]) && SnapshotSinceReset(es + [e]))))
  {
    assert (es + [e])[..|es|] == es;
    RunIsHonest(start, es);
    FlagsRecordEvidence(start, es);
    EventEvidenceExtends(es, e);
    SnapshotEvidenceExtends(es, e);
  }

  /** Both kinds of evidence are there with this frame, and a fingerprint to compare. */
  predicate HasAllEvidence(b: Bridge, f: Frame) {
    && f.hasFingerprint && (b.recoveryEventSeen || IsEvent(f)) && (b.recoverySnapshotSeen || IsCompleteSnapshot(f))
  }

  /** A failed write is remembered exactly from a recovery that threw, while clearing the stored
      mismatch or after it. */
  lemma WriteFailureExactly(b: Bridge, f: Frame)
    requires !b.recoveryWriteFailed
    ensures FrameStep(b, f).recoveryWriteFailed <==>
            && f.analysis != Mismatch && b.blocked && b.recoveryCandidate && HasAllEvidence(b, f)
            && f.recovery in {RecoveredUnreported, RecoveryThrew}
    ensures FrameStep(b.(recoveryWriteFailed := true), f).recoveryWriteFailed
  {
  }
}
