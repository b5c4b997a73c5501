# Verified model of the SmartThings Web bridge

The repository bridges SmartThings Web to Home Assistant. Around its I/O sit protocols, a
deployment transaction, folds over logs and in-place repairs. This project models those in
Dafny and proves what they are for, over every run, every input and every interleaving.

- **Light intents** (`LightValues`, `LightIntents`). Concurrent slider calls share a
  generation counter, a pending flag and a pending-values map. Each segment between two awaits
  is one step; replies of the Bridge are arbitrary, and tasks may be cancelled anywhere.
- **Deployment** (`RemoteTree`, `DeployScripts`, `DeployEffects`, `Deployment`, `ScriptRuns`,
  `OrdinaryRun`, `BlockedArchive`, `DeployAuthorization`, `ShellWords`, `CommandWords`,
  `DeployText`, `ScriptArrival`). Remote scripts run command by command on a file tree. What the
  guest and the network do is an input, of which nothing is assumed: where each script breaks off
  and what it leaves, which success markers and health probes arrive, what the Supervisor
  installs. The outcome is stated exactly in terms of it. The text of all five scripts that work
  on files, with their substitutions, pipes, redirections and conditional, is parsed back by a
  model of the POSIX shell's word splitting.
- **Bridge runtime** (`ConnectionStatus`, `SessionTouch`). The protocol latch, the connection
  status and the ownership of the keepalive touch, under interleaved frames, resets, browser
  closes, relaunches and late completions.
- **Soak** (`SoakEvaluation`, `SoakExceptions`, `SoakReport`, `SoakCleanLog`, `SoakGate`,
  `SoakResume`). The evaluator's loops against a declarative reading of each failure code, which
  logs earn each code and which earn none, exactly which logs the gate lets pass, and restarting
  from a log cut off at any byte.
- **Entity registry** (`EntityIds`, `FallbackRows`, `SwitchTargets`, `SwitchGroups`,
  `SwitchOrder`). In-place renaming among numbered IDs with refusals and a mirrored set, which
  rows that repair is given and when a second migration finds any left, and the targets of
  colliding primary switches.
- **Smaller algorithms** (`ProcessTree`, `DeviceMirrors`, `Naming`, `SequenceGaps`,
  `ParityCounts`). A cycle-safe ancestor walk, merging of mirrored devices, object-ID
  normalization, gap arithmetic and exact counting with joined keys.

Code that changes state in place is a class or a method with loops, proved against a
specification function or relation; the properties are lemmas about that specification.

Assumptions: `slugify` returns a slug unchanged; JSON with its sanitizing parser gives a
sanitized observation back and writes it on one line; `JSON.stringify` keeps failure groups
apart and escapes NUL; registry rows of one platform and domain have distinct unique IDs; a
remote script whose marker was lost is no longer running when the next one starts; Home
Assistant refuses a rename exactly when a row, a state or a reservation holds the target; clocks,
hashes, archives and the answers of collaborators are arbitrary.

Where the code falls short of what its design suggests, the model keeps the code and the
project states exactly when it holds:

- A directory at the durable archive path makes the final `mv` move the archive into it. The
  archive is secured if and only if there was none (`DeployEffects.PrepareSecuresArchive`).
  With one, and for every identity the builders accept, staging can still run to its end, and an
  activation that breaks off after its second command then leaves neither the source nor the
  archive (`BlockedArchive.DirectoryLosesBoth`).
- Accepting a hot-patched runtime withdraws the permission a matching runtime had
  (`DeployAuthorization.MoreConsentAuthorizesLess`).
- A second migration renames a row again if, after the row had stepped over an ID, a row with
  another canonical ID left it. Such an ID is a fallback ID, so it happens only to a name that
  is itself of the form "SmartThings device ...": an object ID can be renamed again if and only
  if it looks like a fallback (`FallbackRows.RenamedAgainExactly`).
- A switch row of another config entry takes a place but keeps its ID, so a target may be an
  ID that is kept (`SwitchTargets.ForeignEntryRowMayBlockTarget`). All IDs end up distinct if
  and only if no row that is of another entry, or comes after the last free place, stands on a
  candidate whose rank among the free ones is that of a row of this entry
  (`SwitchTargets.DistinctExactly`).
- Groups of switches do not look at each other's targets: two "Lamp" and one "Lamp 2" may both
  get the vacant `switch.lamp_2` (`SwitchGroups.LampsClash`). Targets of all groups are distinct
  if and only if no plain name is a vacant numbered candidate of another that both mean for a row
  of this entry (`SwitchGroups.AllTargetsDistinctExactly`).
- With a process ID used twice, the visited set can hide an ancestor
  (`ProcessTree.DuplicateIdHidesAncestor`). One is missed if and only if the walk comes back to
  the ID it started from and the record found there names a parent that no record before it
  named (`ProcessTree.SomethingMissedExactly`).
- The log writer has no size limit but the reader has: a log is read back if and only if it is
  within the reader's limits (`SoakResume.WrittenLogReadsBack`).
- Two soak failures can disappear again (`SoakExceptions.InsufficientSamplesMayFade`,
  `SoakExceptions.MemoryGrowthMayFade`). Too few samples stay too few if and only if no sample is
  added to another and no observation is dated before the end
  (`SoakExceptions.InsufficientSamplesLastExactly`); memory growth stays if and only if nothing is
  measured or the median of the last window, with the new value put in its place, is still too
  high (`SoakExceptions.MemoryGrowthLastsExactly`).

## Model

| member | source | states |
|---|---|---|
| LightValues.PreparedValuesAreWellPaired | custom_components/smartthings_web/light.py:239-267 | An accepted call yields hue exactly with saturation, never with a colour temperature, each attribute once, level 1..100, colour 0..100, and the mode that the colour values imply |
| LightValues.LevelSurvivesBrightness | custom_components/smartthings_web/light.py:194-247 | Showing a level on the 0..255 scale and sending it back gives the same level |
| LightValues.PreparedExactly | custom_components/smartthings_web/light.py:239-267 | A call turns the light off exactly if it asks for brightness zero; it is accepted exactly if brightness, temperature and a complete colour are in their ranges, colour comes without a temperature and to a light that has colour, and the device has the controls or a verified plan |
| LightValues.PlanSaysWhatWasAsked | custom_components/smartthings_web/light.py:239-267 | An accepted plan carries exactly the attributes asked for: the level nearest to the brightness but at least 1, the hue on the scale to 100, the saturation as it is and the nearest kelvin |
| LightValues.HueSurvives | custom_components/smartthings_web/light.py:200-267 | Sending a hue and showing what was sent gives that hue, up to the four places shown |
| LightValues.KelvinSurvives | custom_components/smartthings_web/light.py:200-267 | Sending a whole colour temperature and showing what was sent gives that temperature |
| LightIntents.SmartThingsWebLight.LatestIntent | custom_components/smartthings_web/light.py:302-333 | The segment up to the first await takes the step Start, and nothing changes when validation fails |
| LightIntents.SmartThingsWebLight.WakeTask | custom_components/smartthings_web/light.py:329-340 | A task waking from the coalescing delay submits its merged payload only while it is the newest |
| LightIntents.SmartThingsWebLight.ReplyTask | custom_components/smartthings_web/light.py:334-358 | The segment after the Bridge's reply takes the step Reply for every kind of reply |
| LightIntents.SmartThingsWebLight.CancelTask | custom_components/smartthings_web/light.py:327-358 | Cancelling a task at either await takes the step Cancel |
| LightIntents.SubmittedGenerationsIncrease | custom_components/smartthings_web/light.py:321-340 | Over every interleaving the generations of submitted commands strictly increase |
| LightIntents.PendingMeansOneOwner | custom_components/smartthings_web/light.py:321-358 | The pending flag is set exactly when one unfinished task owns the current generation |
| LightIntents.PendingColorIsPaired | custom_components/smartthings_web/light.py:308-316 | Pending values and every submitted payload hold hue exactly with saturation and never with a colour temperature |
| LightIntents.StaleTaskIsInert | custom_components/smartthings_web/light.py:331-358 | Wake, reply or cancellation of an overtaken task touches neither pending state, generation, colour mode, submissions nor any other task |
| LightIntents.ColorModeFollowsConfirmation | custom_components/smartthings_web/light.py:346-354 | The colour mode changes only on a confirmed reply to the newest submitted intent, to the mode of its values |
| LightIntents.FateOfTask | custom_components/smartthings_web/light.py:325-358 | A task cancelled asleep ends unsubmitted, and the newest task ends unsubmitted only if it was cancelled asleep |
| LightIntents.NewestIntentIsSubmitted | custom_components/smartthings_web/light.py:321-358 | Once all tasks have finished the newest generation has been submitted, if and only if it was not cancelled while asleep |
| LightIntents.SupersedeExtendsFold | custom_components/smartthings_web/light.py:309-316 | Merging a request into pending values extends the last-writer-wins fold by that request |
| LightIntents.PendingIsLastWriterFold | custom_components/smartthings_web/light.py:308-324 | While pending, the shared map is the last-writer-wins fold of all intents since the last idle point or "off" |
| LightIntents.SubmittedPayloadIsLastWriterFold | custom_components/smartthings_web/light.py:302-340 | At every submission the payload belongs to the newest generation and is that fold |
| LightIntents.FoldIsUnique | custom_components/smartthings_web/light.py:309-316 | Two value maps that are the last-writer-wins fold of the same intents are equal |
| LightIntents.StartSendsOnlyWhenIdle | custom_components/smartthings_web/light.py:321-340 | In every run an accepted intent sends nothing and sleeps if another is pending, and otherwise sends exactly one command, its own, and awaits the reply |
| LightIntents.RejectedStartIsInert | custom_components/smartthings_web/light.py:302-307 | A rejected call leaves the whole state as it was |
| LightIntents.SubmittedOnlyThen | custom_components/smartthings_web/light.py:321-340 | A command is added only by an accepted intent on an idle entity or by the wake of the newest sleeping task, which sends the merged values |
| LightIntents.BurstHasOneTrailingIntent | custom_components/smartthings_web/light.py:321-340 | While an intent is pending, a burst of accepted intents sends nothing, and waking the sleepers then sends exactly one command, the last of the burst with the merged values |
| LightIntents.EndedTaskExactly | custom_components/smartthings_web/light.py:341-358 | The pending state is cleared exactly when the task that ends is the newest |
| LightIntents.OtherEventsExactly | custom_components/smartthings_web/light.py:329-358 | An overtaken sleeper only ends, and events for tasks that do not wait for them change nothing |
| LightIntents.ColorModeIsLastConfirmed | custom_components/smartthings_web/light.py:346-354 | In every run the colour mode is that of the last confirmed reply to an intent that was the newest then |
| ShellWords.QuotedStringIsOneWord | tools/haos-candidate-deploy-core.ts:410-412 | Parsing a quoted string yields exactly that one word if and only if the string has no NUL |
| ShellWords.LexScript | tools/haos-candidate-deploy-core.ts:205-214 | A script of commands joined by "; " parses to exactly the words of its commands |
| ShellWords.ScriptSurvivesBothShells | tools/haos-candidate-deploy-core.ts:176-194 | The outer remote command passes the script on as one word, and the inner shell splits it into the words it was built from |
| CommandWords.PathRoundTrip | tools/haos-candidate-deploy-core.ts:119-143 | The text of a remote path parses back to its components |
| CommandWords.PatternRoundTrip | tools/haos-candidate-deploy-core.ts:228-241 | The version pattern gives its version back, the dots unescaped |
| CommandWords.DecodeInverts | tools/haos-candidate-deploy-core.ts:205-336 | The words of every kind of file command, hash checks through a substitution and printed files included, decode to that command |
| DeployText.TextMeansScript | tools/haos-candidate-deploy-core.ts:205-289 | The text of a script, parsed, cut at its separators and read with its conditionals, is the list of modelled commands after its preamble |
| DeployText.ScriptsReachGuestIntact | tools/haos-candidate-deploy-core.ts:205-336 | For every valid identity the initialize, prepare, activate, rollback and cleanup texts mean exactly the modelled commands |
| ScriptArrival.AllScriptsArrive | tools/haos-candidate-deploy-core.ts:176-336 | For every valid identity, virtual machine and timeout all five scripts are within the limit of the guest command, arrive as its last word, and are read as exactly the modelled commands |
| DeployScripts.VersionExactly | tools/haos-candidate-deploy-core.ts:446-450 | A version is accepted exactly if it is one to nine digits, three times, with dots between |
| DeployScripts.RunKeepsArchive | tools/haos-candidate-deploy-core.ts:253-289 | A run of any script that writes away from the durable archive, broken off anywhere, keeps archive, hash and ancestors in every tree |
| DeployScripts.LaterScriptsSpareArchive | tools/haos-candidate-deploy-core.ts:253-336 | Activation, rollback and cleanup write away from the durable archive and all its ancestors |
| DeployScripts.EarlyScriptsSpareSource | tools/haos-candidate-deploy-core.ts:205-251 | Initialize, prepare and cleanup never write at or below the add-on source |
| DeployEffects.PrepareSecuresArchive | tools/haos-candidate-deploy-core.ts:216-251 | After a completed prepare the durable archive is there with the verified hash if and only if no directory sat at its path before |
| DeployEffects.PrepareStagesCandidate | tools/haos-candidate-deploy-core.ts:216-251 | After a completed prepare the staged candidate holds the verified manifest and the expected version |
| DeployEffects.ActivateInstallsCandidate | tools/haos-candidate-deploy-core.ts:253-263 | A completed activation turns the staged tree, node for node, into the add-on source |
| DeployEffects.RollbackRestoresSource | tools/haos-candidate-deploy-core.ts:265-289 | A completed rollback makes the source exactly what the verified archive unpacks to, with its manifest and version |
| BlockedArchive.DirectoryLosesBoth | tools/haos-candidate-deploy-core.ts:216-263 | For every identity the builders accept and its layout, with both archives uploaded and a directory at the durable path, there is a completed prepare that leaves that directory, and an activation broken off after two commands that leaves neither the source nor a verified archive, so that no rollback can start |
| BlockedArchive.BlockedGuestExists | tools/haos-candidate-deploy-core.ts:216-263 | There is such a guest for every identity the builders accept and the layout made from it, and what it comes to is not recoverable |
| OrdinaryRun.AnswerOf | tools/haos-candidate-deploy.ts:499-519 | Every run of a script, broken off anywhere and leaving anything within reach of the command that failed, is one the model allows |
| OrdinaryRun.PrepareRunsExactly | tools/haos-candidate-deploy-core.ts:216-251 | With both archives delivered and nothing of this deployment on the guest, staging runs through exactly if the candidate archive unpacks to the manifest and version expected, and leaves exactly the specified tree |
| OrdinaryRun.ActivationRunsExactly | tools/haos-candidate-deploy-core.ts:253-263 | Activation runs through exactly if the staged manifest is a file and there is somewhere to move the source to |
| OrdinaryRun.RollbackRunsExactly | tools/haos-candidate-deploy-core.ts:265-289 | Rollback runs through exactly if the archive has its hash and unpacks to the rollback release, with somewhere to unpack and to install it |
| OrdinaryRun.CleanupRemovesExactly | tools/haos-candidate-deploy-core.ts:327-336 | Cleanup runs through on every guest and removes the temporary directory and both unpacked sources and nothing else |
| OrdinaryRun.IdentityExactly | tools/haos-candidate-deploy-core.ts:216-251 | The identity record names commit and manifest of the candidate, and commit, manifest and archive of the rollback, line by line |
| OrdinaryRun.StagesExactly | tools/haos-candidate-deploy.ts:309-322 | On a guest without leftovers staging succeeds exactly if nothing disturbs its four scripts and the candidate archive is the package it says it is |
| OrdinaryRun.ScriptsAcknowledgedExactly | tools/haos-candidate-deploy.ts:330-373 | Once staged, activation is acknowledged exactly if undisturbed; and wherever it broke off, rollback is acknowledged exactly if undisturbed and the archive is the rollback release |
| OrdinaryRun.OrdinaryRunSucceedsExactly | tools/haos-candidate-deploy.ts:296-373 | For an ordinary guest and undisturbed staging, the candidate is activated, and after a failure the rollback restored, exactly when its script is undisturbed, the Supervisor obliges, a probe answers and what is read matches |
| Deployment.LayoutMatchesExactly | tools/haos-candidate-deploy-core.ts:119-143 | For a valid identity exactly the layout created from it is accepted |
| Deployment.Guest.RunGuestMarker | tools/haos-candidate-deploy.ts:499-519 | A script is acknowledged exactly if it ran to its end and its marker arrived; otherwise it ran some prefix, the last command possibly in part |
| Deployment.Guest.SupervisorInstalls | tools/haos-candidate-deploy.ts:464-477 | Nothing is installed unless the store reloads, and it is acknowledged exactly if it also reports back |
| Deployment.Guest.WaitForHealth | tools/haos-candidate-deploy.ts:410-428 | Healthy exactly if one of the first thirty probes answers; it stops at that one, and gives up only after thirty |
| Deployment.Guest.VerifyInstalledVersion | tools/haos-candidate-deploy.ts:390-408 | It succeeds exactly if a probe answers, the app is read and is the started version asked for, and the manifest, when asked for, is read and has the hash |
| Deployment.Guest.BestEffortCleanup | tools/haos-candidate-deploy.ts:430-444 | However cleanup ends, it ran from the tree it was given, and source and archive are as before in every tree |
| Deployment.Guest.Upload | tools/haos-candidate-deploy.ts:309-316 | It succeeds exactly if all three scripts are acknowledged, each from the tree of the one before; after a failure none follows |
| Deployment.Guest.Stage | tools/haos-candidate-deploy.ts:309-322 | It succeeds exactly if the uploads do and the prepare script for a valid identity and its layout is acknowledged; every tree has the source untouched; a staged guest holds the candidate, and the archive unless a directory was in its way |
| Deployment.Guest.StageAndConfirm | tools/haos-candidate-deploy.ts:309-328 | Every failure before activation leaves the source unchanged in every tree, and only a denied readiness is followed by a cleanup |
| Deployment.Guest.ActivateAndVerify | tools/haos-candidate-deploy.ts:330-343 | It succeeds exactly if the activation script, the Supervisor update and the verification of version and manifest do, and then the staged tree is the source; the archive survives either way |
| Deployment.Guest.RestoreRollback | tools/haos-candidate-deploy.ts:356-373 | It succeeds exactly if the rollback script, the rebuild and the verification of version and runtime hash do, and then the source is the archived one; the archive survives either way |
| Deployment.Guest.RollBack | tools/haos-candidate-deploy.ts:344-353 | The outcome is a rollback exactly if the restoration succeeds, and only then is cleaned up |
| Deployment.Guest.ActivateOrRollBack | tools/haos-candidate-deploy.ts:330-353 | Deployed exactly if activation and its verification succeed, otherwise rolled back exactly if the restoration does, and failed if neither; cleanup comes last |
| Deployment.Guest.ExecuteDeployment | tools/haos-candidate-deploy.ts:296-354 | Which of the five outcomes comes is stated exactly in terms of what guest and network do; in every tree of every run the source is unchanged or the verified archive is there; each outcome says which actions were taken and what is installed |
| DeployAuthorization.ReasonsExactly | tools/haos-candidate-deploy-core.ts:77-117 | Each reason is given exactly if its check fails |
| DeployAuthorization.AuthorizedExactly | tools/haos-candidate-deploy.ts:873-906 | Deployment is authorized exactly when all checks pass, or the operator deferred a failing soak, nothing else fails and the hot-patch consent says just what is installed |
| DeployAuthorization.MoreConsentAuthorizesLess | tools/haos-candidate-deploy.ts:879-890 | With a matching runtime and a deferred soak, also accepting a hot-patched runtime withdraws the authorization |
| ConnectionStatus.CapturePipeline.Write | bridge/src/runtime.ts:1872-2026 | Handling one websocket frame takes the step FrameStep |
| ConnectionStatus.CapturePipeline.Recover | bridge/src/runtime.ts:1927-1971 | The recovery branch clears the latch, also when the status update that reports it throws, withdraws the candidate or only records evidence |
| ConnectionStatus.CapturePipeline.Capture | bridge/src/runtime.ts:1973-2026 | The first fingerprint check and the capture proper take the rest of the step |
| ConnectionStatus.CapturePipeline.Reset | bridge/src/runtime.ts:1852-1871 | Both resets forget the evidence and leave the latch alone |
| ConnectionStatus.CapturePipeline.OnContextClose | bridge/src/runtime.ts:1017-1046 | A closed browser context takes the step ContextClosed |
| ConnectionStatus.CapturePipeline.OnSocketRecovery | bridge/src/runtime.ts:1317-1330 | A socket recovery takes the step SocketRecoveryAttempted |
| ConnectionStatus.CapturePipeline.ReconcileActiveKeeper | bridge/src/runtime.ts:1091-1100 | Reconciling an authenticated keeper keeps a live protocol state |
| ConnectionStatus.ConnectedMeansHealthy | bridge/src/runtime.ts:1988-2023 | Over all interleavings CONNECTED implies snapshot, parser and push, and a blocked Bridge is never CONNECTED |
| ConnectionStatus.BlockedFrameReportsChange | bridge/src/runtime.ts:1973-1994 | Every frame that leaves the Bridge blocked ends in PROTOCOL_CHANGED with all three flags down |
| ConnectionStatus.LiveBlockIsPermanent | bridge/src/runtime.ts:1893-1918 | Blocking by a surface or fingerprint mismatch while running lasts for the whole process |
| ConnectionStatus.ClearedAtMostOnce | bridge/src/runtime.ts:1829-1846 | The latch comes off at most once per process and only from a recoverable blocked start |
| ConnectionStatus.FlagsRecordEvidence | bridge/src/runtime.ts:1852-1871 | While recovery is possible the two flags say exactly whether an event and a complete snapshot arrived since the latest reset |
| ConnectionStatus.ClearingNeedsFreshEvidence | bridge/src/runtime.ts:1927-1970 | The latch comes off exactly on a frame with a fingerprint the store accepts, with both kinds of evidence since the latest reset |
| ConnectionStatus.FlagsAreHistory | bridge/src/runtime.ts:1852-2026 | In every run push, parser, snapshot, fingerprint and authentication flags say exactly whether what raises them has happened since the latest reset, block or end of session that takes them down |
| ConnectionStatus.ConnectedExactly | bridge/src/runtime.ts:1999-2022 | After a frame that leaves the Bridge unblocked, an event gives CONNECTED exactly if a complete snapshot arrived since the flags last came down, and a snapshot exactly if it is complete and an event arrived since; a recovery always does, and a frame that means nothing leaves the status alone |
| ConnectionStatus.BlockedExactly | bridge/src/runtime.ts:1893-1994 | An event blocks an unblocked Bridge exactly if it is a frame that mismatches, or brings the first fingerprint since the latest reset and that is not compatible |
| ConnectionStatus.OtherEventsShow | bridge/src/runtime.ts:967-1100 | The state that each event other than a frame leads to; none of them touches the latch |
| ConnectionStatus.CandidateLastsExactly | bridge/src/runtime.ts:1893-1971 | Recovery stays possible exactly until a mismatch, or a frame with a fingerprint once an event and a complete snapshot arrived since the latest reset |
| ConnectionStatus.WriteFailureExactly | bridge/src/runtime.ts:1927-1971 | A failed write is remembered exactly from a recovery with full evidence that threw |
| SessionTouch.SessionKeeper.TouchIfDue | bridge/src/runtime.ts:1107-1124 | The segment up to the first await fills in and clamps the schedule and starts a touch only when due and none is in flight |
| SessionTouch.SessionKeeper.SettleTouch | bridge/src/runtime.ts:1126-1169 | The segment after the keeper's answer applies it only while nothing the touch started under was replaced |
| SessionTouch.SessionKeeper.OnContextClose | bridge/src/runtime.ts:1017-1025 | Closing the current context takes the touch in flight away from its owner |
| SessionTouch.SessionKeeper.OnLaunched | bridge/src/runtime.ts:967-976 | A relaunch starts with no schedule, failure or touch of its predecessor |
| SessionTouch.RunIsOwned | bridge/src/runtime.ts:225-228 | In every run the in-flight flag is set exactly when a token is, and the token belongs to an unfinished touch |
| SessionTouch.RetiredTouchIsInert | bridge/src/runtime.ts:1126-1169 | A touch begun before a close or relaunch never changes its successor's schedule, failure count, token or flag, however late it completes |
| SessionTouch.AppliedDelayIsBounded | bridge/src/runtime.ts:1129-1142 | Every applied outcome schedules the next touch 30,000 to 300,000 ms ahead |
| SessionTouch.FailureDelaysGrow | bridge/src/runtime.ts:1138-1142 | Within a series of failures a later one never waits less than an earlier one |
| SessionTouch.MaintenanceNeverStalls | bridge/src/runtime.ts:1117-1123 | A keeper ready at one tick and again five minutes later has a touch in flight, whatever the clock did, unless one completed or the browser was relaunched |
| SessionTouch.AppliedDelayExactly | bridge/src/runtime.ts:1126-1142 | An applied success leaves no failures and the next touch 300,000 ms ahead, a rejected or stale session 30,000 ms; the n-th failure in a row, counted from the history, waits 30,000, 60,000, 120,000, 240,000 and then 300,000 ms |
| SessionTouch.OtherwiseTheTouchJustEnds | bridge/src/runtime.ts:1126-1169 | A touch that is not applied, or whose work after a success is over, only ends: schedule and failures stay |
| SessionTouch.TouchStartsExactly | bridge/src/runtime.ts:1107-1124 | A tick starts a touch exactly if the keeper is ready, none is in flight and the time set is reached; a time unset or more than 300,000 ms ahead becomes 300,000 ms ahead |
| SessionTouch.NoTouchTooEarly | bridge/src/runtime.ts:1107-1142 | No touch starts before the time that the latest applied outcome left, unless it is asked for or the clock runs back |
| SessionTouch.WantedTouchStarts | bridge/src/runtime.ts:1107-1124 | A touch that was asked for starts at the next admitted tick with none in flight, unless one was applied or the browser relaunched in between |
| SessionTouch.ClosedBrowserIsLeftAlone | bridge/src/runtime.ts:1017-1046 | Between a close of the current browser and the next launch no touch starts or is applied |
| SessionTouch.OtherCloseIsIgnored | bridge/src/runtime.ts:1017-1020 | A close of another context or generation, or after the stop, changes nothing |
| SessionTouch.LaunchStartsAfresh | bridge/src/runtime.ts:967-976 | After a launch the first ready tick starts no touch and sets the next one 300,000 ms ahead, whatever came before |
| SessionTouch.AdvancedGenerationRetires | bridge/src/runtime.ts:1126-1169 | A touch begun before the generation advanced is never applied |
| SessionTouch.StoppedForGood | bridge/src/runtime.ts:1107-1169 | After a stop no touch starts or is applied |
| SoakEvaluation.ScanTimes | tools/haos-soak-core.ts:391-420 | The first loop finds the parsed times, the widest gap and exactly the timing failures |
| SoakEvaluation.ScanSamples | tools/haos-soak-core.ts:422-466 | The second loop adds exactly the codes some sample earns against the first sample or its predecessor |
| SoakEvaluation.EvaluateSoak | tools/haos-soak-core.ts:385-536 | The evaluation is the declarative one, code by code, and the three errors come exactly when an option, the end date or the last timestamp is bad |
| SoakEvaluation.SortedSorts | tools/haos-soak-core.ts:731-741 | The medians are read from an ascending permutation of the window |
| SoakReport.ErrorsExactly | tools/haos-soak-core.ts:709-729 | Each of the three errors comes exactly when an option is out of its range, the end is no date, or the last timestamp is not canonical, in that order |
| SoakReport.MedianIsUnique | tools/haos-soak-core.ts:731-741 | The median is the middle of the one ascending arrangement of the values |
| SoakReport.MemoryExactly | tools/haos-soak-core.ts:472-488 | The memory fields are the medians of the first and the last window, a tenth of the samples rounded up but at most twelve, what lies between them, and the highest value |
| SoakReport.ReportExactly | tools/haos-soak-core.ts:490-535 | Status, completion, counts, widest gap, flat counters and both ends of an evaluation, read off the log |
| SoakCleanLog.TimeCodesExactly | tools/haos-soak-core.ts:400-420 | Order and gap failures are earned exactly by neighbouring times that go backwards or lie more than two intervals apart |
| SoakCleanLog.StateCodesExactly | tools/haos-soak-core.ts:426-434 | The three state failures are earned exactly by a sample that is not live, not ready or not CONNECTED |
| SoakCleanLog.BaselineCodesExactly | tools/haos-soak-core.ts:422-449 | Protocol changes and invalid frames fail exactly if some sample counts more than the first |
| SoakCleanLog.RestartCodeExactly | tools/haos-soak-core.ts:440-461 | A restart is reported exactly if some sample counts more restarts than the first, or has an uptime more than 5,000 ms below that of the sample before |
| SoakCleanLog.NeighbourCodesExactly | tools/haos-soak-core.ts:450-461 | Counters, sequences and inventory fail exactly if some sample falls below, or differs from, the one before |
| SoakCleanLog.CleanRunExactly | tools/haos-soak-core.ts:391-488 | A log earns no failure exactly if its samples are dated, live, ready and CONNECTED, follow each other within two intervals without falling counters, sequences or uptime and with one inventory, stay on the baseline, are two if the run is over, and grow within the limit |
| SoakEvaluation.AppendKeepsFailures | tools/haos-soak-core.ts:391-466 | Appending any observation keeps every failure code except memory growth and insufficient samples |
| SoakEvaluation.ContinuationKeepsFailures | tools/haos-soak-core.ts:391-466 | So does any continuation of the run |
| SoakExceptions.InsufficientSamplesLastExactly | tools/haos-soak-core.ts:468-473 | A complete run that is too short stays so with the next observation exactly if that adds no sample to another and is not dated before the end |
| SoakExceptions.MedianOfAppend | tools/haos-soak-core.ts:731-741 | The median of values and one more is the middle of the sorted values with the new one clamped between its neighbours |
| SoakExceptions.MemoryGrowthLastsExactly | tools/haos-soak-core.ts:475-488 | Excessive growth stays with the next observation exactly if nothing is measured or the growth computed from the log's own windows and the new value is still too high |
| SoakExceptions.MemoryGrowthMayFadeExactly | tools/haos-soak-core.ts:475-488 | A sample can clear excessive growth only if one that uses no memory would, which is read off the log |
| SoakExceptions.InsufficientSamplesMayFade | tools/haos-soak-core.ts:468-473 | A complete run of one sample stops being too short with the next |
| SoakExceptions.MemoryGrowthMayFade | tools/haos-soak-core.ts:475-488 | A memory spike is forgiven once the latest samples are low again |
| SoakEvaluation.CompletionLasts | tools/haos-soak-core.ts:468-470 | A complete run stays complete unless it earns the timestamp-order failure |
| SoakGate.EvaluateGate | tools/haos-soak-deployment-gate-core.ts:285-378 | The reasons given are exactly those that apply, and eligibility and evidence state follow from them |
| SoakGate.NeverFall | tools/haos-soak-core.ts:655-659 | In a log without failures times and event counters are nondecreasing for all pairs |
| SoakGate.NothingOnTopOfBaseline | tools/haos-soak-core.ts:426-449 | No sample of a log without failures counts more restarts, protocol changes or invalid frames than the first |
| SoakGate.EligibleLogIsSound | tools/haos-soak-deployment-gate-core.ts:285-378 | If the gate is eligible on a log's summary, the log has at least 865 observations, all live, ready and CONNECTED, no gap beyond twice the interval, rising counters, 72 hours of duration and bounded memory growth |
| SoakGate.EligibleExactly | tools/haos-soak-deployment-gate-core.ts:285-378 | The gate lets the summary of a log pass exactly if the log is a clean run of at least 865 samples and 72 hours that ended in time and proves activity, the metadata describe it, and the hash matches |
| SoakGate.RunReasonsExactly | tools/haos-soak-deployment-gate-core.ts:285-378 | On the summary of a log, the reasons about the run are given exactly if the log has failures, or does not reach its end |
| SoakGate.SampleReasonsExactly | tools/haos-soak-deployment-gate-core.ts:285-378 | The reasons about samples are given exactly if there are fewer than 865, one was missed, the log has failures, one of them a gap, or growth exceeds 256 MiB |
| SoakGate.EvidenceReasonsExactly | tools/haos-soak-deployment-gate-core.ts:285-378 | Evidence is missing exactly if nothing was measured, and invalid exactly if first and last sample do not prove activity |
| SoakGate.EligibleLogCoversEveryInstant | tools/haos-soak-deployment-gate-core.ts:285-378 | At every instant between its first and last observation an eligible log had seen the system ready at most ten minutes before |
| SoakResume.AppendExtendsLog | tools/haos-soak-core.ts:351-361 | Writing an observation appends its line, or nothing if it is not sanitized |
| SoakResume.ParseSoakObservationLog | tools/haos-soak-resume-core.ts:169-192 | The parsing loop computes the specification of reading a log |
| SoakResume.WrittenLogReadsBack | tools/haos-soak-resume-core.ts:169-192 | A log written by successive appends reads back as the same observations, if and only if it is within the limits |
| SoakResume.TornLogIsRejected | tools/haos-soak-resume-core.ts:175-177 | A log cut at any byte is accepted exactly when cut between two lines, and then gives the observations before the cut |
| SoakResume.ResumesExactly | tools/haos-soak-resume-core.ts:194-234 | A run can be resumed exactly when it is not completed, duration, interval and end fit, and its log was cut between two lines, is within the limits and ends no earlier than the start; the metadata are to blame exactly if they do not fit |
| SoakResume.ResumedRunEvaluatesAlike | tools/haos-soak-resume-core.ts:224-233 | Whatever is observed after resuming is evaluated as if there had been no interruption, and the next sample is due one interval after the last |
| EntityIds.EntityRegistry.RenameGenerated | custom_components/smartthings_web/__init__.py:1067-1114 | A rename succeeds exactly when neither a row, a live state nor a reservation holds the target; a leftover state does not stand in the way |
| EntityIds.EntityRegistry.RepairRow | custom_components/smartthings_web/__init__.py:1133-1157 | One row moves to its target and the mirrored set follows |
| EntityIds.EntityRegistry.RepairNumberedFallbackEntityIds | custom_components/smartthings_web/__init__.py:1117-1157 | The loops perform the specified pass, and the mirrored set agrees with the registry after every row |
| EntityIds.TargetIsLeastFree | custom_components/smartthings_web/__init__.py:1135-1145 | The target is the first candidate that is the row's own or neither occupied nor refused, or its own ID when all are taken |
| EntityIds.PassKeepsRegistry | custom_components/smartthings_web/__init__.py:1117-1157 | A pass loses, doubles or re-identifies no row, refuses nothing new and leaves every row outside its list alone |
| EntityIds.SettledMeansNothingFree | custom_components/smartthings_web/__init__.py:1135-1142 | A row stays where it is exactly when nothing free comes before its own ID |
| EntityIds.MoveKeepsSettled | custom_components/smartthings_web/__init__.py:1133-1157 | A move never unsettles a row of the same canonical ID, nor one whose candidates the mover did not hold |
| EntityIds.SecondPassRenamesNothing | custom_components/smartthings_web/__init__.py:1117-1157 | If no row starts at a candidate of a row with another canonical ID, a second pass in any order renames nothing |
| EntityIds.RowSettles | custom_components/smartthings_web/__init__.py:1117-1157 | If nobody with another canonical ID starts at a candidate of a row, the row has nothing free before it at the end of the pass |
| FallbackRows.FallbackIsNoCandidate | custom_components/smartthings_web/__init__.py:2129-2175 | A row that the repair lists never stands at a numbered candidate of an object ID that does not look like a fallback |
| FallbackRows.ListedExactly | custom_components/smartthings_web/__init__.py:2129-2175 | A row is listed exactly if its object ID is the fallback of its device or that with more behind an underscore, and its name calls for another; it is listed with that in the same domain |
| FallbackRows.RelistedAlike | custom_components/smartthings_web/__init__.py:749-767 | What the next migration lists of a repaired row is the ID it was given with the same target |
| FallbackRows.SecondRepairRenamesNothing | custom_components/smartthings_web/__init__.py:749-767 | If no name calls for an object ID that looks like a fallback, no row starts at a candidate of another, and the repair of the next migration renames nothing |
| FallbackRows.NamesakeWitnesses | custom_components/smartthings_web/__init__.py:749-767 | For every fallback-like name there is a registry with two listed rows, in the order of the sort, in which the next migration lists the first again and renames it |
| FallbackRows.RenamedAgainExactly | custom_components/smartthings_web/__init__.py:2129-2175 | A name can be renamed again by the next migration if and only if the object ID it calls for is "smartthings_device", alone or with more behind an underscore |
| SwitchTargets.CollisionTargets | custom_components/smartthings_web/__init__.py:1282-1307 | The loops over one group target exactly its rows of this entry whose assigned place is not the one they hold |
| SwitchTargets.CandidatesAreDistinct | custom_components/smartthings_web/__init__.py:1287-1290 | No ID is two numbered candidates of one name |
| SwitchTargets.IndicesRiseThroughFreePlaces | custom_components/smartthings_web/__init__.py:1284-1300 | Rows get strictly rising indices not held by a foreign row, and no free one is skipped |
| SwitchTargets.TargetsAreDistinctAndOwn | custom_components/smartthings_web/__init__.py:1282-1307 | New targets are pairwise distinct and never held by a row outside the generated group |
| SwitchTargets.DistinctExactly | custom_components/smartthings_web/__init__.py:1282-1307 | Kept and new IDs are pairwise distinct if and only if, counting free candidates from the input alone, no row that is left behind stands on a candidate meant for a row of this entry |
| SwitchTargets.OwnRowsAreDistinct | custom_components/smartthings_web/__init__.py:1282-1307 | In particular they are when every generated row is of this entry and there are free candidates for all |
| SwitchTargets.ForeignEntryRowMayBlockTarget | custom_components/smartthings_web/__init__.py:1301-1306 | With a row of another entry a target may equal an ID that is kept |
| SwitchGroups.PrimarySwitchCollisionTargets | custom_components/smartthings_web/__init__.py:1258-1307 | Grouping by name, sorting and filtering give each group its rows, and for every order of the groups the result is the targets of each group and nothing else |
| SwitchOrder.GroupExactly | custom_components/smartthings_web/__init__.py:1258-1283 | The group of a name is the generated rows of that name in ascending order: those at the plain name first, then by room key, then by unique ID |
| SwitchGroups.NamedRowStays | custom_components/smartthings_web/__init__.py:1269-1306 | A generated row that stands at its plain name comes first in its group and is never moved |
| SwitchGroups.AllTargetsDistinctExactly | custom_components/smartthings_web/__init__.py:1258-1307 | The targets of all groups are pairwise distinct if and only if no plain name is a vacant numbered candidate of another that both groups mean for a row of this entry |
| SwitchGroups.AllFinallyApartExactly | custom_components/smartthings_web/__init__.py:1258-1307 | Kept and new IDs of all generated rows are pairwise distinct if and only if that is so and in no group a row that is left behind stands in the way |
| SwitchGroups.LampsClash | custom_components/smartthings_web/__init__.py:1282-1306 | Two groups of a concrete registry whose targets coincide |
| ProcessTree.IsDescendantOf | tools/haos-runtime-api-audit-core.ts:502-517 | The walk ends on every table and finds the ancestor exactly if it is reached before an ID repeats |
| ProcessTree.VisitedWalkIsReachability | tools/haos-runtime-api-audit-core.ts:502-517 | With the record itself in the table that is exactly reachability by one or more parent steps |
| ProcessTree.MissedExactly | tools/haos-runtime-api-audit-core.ts:502-517 | On every table an ancestor is missed if and only if the walk comes back to its own ID without having named it and the table's record of that ID has it as an ancestor |
| ProcessTree.SomethingMissedExactly | tools/haos-runtime-api-audit-core.ts:502-517 | Some ancestor is missed if and only if the walk comes back to its own ID and the record found there names a parent that no record before it named |
| ProcessTree.DuplicateIdHidesAncestor | tools/haos-runtime-api-audit-core.ts:502-517 | With an ID used twice a reachable ancestor may be missed |
| ProcessTree.SelectRuntimeProcesses | tools/haos-runtime-api-audit-core.ts:162-187 | A selection is made exactly when one bridge-named process has a browser below it, and lists all such browsers in ascending order |
| ProcessTree.CandidatesByReachability | tools/haos-runtime-api-audit-core.ts:167-171 | With distinct IDs the candidates are the bridge-named processes that some browser has as an ancestor |
| ProcessTree.BrowsersByReachability | tools/haos-runtime-api-audit-core.ts:179-182 | With distinct IDs the browsers listed are those that have the bridge as an ancestor |
| DeviceMirrors.MergePair | custom_components/smartthings_web/device_identity.py:103-128 | Merging two devices gives the specified device |
| DeviceMirrors.MergedStateIsNewest | custom_components/smartthings_web/device_identity.py:103-144 | Each merged state is one of the two, no valid one is newer, and ties stay with the cloud device |
| DeviceMirrors.MergedDeviceIsBoth | custom_components/smartthings_web/device_identity.py:103-128 | The merged device is online if either half is, has the later valid health stamp with ties to the cloud, all linked IDs and the local one's own, the local one's parent, and otherwise what the cloud one says |
| DeviceMirrors.AliasesAreMirrors | custom_components/smartthings_web/device_identity.py:24-101 | A device is hidden behind another exactly if it is a local one with a parent and the other a cloud one, alone among the devices of their owner, location, room, name and type, both show switch, level, hue and saturation, and the cloud one can do whatever the local one can |
| DeviceMirrors.CanonicalizeDuplicateDevices | custom_components/smartthings_web/device_identity.py:24-56 | For every order of devices and groups the loops produce the canonical outcome |
| DeviceMirrors.CanonicalPartitionsIds | custom_components/smartthings_web/device_identity.py:47-56 | Survivors and aliases split the IDs between them, and aliases point to survivors that are no aliases |
| DeviceMirrors.OutcomeIsUnique | custom_components/smartthings_web/device_identity.py:24-56 | There is one canonical outcome, so iteration order is irrelevant |
| DeviceMirrors.GroupCheckFindsPair | custom_components/smartthings_web/device_identity.py:59-92 | The check on one group finds a pair exactly when its only two members are a strong cloud and local half |
| DeviceMirrors.CanonicalIsIdempotent | custom_components/smartthings_web/device_identity.py:24-56 | A second application changes nothing and yields no aliases |
| Naming.CollapseRepeatedSlugPrefix | custom_components/smartthings_web/naming.py:92-97 | The loop computes the specified collapse |
| Naming.CanonicalEntityObjectId | custom_components/smartthings_web/naming.py:12-29 | The branches compute the specified object ID of a device slug and a name, and none exactly for the empty slug |
| Naming.ObjectIdNamesDeviceOnce | custom_components/smartthings_web/naming.py:12-29 | An object ID is the device slug or starts with it, and never repeats it as a doubled prefix |
| Naming.ObjectIdIsFixedPoint | custom_components/smartthings_web/naming.py:12-29 | Feeding an object ID back as a name gives the same object ID |
| Naming.FeedbackCollapses | custom_components/smartthings_web/naming.py:92-97 | However often a feedback loop prefixed the device slug, one prefix remains |
| Naming.ObjectIdExactly | custom_components/smartthings_web/naming.py:12-29 | Every name is the device slug a number of times and a rest; its object ID is the slug and that rest, or the slug alone if nothing is left or the slug ends with it already |
| SequenceGaps.SummarizeSequences | tools/haos-live-control-event-benchmark-core.ts:581-595 | The loop's gaps telescope to last - first + 1 less the number of distinct values |
| SequenceGaps.GapsCountMissing | tools/haos-live-control-event-benchmark-core.ts:581-595 | That number counts exactly the values between smallest and largest that never arrived |
| SequenceGaps.FindBridgeEvent | tools/haos-live-control-event-benchmark-core.ts:523-536 | The event found is the first of the list that qualifies, and none is found only if none qualifies |
| SequenceGaps.AwaitedExactly | tools/haos-live-control-event-benchmark-core.ts:381-425 | A polling loop ends with the earliest event that qualifies, and times out exactly if none does |
| SequenceGaps.HaTimesOutExactly | tools/haos-live-control-event-benchmark-core.ts:381-407 | Home Assistant's side times out exactly if no event reports the target, received and updated no earlier than asked for |
| SequenceGaps.BridgeTimesOutExactly | tools/haos-live-control-event-benchmark-core.ts:409-536 | The Bridge's side times out exactly if no event does so with a sequence beyond the last one credited |
| SequenceGaps.ExecuteTransition | tools/haos-live-control-event-benchmark-core.ts:326-413 | A transition is credited with the first qualifying event of each side, or with nothing exactly if one side times out |
| SequenceGaps.RunBridgeTransitions | tools/haos-live-control-event-benchmark-core.ts:223-252 | Along a run each transition is credited with the first Home Assistant event and the first Bridge event of its kind, with a sequence beyond all before it; a run that ends early was let down by one side |
| SequenceGaps.OnAndOffInTurn | tools/haos-live-control-event-benchmark-core.ts:223-252 | Both events credited to a transition show the light going on and off in turn |
| ParityCounts.EventKeyIsInjective | tools/smartthings-web-parity-audit-core.ts:704-710 | Two events share a key only if they are equal |
| ParityCounts.AggregateDangerousEvents | tools/smartthings-web-parity-audit-core.ts:704-720 | One failure a group, counting its distinct commands, with the counts adding up to the number of distinct events |
| ParityCounts.SumFailureCounts | tools/smartthings-web-parity-audit-core.ts:722-724 | The reduction is the sum of the counts, a failure without one standing for one |
| ParityCounts.SumExactly | tools/smartthings-web-parity-audit-core.ts:722-724 | No failures add up to nothing, and one more adds its count, or one if it has none |
| ParityCounts.NameKeyIsInjective | tools/smartthings-web-parity-audit-core.ts:551-555 | Over control-free strings two entities share a name key exactly if device, domain and name agree |
| ParityCounts.GroupByName | tools/smartthings-web-parity-audit-core.ts:571-580 | Each group holds the entities of its key, in order, and no group is empty |
| ParityCounts.GroupIsTriple | tools/smartthings-web-parity-audit-core.ts:551-569 | A group is all entities of one device, domain and name |
| ParityCounts.CollectDuplicates | tools/smartthings-web-parity-audit-core.ts:551-569 | There is one failure for each triple used twice or more, carrying how often |

## Left out

- `_verified_plan` and the catch-up reads of `light.py`: whether the catalog offers a plan is a parameter of each call, and reads after a command do not write the state modelled here.
- The non-coalesced path of `async_turn_on`, which sets the colour mode without a generation check.
- The insertion order of pending light values: the map is unordered, so the order of a submitted payload is not modelled.
- LightIntents.SmartThingsWebLight.LatestIntent: availability and plan validation are one answer, an input.
- SSH, git, tar, HTTP, SQLite and Playwright: their answers are inputs; hashes, archive contents and version strings are functions of abstract file contents.
- Scripts still running after a lost marker, and commands other than file operations inside a failed command: a failed command may write only where it would have written.
- DeployText.ScriptsReachGuestIntact: the two commands under one conditional are modelled with the test made before each; the word parser knows no quoted reserved words, parameter expansions, globs or backslashes, and whether the version pattern matches is a function of the file.
- The text of the upload, Supervisor, health and audit commands.
- Deployment.Guest.ExecuteDeployment: upload framing and guest-agent envelopes are one script with a lost or delivered marker.
- Timestamps, counters and ages in the status store beyond the five fields modelled, and the camera, device and volatile-identifier stores.
- The protocol analyzer, the integrity store and the keeper manager: their answers are part of the events.
- Health and resource fields of a soak sample that no rule reads, warnings other than flat counters, and the JSON field checks of run metadata and summaries.
- SoakEvaluation.EvaluateSoak: the failures are a set, so their order in the report is not modelled; medians are exact rationals.
- SoakGate.EvaluateGate: which reasons are given is proved, not their order.
- Coverage before the first soak observation, and equality of optional inventory counts across samples that lack them.
- Reading run artifacts from disk: the missing, oversized and malformed files that the gate reports before evaluating.
- SequenceGaps.RunBridgeTransitions: a run without a Bridge, a service call that throws and the final switch-off are left out.
- ConnectionStatus.CapturePipeline.Write: exceptions of the status store outside the recovery branch.
- The collector lock: taking over a stale one is a check followed by an unlink, which does not exclude a second starter.
- EntityIds.EntityRegistry.RepairNumberedFallbackEntityIds: the sort of the rows is left out; the results hold for every order.
- EntityIds.SecondPassRenamesNothing: the condition is sufficient for lists in general; for the rows the repair is given, `FallbackRows.RenamedAgainExactly` says of each name when it can fail.
- FallbackRows.SecondRepairRenamesNothing: the object ID that a row's name calls for is an input and stays the same between two migrations.
- SwitchTargets.CollisionTargets: the loop over one group; grouping, sorting and the loop over groups are `SwitchGroups.PrimarySwitchCollisionTargets`.
- SwitchGroups.PrimarySwitchCollisionTargets: which rows are primary switches without a name of their own, the ID and the room key of each, and whether its current ID counts as generated are inputs.
- `_relocate_primary_name_collisions`, the filters of `_migrate_entity_registry` and the room-name branches: they rest on `models.py`, which is not part of this model.
- `casefold`, `slugify`, `strip` and timestamp parsing: inputs are given in the form these leave them in.
- The socket counts and summaries of the runtime audit, latency percentiles and speed-up factors, and the other parity failures: single filters and folds.
- Locale-dependent sort orders of reports.
- CLI parsing, sanitizing patterns, token and URL validators, Home Assistant entity classes and platform discovery.
