/**
 The coalescing protocol of one light entity (custom_components/smartthings_web/light.py).

 Service calls are tasks that share a generation counter, a pending flag and pending values.
 Every stretch between two awaits is one step: Start (up to the 75 ms sleep or the Bridge
 request), Wake (after the sleep), Reply (after the Bridge answered) and Cancel.
 */
module LightIntents {
  import opened Wrappers
  import opened LightValues

  datatype Power = On | Off
  datatype Phase = Sleeping | Awaiting | Finished
  datatype Task = Task(generation: nat, power: Power, values: Values, phase: Phase)
  datatype Submission = Submission(generation: nat, power: Power, values: Values)
  datatype BridgeReply = Confirmed | Superseded | BridgeError | Unconfirmed

  /** The entity's fields, the frames of its tasks, and what the Bridge received so far. */
  datatype State = State(
    generation: nat,
    pendingValues: Values,
    pending: bool,
    colorMode: Option<ColorMode>,
    tasks: seq<Task>,
    submissions: seq<Submission>)

  /** `accepted` says whether the merged plan was verified and the light available. */
  datatype Event =
    | Start(power: Power, requested: Values, accepted: bool)
    | Wake(task: nat)
    | Reply(task: nat, reply: BridgeReply)
    | Cancel(task: nat)

  const IDLE := State(0, map[], false, None, [], [])

  // ---------------------------------------------------------------------------
  // One step
  // ---------------------------------------------------------------------------

  function Supersede(pending: Values, requested: Values): Values {
    (if Hue in requested then pending - {ColorTemperature}
     else if ColorTemperature in requested then pending - {Hue, Saturation}
     else pending) + requested
  }

  function StartStep(s: State, power: Power, requested: Values, accepted: bool): State {
    if !accepted then s
    else
      var values := Supersede(if s.pending && power == On then s.pendingValues else map[], requested);
      var task := Task(s.generation + 1, power, values, if s.pending then Sleeping else Awaiting);
      s.(generation := s.generation + 1,
         pendingValues := values,
         pending := true,
         tasks := s.tasks + [task],
         submissions := if s.pending then s.submissions
                        else s.submissions + [Submission(s.generation + 1, power, values)])
  }

  function WakeStep(s: State, i: nat): State {
    if i >= |s.tasks| || s.tasks[i].phase != Sleeping then s
    else
      var t := s.tasks[i];
      if t.generation != s.generation then s.(tasks := s.tasks[i := t.(phase := Finished)])
      else s.(tasks := s.tasks[i := t.(phase := Awaiting)],
              submissions := s.submissions + [Submission(t.generation, t.power, t.values)])
  }

  /** The `finally` block: only the newest intent may clear the shared pending state. */
  function Finish(s: State, i: nat): State
    requires i < |s.tasks|
  {
    var t := s.tasks[i];
    var done := s.(tasks := s.tasks[i := t.(phase := Finished)]);
    if t.generation == s.generation then done.(pending := false, pendingValues := map[]) else done
  }

  function ReplyStep(s: State, i: nat, reply: BridgeReply): State {
    if i >= |s.tasks| || s.tasks[i].phase != Awaiting then s
    else
      var t := s.tasks[i];
      var mode :=
        if reply != Confirmed || t.generation != s.generation then s.colorMode
        else if ColorTemperature in t.values then Some(ColorTemp)
        else if Hue in t.values then Some(HueSaturation)
        else s.colorMode;
      Finish(s.(colorMode := mode), i)
  }

  function CancelStep(s: State, i: nat): State {
    if i >= |s.tasks| || s.tasks[i].phase == Finished then s else Finish(s, i)
  }

  function Step(s: State, e: Event): State {
    match e
    case Start(power, requested, accepted) => StartStep(s, power, requested, accepted)
    case Wake(i) => WakeStep(s, i)
    case Reply(i, reply) => ReplyStep(s, i, reply)
    case Cancel(i) => CancelStep(s, i)
  }

  /** A start carries validated values; "off" carries none. */
  predicate ValidEvent(e: Event) {
    e.Start? ==> WellPaired(e.requested) && (e.power == Off ==> e.requested == map[])
  }

  predicate ValidRun(es: seq<Event>) {
    forall i :: 0 <= i < |es| ==> ValidEvent(es[i])
  }

  /** The state after a whole interleaving, starting with an idle entity. */
  function After(es: seq<Event>): State {
    if es == [] then IDLE else Step(After(es[..|es| - 1]), es[|es| - 1])
  }

  // ---------------------------------------------------------------------------
  // The entity
  // ---------------------------------------------------------------------------

  class SmartThingsWebLight {
    var intentGeneration: nat
    var pendingLightValues: Values
    var intentPending: bool
    var confirmedColorMode: Option<ColorMode>
    var tasks: seq<Task>
    var submissions: seq<Submission>

    function View(): State
      reads this
    {
      State(intentGeneration, pendingLightValues, intentPending, confirmedColorMode, tasks, submissions)
    }

    constructor ()
      ensures View() == IDLE
    {
      intentGeneration, pendingLightValues, intentPending := 0, map[], false;
      confirmedColorMode, tasks, submissions := None, [], [];
    }

    /** The first stretch of `_async_latest_intent`. */
    method LatestIntent(power: Power, requested: Values, accepted: bool)
      modifies this
      ensures View() == StartStep(old(View()), power, requested, accepted)
    {
      var pending := intentPending;
      var merged: Values := if pending && power == On then pendingLightValues else map[];
      if Hue in requested {
        merged := merged - {ColorTemperature};
      } else if ColorTemperature in requested {
        merged := merged - {Hue, Saturation};
      }
      merged := merged + requested;
      if !accepted {
        return;
      }
      intentGeneration := intentGeneration + 1;
      pendingLightValues := merged;
      intentPending := true;
      tasks := tasks + [Task(intentGeneration, power, merged, if pending then Sleeping else Awaiting)];
      if !pending {
        submissions := submissions + [Submission(intentGeneration, power, merged)];
      }
    }

    method WakeTask(i: nat)
      modifies this
      ensures View() == WakeStep(old(View()), i)
    {
      if i < |tasks| && tasks[i].phase == Sleeping {
        var t := tasks[i];
        if t.generation != intentGeneration {
          tasks := tasks[i := t.(phase := Finished)];
        } else {
          submissions := submissions + [Submission(t.generation, t.power, t.values)];
          tasks := tasks[i := t.(phase := Awaiting)];
        }
      }
    }

    method ReplyTask(i: nat, reply: BridgeReply)
      modifies this
      ensures View() == ReplyStep(old(View()), i, reply)
    {
      if i < |tasks| && tasks[i].phase == Awaiting {
        var t := tasks[i];
        if reply == Confirmed && t.generation == intentGeneration {
          if ColorTemperature in t.values {
            confirmedColorMode := Some(ColorTemp);
          } else if Hue in t.values {
            confirmedColorMode := Some(HueSaturation);
          }
        }
        Unwind(i);
      }
    }

    method CancelTask(i: nat)
      modifies this
      ensures View() == CancelStep(old(View()), i)
    {
      if i < |tasks| && tasks[i].phase != Finished {
        Unwind(i);
      }
    }

    method Unwind(i: nat)
      requires i < |tasks|
      modifies this
      ensures View() == Finish(old(View()), i)
    {
      if tasks[i].generation == intentGeneration {
        intentPending := false;
        pendingLightValues := map[];
      }
      tasks := tasks[i := tasks[i].(phase := Finished)];
    }
  }

  // ---------------------------------------------------------------------------
  // What every interleaving keeps
  // ---------------------------------------------------------------------------

  predicate Submitted(s: State, generation: nat) {
    exists k :: 0 <= k < |s.submissions| && s.submissions[k].generation == generation
  }

  /** Task i is unfinished and carries the newest generation. */
  predicate OwnsIntent(s: State, i: nat) {
    i < |s.tasks| && s.tasks[i].phase != Finished && s.tasks[i].generation == s.generation
  }

  /** Task i carries generation i + 1: every accepted start is one generation. */
  predicate Numbered(s: State) {
    && |s.tasks| == s.generation
    && (forall i :: 0 <= i < |s.tasks| ==> s.tasks[i].generation == i + 1)
  }

  /** The shared fields mirror the newest task. */
  predicate MirrorsNewest(s: State) {
    && |s.tasks| == s.generation
    && (s.pending <==> s.generation > 0 && s.tasks[s.generation - 1].phase != Finished)
    && s.pendingValues == (if s.pending then s.tasks[s.generation - 1].values else map[])
  }

  predicate Ordered(s: State) {
    && (forall j, k :: 0 <= j < k < |s.submissions| ==> s.submissions[j].generation < s.submissions[k].generation)
    && (forall k :: 0 <= k < |s.submissions| ==> 1 <= s.submissions[k].generation <= s.generation)
  }

  /** A sleeping task has not been sent, an awaiting one has. */
  predicate PhasesMatchSubmissions(s: State) {
    && (forall i :: 0 <= i < |s.tasks| && s.tasks[i].phase == Sleeping ==> !Submitted(s, i + 1))
    && (forall i :: 0 <= i < |s.tasks| && s.tasks[i].phase == Awaiting ==> Submitted(s, i + 1))
  }

  predicate AllPaired(s: State) {
    WellPaired(s.pendingValues) && forall i :: 0 <= i < |s.tasks| ==> WellPaired(s.tasks[i].values)
  }

  predicate Consistent(s: State) {
    Numbered(s) && MirrorsNewest(s) && Ordered(s) && PhasesMatchSubmissions(s) && AllPaired(s)
  }

  lemma SubmittedGrows(s: State, t: State, x: Submission)
    requires t.submissions == s.submissions + [x]
    ensures forall g: nat :: Submitted(t, g) <==> Submitted(s, g) || g == x.generation
  {
    forall g: nat ensures Submitted(t, g) <==> Submitted(s, g) || g == x.generation {
      if Submitted(s, g) {
        var k :| 0 <= k < |s.submissions| && s.submissions[k].generation == g;
        assert t.submissions[k].generation == g;
      }
      if g == x.generation {
        assert t.submissions[|s.submissions|].generation == g;
      }
    }
  }

  lemma SubmittedSame(s: State, t: State)
    requires t.submissions == s.submissions
    ensures forall g: nat :: Submitted(t, g) <==> Submitted(s, g)
  {}

  lemma StartKeepsConsistency(s: State, power: Power, requested: Values)
    requires Consistent(s) && WellPaired(requested)
    ensures Consistent(StartStep(s, power, requested, true))
  {
    var t := StartStep(s, power, requested, true);
    var task := t.tasks[s.generation];
    assert forall i :: 0 <= i < |s.tasks| ==> t.tasks[i] == s.tasks[i];
    assert !Submitted(s, s.generation + 1);
    if s.pending {
      SubmittedSame(s, t);
    } else {
      SubmittedGrows(s, t, t.submissions[|s.submissions|]);
    }
  }

  lemma OvertakenWakeKeepsConsistency(s: State, i: nat)
    requires Consistent(s) && WakeStep(s, i).submissions == s.submissions
    ensures Consistent(WakeStep(s, i))
  {
    SubmittedSame(s, WakeStep(s, i));
  }

  lemma NewestWakeKeepsConsistency(s: State, i: nat)
    requires Consistent(s) && i < |s.tasks| && s.tasks[i].phase == Sleeping && i + 1 == s.generation
    ensures Consistent(WakeStep(s, i))
  {
    var t := WakeStep(s, i);
    SubmittedGrows(s, t, t.submissions[|s.submissions|]);
    assert !Submitted(s, i + 1);
    assert forall k :: 0 <= k < |s.submissions| ==> s.submissions[k].generation != i + 1;
  }

  lemma WakeKeepsConsistency(s: State, i: nat)
    requires Consistent(s)
    ensures Consistent(WakeStep(s, i))
  {
    if i < |s.tasks| && s.tasks[i].phase == Sleeping && s.tasks[i].generation == s.generation {
      NewestWakeKeepsConsistency(s, i);
    } else {
      OvertakenWakeKeepsConsistency(s, i);
    }
  }

  lemma FinishKeepsConsistency(s: State, i: nat)
    requires Consistent(s) && i < |s.tasks|
    ensures Consistent(Finish(s, i))
  {
    SubmittedSame(s, Finish(s, i));
  }

  lemma RecoloringKeepsConsistency(s: State, mode: Option<ColorMode>)
    requires Consistent(s)
    ensures Consistent(s.(colorMode := mode))
  {
    SubmittedSame(s, s.(colorMode := mode));
  }

  lemma StepKeepsConsistency(s: State, e: Event)
    requires Consistent(s) && ValidEvent(e)
    ensures Consistent(Step(s, e))
  {
    match e {
      case Start(power, requested, accepted) =>
        if accepted { StartKeepsConsistency(s, power, requested); }
      case Wake(i) => WakeKeepsConsistency(s, i);
      case Reply(i, reply) =>
        if i < |s.tasks| && s.tasks[i].phase == Awaiting {
          var recolored := s.(colorMode := ReplyStep(s, i, reply).colorMode);
          RecoloringKeepsConsistency(s, recolored.colorMode);
          FinishKeepsConsistency(recolored, i);
        }
      case Cancel(i) =>
        if i < |s.tasks| && s.tasks[i].phase != Finished { FinishKeepsConsistency(s, i); }
    }
  }

  lemma {:induction false} RunIsConsistent(es: seq<Event>)
    requires ValidRun(es)
    ensures Consistent(After(es))
  {
    if es != [] {
      RunIsConsistent(es[..|es| - 1]);
      StepKeepsConsistency(After(es[..|es| - 1]), es[|es| - 1]);
    }
  }

  /** No command ever overtakes a newer one on its way to the Bridge. */
  lemma SubmittedGenerationsIncrease(es: seq<Event>)
    requires ValidRun(es)
    ensures var subs := After(es).submissions;
            forall j, k :: 0 <= j < k < |subs| ==> subs[j].generation < subs[k].generation
  {
    RunIsConsistent(es);
  }

  /** The pending flag says exactly that one unfinished task owns the newest generation. */
  lemma PendingMeansOneOwner(es: seq<Event>)
    requires ValidRun(es)
    ensures var s := After(es);
            && (s.pending <==> exists i :: OwnsIntent(s, i))
            && (forall i, j :: OwnsIntent(s, i) && OwnsIntent(s, j) ==> i == j)
            && (!s.pending ==> s.pendingValues == map[])
  {
    RunIsConsistent(es);
    var s := After(es);
    if s.pending {
      assert OwnsIntent(s, s.generation - 1);
    }
  }

  predicate CarriesTask(s: State, sent: Submission) {
    && 1 <= sent.generation <= |s.tasks|
    && sent.values == s.tasks[sent.generation - 1].values
    && sent.power == s.tasks[sent.generation - 1].power
  }

  predicate CarriesTaskValues(s: State) {
    forall k :: 0 <= k < |s.submissions| ==> CarriesTask(s, s.submissions[k])
  }

  /** A step leaves the values of tasks alone, and submits at most the payload of a task. */
  lemma StepKeepsTaskValues(s: State, e: Event)
    requires Numbered(s)
    ensures var t := Step(s, e);
            && |s.tasks| <= |t.tasks|
            && (forall i :: 0 <= i < |s.tasks| ==>
                t.tasks[i].values == s.tasks[i].values && t.tasks[i].power == s.tasks[i].power)
            && (t.submissions == s.submissions
                || exists sent :: t.submissions == s.submissions + [sent] && CarriesTask(t, sent))
  {
    var t := Step(s, e);
    if t.submissions != s.submissions {
      var sent := t.submissions[|s.submissions|];
      assert t.submissions == s.submissions + [sent] && CarriesTask(t, sent);
    }
  }

  lemma StepCarriesTaskValues(s: State, e: Event)
    requires Numbered(s) && CarriesTaskValues(s)
    ensures CarriesTaskValues(Step(s, e))
  {
    StepKeepsTaskValues(s, e);
  }

  lemma {:induction false} PendingColorIsPaired(es: seq<Event>)
    requires ValidRun(es)
    ensures WellPaired(After(es).pendingValues)
    ensures CarriesTaskValues(After(es))
    ensures forall k :: 0 <= k < |After(es).submissions| ==> WellPaired(After(es).submissions[k].values)
  {
    RunIsConsistent(es);
    if es != [] {
      var pre := es[..|es| - 1];
      PendingColorIsPaired(pre);
      RunIsConsistent(pre);
      StepCarriesTaskValues(After(pre), es[|es| - 1]);
    }
  }

  /** A reply or cancellation of an overtaken intent touches nothing but its own task. */
  lemma StaleTaskIsInert(es: seq<Event>, i: nat, e: Event)
    requires ValidRun(es) && i < |After(es).tasks|
    requires After(es).tasks[i].generation != After(es).generation
    requires e == Wake(i) || e == Cancel(i) || (e.Reply? && e.task == i)
    ensures var s, t := After(es), After(es + [e]);
            && t.pending == s.pending && t.pendingValues == s.pendingValues
            && t.colorMode == s.colorMode && t.generation == s.generation
            && t.submissions == s.submissions
            && |t.tasks| == |s.tasks|
            && (forall j :: 0 <= j < |s.tasks| && j != i ==> t.tasks[j] == s.tasks[j])
  {
    assert (es + [e])[..|es|] == es;
  }

  /** The colour mode only ever follows a confirmed command that carried the newest intent. */
  lemma ColorModeFollowsConfirmation(es: seq<Event>, e: Event)
    requires ValidRun(es) && ValidEvent(e)
    requires After(es + [e]).colorMode != After(es).colorMode
    ensures var s, mode := After(es), After(es + [e]).colorMode;
            && e.Reply? && e.reply == Confirmed && OwnsIntent(s, e.task)
            && Submitted(s, s.generation)
            && (mode == Some(ColorTemp) <==> ColorTemperature in s.tasks[e.task].values)
            && (mode == Some(HueSaturation) <==> Hue in s.tasks[e.task].values)
  {
    assert (es + [e])[..|es|] == es;
    RunIsConsistent(es);
    var s := After(es);
    assert Submitted(s, e.task + 1);
  }

  /** The reply, or the cancellation, that ends a task: the task is over and no other touched; the
      pending state goes exactly with the newest intent, and nothing is sent. */
  lemma EndedTaskExactly(es: seq<Event>, e: Event, i: nat)
    requires ValidRun(es) && i < |After(es).tasks|
    requires (e.Reply? && e.task == i && After(es).tasks[i].phase == Awaiting)
             || (e == Cancel(i) && After(es).tasks[i].phase != Finished)
    ensures var s, t := After(es), After(es + [e]);
            && t.tasks == s.tasks[i := s.tasks[i].(phase := Finished)]
            && t.generation == s.generation && t.submissions == s.submissions
            && (OwnsIntent(s, i) ==> !t.pending && t.pendingValues == map[])
            && (!OwnsIntent(s, i) ==> t.pending == s.pending && t.pendingValues == s.pendingValues)
  {
    assert (es + [e])[..|es|] == es;
  }

  /** A wake of an overtaken task ends it; events for tasks that wait for something else, or for
      nothing, change nothing. */
  lemma OtherEventsExactly(es: seq<Event>, e: Event, i: nat)
    requires ValidRun(es) && (e == Wake(i) || e == Cancel(i) || (e.Reply? && e.task == i))
    ensures var s, t := After(es), After(es + [e]);
            && (e.Wake? && i < |s.tasks| && s.tasks[i].phase == Sleeping && !OwnsIntent(s, i) ==>
                  t == s.(tasks := s.tasks[i := s.tasks[i].(phase := Finished)]))
            && (i >= |s.tasks| || s.tasks[i].phase == Finished ==> t == s)
            && (e.Wake? && i < |s.tasks| && s.tasks[i].phase == Awaiting ==> t == s)
            && (e.Reply? && i < |s.tasks| && s.tasks[i].phase == Sleeping ==> t == s)
  {
    assert (es + [e])[..|es|] == es;
  }

  /** A confirmed reply to the newest intent, which carried a colour of this mode. */
  predicate ConfirmsMode(s: State, e: Event, mode: ColorMode) {
    && e.Reply? && e.reply == Confirmed && OwnsIntent(s, e.task) && s.tasks[e.task].phase == Awaiting
    && (if mode == ColorTemp then ColorTemperature else Hue) in s.tasks[e.task].values
  }

  predicate ConfirmsSome(s: State, e: Event) { ConfirmsMode(s, e, ColorTemp) || ConfirmsMode(s, e, HueSaturation) }

  predicate ModeAt(es: seq<Event>, j: int, mode: ColorMode)
    requires 0 <= j < |es|
  {
    ConfirmsMode(After(es[..j]), es[j], mode)
  }

  predicate SomeModeAt(es: seq<Event>, j: int)
    requires 0 <= j < |es|
  {
    ConfirmsSome(After(es[..j]), es[j])
  }

  predicate LastConfirmed(es: seq<Event>, mode: ColorMode, k: int) {
    0 <= k < |es| && ModeAt(es, k, mode) && forall j :: k < j < |es| ==> !SomeModeAt(es, j)
  }

  lemma SameAtPrefix(es: seq<Event>, mode: ColorMode, j: int)
    requires 0 <= j < |es| - 1
    ensures ModeAt(es[..|es| - 1], j, mode) <==> ModeAt(es, j, mode)
    ensures SomeModeAt(es[..|es| - 1], j) <==> SomeModeAt(es, j)
  {
    assert es[..|es| - 1][..j] == es[..j];
  }

  lemma StepSetsMode(s: State, e: Event, mode: ColorMode)
    requires Consistent(s)
    ensures ConfirmsMode(s, e, mode) ==> Step(s, e).colorMode == Some(mode)
    ensures !ConfirmsSome(s, e) ==> Step(s, e).colorMode == s.colorMode
    ensures !(ConfirmsMode(s, e, ColorTemp) && ConfirmsMode(s, e, HueSaturation))
  {
  }

  lemma LastConfirmedStays(es: seq<Event>, mode: ColorMode, k: int)
    requires es != [] && !SomeModeAt(es, |es| - 1)
    ensures LastConfirmed(es, mode, k) <==> LastConfirmed(es[..|es| - 1], mode, k)
  {
    var n := |es| - 1;
    if 0 <= k < n { SameAtPrefix(es, mode, k); }
    forall j | 0 <= j < n
      ensures SomeModeAt(es[..n], j) <==> SomeModeAt(es, j)
    {
      SameAtPrefix(es, mode, j);
    }
    assert !ModeAt(es, n, mode);
  }

  /** The colour mode is that of the last confirmed reply to a newest intent with a colour. */
  lemma {:induction false} ColorModeIsLastConfirmed(es: seq<Event>, mode: ColorMode)
    requires ValidRun(es)
    ensures After(es).colorMode == Some(mode) <==> exists k :: LastConfirmed(es, mode, k)
  {
    if es != [] {
      var n := |es| - 1;
      var pre, e := es[..n], es[n];
      RunIsConsistent(pre);
      StepSetsMode(After(pre), e, mode);
      StepSetsMode(After(pre), e, if mode == ColorTemp then HueSaturation else ColorTemp);
      ColorModeIsLastConfirmed(pre, mode);
      if ConfirmsSome(After(pre), e) {
        assert SomeModeAt(es, n);
        if ConfirmsMode(After(pre), e, mode) {
          assert ModeAt(es, n, mode) && LastConfirmed(es, mode, n);
        } else {
          assert !ModeAt(es, n, mode) && forall k :: LastConfirmed(es, mode, k) ==> k == n;
        }
      } else {
        forall k
          ensures LastConfirmed(es, mode, k) <==> LastConfirmed(pre, mode, k)
        {
          LastConfirmedStays(es, mode, k);
        }
      }
    }
  }

  // ---------------------------------------------------------------------------
  // A burst has one trailing intent
  // ---------------------------------------------------------------------------

  lemma SupersedeNothing(requested: Values)
    ensures Supersede(map[], requested) == requested
  {
    assert map[] - {ColorTemperature} + requested == requested;
    assert map[] - {Hue, Saturation} + requested == requested;
  }

  /** A start on an idle entity is sent at once; while an intent is pending it sleeps unsent. */
  lemma StartSendsOnlyWhenIdle(es: seq<Event>, e: Event)
    requires ValidRun(es) && ValidEvent(e) && e.Start? && e.accepted
    ensures var s, t := After(es), After(es + [e]);
            && t.generation == s.generation + 1 == |t.tasks| && t.pending && t.colorMode == s.colorMode
            && (forall j :: 0 <= j < |s.tasks| ==> t.tasks[j] == s.tasks[j])
            && t.tasks[|s.tasks|].generation == t.generation && t.tasks[|s.tasks|].power == e.power
            && t.tasks[|s.tasks|].values == t.pendingValues
            && (s.pending ==> t.submissions == s.submissions && t.tasks[|s.tasks|].phase == Sleeping)
            && (!s.pending ==>
                  && t.submissions == s.submissions + [Submission(t.generation, e.power, e.requested)]
                  && t.tasks[|s.tasks|].phase == Awaiting && t.pendingValues == e.requested)
  {
    assert (es + [e])[..|es|] == es;
    RunIsConsistent(es);
    SupersedeNothing(e.requested);
  }

  /** A rejected start changes nothing. */
  lemma RejectedStartIsInert(es: seq<Event>, power: Power, requested: Values)
    ensures After(es + [Start(power, requested, false)]) == After(es)
  {
    assert (es + [Start(power, requested, false)])[..|es|] == es;
  }

  predicate SendsNow(s: State, e: Event) {
    || (e.Start? && e.accepted && !s.pending)
    || (e.Wake? && e.task < |s.tasks| && s.tasks[e.task].phase == Sleeping
        && s.tasks[e.task].generation == s.generation)
  }

  lemma OtherStepsSendNothing(s: State, e: Event)
    requires !SendsNow(s, e)
    ensures Step(s, e).submissions == s.submissions
  {
  }

  predicate SendsNewest(s: State, t: State) {
    && 0 < t.generation <= |t.tasks| && t.pending && t.tasks[t.generation - 1].phase == Awaiting
    && t.submissions == s.submissions +
         [Submission(t.generation, t.tasks[t.generation - 1].power, t.pendingValues)]
  }

  lemma SendingStep(s: State, e: Event)
    requires Numbered(s) && MirrorsNewest(s) && SendsNow(s, e)
    ensures SendsNewest(s, Step(s, e))
  {
  }

  /** The Bridge hears of an intent only from a start on an idle entity or when the newest sleeping
      task wakes, and then of that one. */
  lemma SubmittedOnlyThen(es: seq<Event>, e: Event)
    requires ValidRun(es) && ValidEvent(e)
    ensures After(es + [e]).submissions != After(es).submissions <==> SendsNow(After(es), e)
    ensures SendsNow(After(es), e) ==> SendsNewest(After(es), After(es + [e]))
  {
    assert (es + [e])[..|es|] == es;
    RunIsConsistent(es);
    if SendsNow(After(es), e) {
      SendingStep(After(es), e);
      assert |After(es + [e]).submissions| == |After(es).submissions| + 1;
    } else {
      OtherStepsSendNothing(After(es), e);
    }
  }

  predicate AreStarts(es: seq<Event>) {
    forall i :: 0 <= i < |es| ==> es[i].Start? && es[i].accepted && ValidEvent(es[i])
  }

  predicate AreWakes(es: seq<Event>) { forall i :: 0 <= i < |es| ==> es[i].Wake? }

  lemma ValidJoin(a: seq<Event>, b: seq<Event>)
    requires ValidRun(a) && (AreStarts(b) || AreWakes(b))
    ensures ValidRun(a + b)
  {
  }

  lemma LastOfJoin(a: seq<Event>, b: seq<Event>)
    requires b != []
    ensures a + b == a + b[..|b| - 1] + [b[|b| - 1]]
  {
  }

  /** Starts while an intent is pending only add sleeping tasks. */
  lemma {:induction false} BurstSleeps(es: seq<Event>, starts: seq<Event>)
    requires ValidRun(es) && AreStarts(starts) && After(es).pending
    ensures var s, t := After(es), After(es + starts);
            && t.pending && t.submissions == s.submissions
            && t.generation == |t.tasks| == |s.tasks| + |starts| == s.generation + |starts|
            && (forall j :: |s.tasks| <= j < |t.tasks| ==> t.tasks[j].phase == Sleeping)
  {
    RunIsConsistent(es);
    if starts == [] {
      assert es + starts == es;
    } else {
      var n := |starts| - 1;
      BurstSleeps(es, starts[..n]);
      ValidJoin(es, starts[..n]);
      LastOfJoin(es, starts);
      StartSendsOnlyWhenIdle(es + starts[..n], starts[n]);
    }
  }

  predicate WakesNewest(s: State, wakes: seq<Event>) {
    exists i :: 0 <= i < |wakes| && wakes[i].Wake? && wakes[i].task + 1 == s.generation
  }

  lemma WakesNewestAppend(s: State, wakes: seq<Event>, e: Event)
    requires e.Wake?
    ensures WakesNewest(s, wakes + [e]) <==> WakesNewest(s, wakes) || e.task + 1 == s.generation
  {
    var all := wakes + [e];
    assert all[|wakes|] == e && forall i :: 0 <= i < |wakes| ==> all[i] == wakes[i];
  }

  predicate NewestSleeps(s: State) {
    0 < s.generation == |s.tasks| && s.tasks[s.generation - 1].phase == Sleeping
  }

  /** Since s tasks have only woken up; the flag says whether the newest of s was among them. */
  predicate OnlyWoken(s: State, t: State, newest: bool)
    requires NewestSleeps(s)
  {
    var task := s.tasks[s.generation - 1];
    && t.generation == s.generation == |t.tasks| && t.pendingValues == s.pendingValues
    && t.tasks[s.generation - 1] == task.(phase := if newest then Awaiting else Sleeping)
    && t.submissions == if newest then s.submissions + [Submission(s.generation, task.power, task.values)]
                        else s.submissions
  }

  lemma WakeOne(s: State, t: State, newest: bool, i: nat)
    requires NewestSleeps(s) && s.tasks[s.generation - 1].generation == s.generation && Numbered(t)
    requires OnlyWoken(s, t, newest)
    ensures OnlyWoken(s, WakeStep(t, i), newest || i + 1 == s.generation)
  {
  }

  lemma LastWake(es: seq<Event>, wakes: seq<Event>)
    requires wakes != [] && AreWakes(wakes)
    ensures var n := |wakes| - 1;
            After(es + wakes) == WakeStep(After(es + wakes[..n]), wakes[n].task)
  {
    LastOfJoin(es, wakes);
    assert (es + wakes)[..|es + wakes| - 1] == es + wakes[..|wakes| - 1];
  }

  lemma RunIsNumbered(es: seq<Event>)
    requires ValidRun(es)
    ensures Numbered(After(es))
  {
    RunIsConsistent(es);
  }

  lemma WakesNewestByLast(s: State, wakes: seq<Event>)
    requires wakes != [] && AreWakes(wakes)
    ensures var n := |wakes| - 1;
            WakesNewest(s, wakes) <==> WakesNewest(s, wakes[..n]) || wakes[n].task + 1 == s.generation
  {
    var n := |wakes| - 1;
    assert wakes == wakes[..n] + [wakes[n]];
    WakesNewestAppend(s, wakes[..n], wakes[n]);
  }

  /** Waking tasks in any order, any number of times, sends the newest one once and no other. */
  lemma {:induction false} WakesSendOnce(es: seq<Event>, wakes: seq<Event>)
    requires ValidRun(es) && AreWakes(wakes) && NewestSleeps(After(es))
    ensures OnlyWoken(After(es), After(es + wakes), WakesNewest(After(es), wakes))
  {
    RunIsNumbered(es);
    if wakes == [] {
      assert es + wakes == es;
    } else {
      var n := |wakes| - 1;
      WakesSendOnce(es, wakes[..n]);
      ValidJoin(es, wakes[..n]);
      RunIsNumbered(es + wakes[..n]);
      WakesNewestByLast(After(es), wakes);
      WakeOne(After(es), After(es + wakes[..n]), WakesNewest(After(es), wakes[..n]), wakes[n].task);
      LastWake(es, wakes);
    }
  }

  /** The last task of a burst is the newest, sleeps and carries what is pending. */
  lemma NewestOfBurst(es: seq<Event>, starts: seq<Event>)
    requires ValidRun(es) && After(es).pending && starts != [] && AreStarts(starts)
    ensures var t := After(es + starts);
            && NewestSleeps(t) && t.tasks[t.generation - 1].power == starts[|starts| - 1].power
            && t.tasks[t.generation - 1].values == t.pendingValues
  {
    var n := |starts| - 1;
    BurstSleeps(es, starts[..n]);
    ValidJoin(es, starts[..n]);
    LastOfJoin(es, starts);
    StartSendsOnlyWhenIdle(es + starts[..n], starts[n]);
  }

  /** From s to t exactly one command went out: the newest intent of u, as it was pending there. */
  predicate OneMoreSent(s: State, u: State, t: State, power: Power) {
    t.submissions == s.submissions + [Submission(u.generation, power, u.pendingValues)]
  }

  lemma TrailingIntent(s: State, u: State, t: State, power: Power)
    requires u.submissions == s.submissions && NewestSleeps(u) && OnlyWoken(u, t, true)
    requires u.tasks[u.generation - 1].power == power && u.tasks[u.generation - 1].values == u.pendingValues
    ensures OneMoreSent(s, u, t, power)
  {
  }

  lemma WokenBurst(es: seq<Event>, wakes: seq<Event>)
    requires ValidRun(es) && AreWakes(wakes) && NewestSleeps(After(es)) && WakesNewest(After(es), wakes)
    ensures OnlyWoken(After(es), After(es + wakes), true)
  {
    WakesSendOnce(es, wakes);
  }

  /** A burst of starts while an intent is pending, followed by the tasks waking in any order, sends
      exactly one more command: the last of the burst, with the values all of them add up to. */
  lemma BurstHasOneTrailingIntent(es: seq<Event>, starts: seq<Event>, wakes: seq<Event>)
    requires ValidRun(es) && After(es).pending && starts != [] && AreStarts(starts) && AreWakes(wakes)
    requires WakesNewest(After(es + starts), wakes)
    ensures After(es + starts).generation == After(es).generation + |starts|
    ensures OneMoreSent(After(es), After(es + starts), After(es + starts + wakes), starts[|starts| - 1].power)
  {
    var burst := es + starts;
    BurstSleeps(es, starts);
    NewestOfBurst(es, starts);
    ValidJoin(es, starts);
    WokenBurst(burst, wakes);
    TrailingIntent(After(es), After(burst), After(burst + wakes), starts[|starts| - 1].power);
  }

  // ---------------------------------------------------------------------------
  // The newest intent reaches the Bridge
  // ---------------------------------------------------------------------------

  predicate CancelsAsleep(s: State, e: Event, generation: nat) {
    && e.Cancel? && e.task < |s.tasks|
    && s.tasks[e.task].phase == Sleeping && s.tasks[e.task].generation == generation
  }

  /** Somewhere in the run the task of this generation was cancelled during its sleep. */
  ghost predicate CancelledAsleep(es: seq<Event>, generation: nat) {
    exists i :: 0 <= i < |es| && CancelsAsleep(After(es[..i]), es[i], generation)
  }

  lemma CancelledAsleepBefore(es: seq<Event>, generation: nat)
    requires es != [] && CancelledAsleep(es[..|es| - 1], generation)
    ensures CancelledAsleep(es, generation)
  {
    var pre := es[..|es| - 1];
    var i :| 0 <= i < |pre| && CancelsAsleep(After(pre[..i]), pre[i], generation);
    assert pre[..i] == es[..i] && pre[i] == es[i];
  }

  lemma CancelledAsleepByLastEvent(es: seq<Event>, generation: nat)
    requires es != []
    ensures var pre := es[..|es| - 1];
            CancelledAsleep(es, generation) <==>
            CancelledAsleep(pre, generation) || CancelsAsleep(After(pre), es[|es| - 1], generation)
  {
    var pre := es[..|es| - 1];
    if CancelledAsleep(es, generation) {
      var i :| 0 <= i < |es| && CancelsAsleep(After(es[..i]), es[i], generation);
      if i < |pre| {
        assert pre[..i] == es[..i] && pre[i] == es[i];
      }
    }
    if CancelledAsleep(pre, generation) { CancelledAsleepBefore(es, generation); }
  }

  predicate Dropped(s: State, g: nat)
    requires 1 <= g <= |s.tasks|
  {
    s.tasks[g - 1].phase == Finished && !Submitted(s, g)
  }

  /** What one step may do to the task of generation g. */
  lemma TaskStep(s: State, e: Event, g: nat)
    requires Numbered(s) && 1 <= g <= s.generation
    ensures var t := Step(s, e);
            && Numbered(t) && g <= t.generation
            && (s.tasks[g - 1].phase == Finished ==> t.tasks[g - 1].phase == Finished)
            && (CancelsAsleep(s, e, g) ==> t.tasks[g - 1].phase == Finished && t.submissions == s.submissions)
            && (s.tasks[g - 1].phase == Sleeping && t.tasks[g - 1].phase == Finished && g == t.generation
                ==> CancelsAsleep(s, e, g))
  {
  }

  predicate AddsOwnTask(s: State, t: State, x: Submission, g: nat)
    requires 1 <= g <= |s.tasks| && g <= |t.tasks|
  {
    && t.submissions == s.submissions + [x]
    && (x.generation == g ==> s.tasks[g - 1].phase == Sleeping && t.tasks[g - 1].phase == Awaiting)
  }

  /** A step submits nothing, or wakes the task it submits. */
  lemma SubmissionStep(s: State, e: Event, g: nat)
    requires Numbered(s) && 1 <= g <= s.generation && g <= |Step(s, e).tasks|
    ensures Step(s, e).submissions == s.submissions
            || exists x :: AddsOwnTask(s, Step(s, e), x, g)
  {
    var t := Step(s, e);
    if t.submissions != s.submissions {
      var x := t.submissions[|s.submissions|];
      assert AddsOwnTask(s, t, x, g);
    }
  }

  lemma StepDrops(s: State, e: Event, g: nat)
    requires Numbered(s) && PhasesMatchSubmissions(s) && 1 <= g <= s.generation
    ensures Numbered(Step(s, e)) && g <= Step(s, e).generation
    ensures CancelsAsleep(s, e, g) || Dropped(s, g) ==> Dropped(Step(s, e), g)
    ensures g == Step(s, e).generation && Dropped(Step(s, e), g) ==> CancelsAsleep(s, e, g) || Dropped(s, g)
  {
    TaskStep(s, e, g);
    SubmissionStep(s, e, g);
    var t := Step(s, e);
    assert s.tasks[g - 1].phase == Sleeping ==> !Submitted(s, g - 1 + 1);
    assert s.tasks[g - 1].phase == Awaiting ==> Submitted(s, g - 1 + 1);
    if t.submissions == s.submissions {
      SubmittedSame(s, t);
    } else {
      var x :| AddsOwnTask(s, t, x, g);
      SubmittedGrows(s, t, x);
    }
  }

  lemma {:induction false} FateOfTask(es: seq<Event>, g: nat)
    requires ValidRun(es) && 1 <= g <= After(es).generation
    ensures Consistent(After(es))
    ensures CancelledAsleep(es, g) ==> Dropped(After(es), g)
    ensures g == After(es).generation && Dropped(After(es), g) ==> CancelledAsleep(es, g)
  {
    var pre, e := es[..|es| - 1], es[|es| - 1];
    RunIsConsistent(es);
    RunIsConsistent(pre);
    CancelledAsleepByLastEvent(es, g);
    if g <= After(pre).generation {
      FateOfTask(pre, g);
      StepDrops(After(pre), e, g);
    } else {
      NoCancelBeforeStart(pre, g);
      StartIsNotDropped(After(pre), e);
    }
  }

  lemma StartIsNotDropped(s: State, e: Event)
    requires Consistent(s) && ValidEvent(e) && Step(s, e).generation > s.generation
    ensures e.Start? && Step(s, e).generation == s.generation + 1 == |Step(s, e).tasks|
    ensures !Dropped(Step(s, e), s.generation + 1)
  {}

  lemma {:induction false} NoCancelBeforeStart(es: seq<Event>, g: nat)
    requires ValidRun(es) && After(es).generation < g
    ensures !CancelledAsleep(es, g)
  {
    if es != [] {
      RunIsConsistent(es[..|es| - 1]);
      NoCancelBeforeStart(es[..|es| - 1], g);
      CancelledAsleepByLastEvent(es, g);
    }
  }

  /** Once all tasks are done, the newest intent was sent, unless it was cancelled asleep. */
  lemma NewestIntentIsSubmitted(es: seq<Event>)
    requires ValidRun(es) && After(es).generation > 0
    requires forall i :: 0 <= i < |After(es).tasks| ==> After(es).tasks[i].phase == Finished
    ensures Submitted(After(es), After(es).generation) <==> !CancelledAsleep(es, After(es).generation)
  {
    RunIsConsistent(es);
    FateOfTask(es, After(es).generation);
  }

  // ---------------------------------------------------------------------------
  // The payload is the last-writer-wins fold
  // ---------------------------------------------------------------------------

  /** The values of the accepted starts, oldest first. */
  function Accepted(es: seq<Event>): seq<Values> {
    if es == [] then []
    else
      var rest := Accepted(es[..|es| - 1]);
      var e := es[|es| - 1];
      if e.Start? && e.accepted then rest + [e.requested] else rest
  }

  /** Hue, saturation and colour temperature are written together; the level on its own. */
  predicate Writes(v: Values, a: Attribute) {
    if a == Level then Level in v else Hue in v || ColorTemperature in v
  }

  predicate LastWriter(intents: seq<Values>, a: Attribute, k: int) {
    && 0 <= k < |intents| && Writes(intents[k], a)
    && forall j :: k < j < |intents| ==> !Writes(intents[j], a)
  }

  ghost predicate FoldsTo(intents: seq<Values>, v: Values, a: Attribute) {
    && (a in v ==> exists k :: LastWriter(intents, a, k) && a in intents[k] && intents[k][a] == v[a])
    && (forall k :: LastWriter(intents, a, k) && a in intents[k] ==> a in v && v[a] == intents[k][a])
  }

  /** v holds, for every attribute, what the last intent writing it asked for, and nothing else. */
  ghost predicate IsLastWriterFold(intents: seq<Values>, v: Values) {
    forall a: Attribute :: FoldsTo(intents, v, a)
  }

  lemma SupersedeFoldsTo(intents: seq<Values>, v: Values, next: Values, a: Attribute)
    requires FoldsTo(intents, v, a) && WellPaired(v) && WellPaired(next)
    ensures FoldsTo(intents + [next], Supersede(v, next), a)
  {
    var all, w := intents + [next], Supersede(v, next);
    var n := |intents|;
    assert all[n] == next;
    if Writes(next, a) {
      assert forall k :: LastWriter(all, a, k) ==> k == n;
      assert LastWriter(all, a, n);
      assert a in w <==> a in next;
    } else {
      assert a in w <==> a in v;
      forall k: int
        ensures LastWriter(all, a, k) <==> LastWriter(intents, a, k)
        ensures LastWriter(intents, a, k) ==> all[k] == intents[k]
      {
        if LastWriter(intents, a, k) {
          assert forall j :: k < j < |all| ==> j == n || all[j] == intents[j];
        }
        if LastWriter(all, a, k) {
          assert forall j :: k < j < n ==> all[j] == intents[j];
        }
      }
    }
  }

  lemma SupersedeExtendsFold(intents: seq<Values>, v: Values, next: Values)
    requires IsLastWriterFold(intents, v) && WellPaired(v) && WellPaired(next)
    ensures IsLastWriterFold(intents + [next], Supersede(v, next))
  {
    forall a: Attribute ensures FoldsTo(intents + [next], Supersede(v, next), a) {
      SupersedeFoldsTo(intents, v, next, a);
    }
  }

  /** The entity is idle before event i, or event i is an accepted "off". */
  ghost predicate Boundary(es: seq<Event>, i: nat) {
    && i <= |es|
    && (!After(es[..i]).pending || (i < |es| && es[i].Start? && es[i].accepted && es[i].power == Off))
  }

  ghost predicate LastBoundary(es: seq<Event>, i: nat) {
    Boundary(es, i) && forall j :: i < j <= |es| ==> !Boundary(es, j)
  }

  lemma BoundaryOfPrefix(es: seq<Event>, i: nat)
    requires es != [] && LastBoundary(es, i) && i < |es|
    requires var e := es[|es| - 1]; e.Start? && e.accepted ==> After(es[..|es| - 1]).pending && e.power == On
    requires After(es[..|es| - 1]).pending
    ensures i < |es| - 1 && LastBoundary(es[..|es| - 1], i)
  {
    var pre := es[..|es| - 1];
    assert forall j :: 0 <= j <= |pre| ==> pre[..j] == es[..j];
    assert pre[..|pre|] == pre;
    assert !Boundary(es, |pre|);
    assert forall j :: 0 <= j < |pre| ==> (Boundary(es, j) <==> Boundary(pre, j));
  }

  lemma AcceptedOfSuffix(es: seq<Event>, i: nat)
    requires i < |es|
    ensures var e := es[|es| - 1];
            Accepted(es[i..]) == Accepted(es[..|es| - 1][i..]) + (if e.Start? && e.accepted then [e.requested] else [])
  {
    assert es[i..][..|es[i..]| - 1] == es[..|es| - 1][i..];
  }

  lemma EmptyFold()
    ensures IsLastWriterFold([], map[])
  {
    forall a: Attribute ensures FoldsTo([], map[], a) {}
  }

  lemma {:induction false} PendingIsLastWriterFold(es: seq<Event>, i: nat)
    requires ValidRun(es) && LastBoundary(es, i)
    ensures IsLastWriterFold(Accepted(es[i..]), After(es).pendingValues)
  {
    assert es[..|es|] == es;
    if !After(es).pending {
      EmptyFold();
      RunIsConsistent(es);
      assert Boundary(es, |es|);
      assert es[i..] == [];
    } else {
      var pre, e := es[..|es| - 1], es[|es| - 1];
      AcceptedOfSuffix(es, i);
      if e.Start? && e.accepted && (!After(pre).pending || e.power == Off) {
        assert Boundary(es, |pre|);
        assert pre[i..] == [];
        FirstIntentFolds(After(pre), e);
      } else {
        RunIsConsistent(pre);
        StepWithoutBoundary(After(pre), e);
        BoundaryOfPrefix(es, i);
        PendingIsLastWriterFold(pre, i);
        if e.Start? && e.accepted {
          SupersedeExtendsFold(Accepted(pre[i..]), After(pre).pendingValues, e.requested);
        } else {
          assert Accepted(es[i..]) == Accepted(pre[i..]);
        }
      }
    }
  }

  lemma FirstIntentFolds(s: State, e: Event)
    requires ValidEvent(e) && e.Start? && e.accepted && (!s.pending || e.power == Off)
    ensures IsLastWriterFold([] + [e.requested], Step(s, e).pendingValues)
  {
    EmptyFold();
    SupersedeExtendsFold([], map[], e.requested);
  }

  lemma StepWithoutBoundary(s: State, e: Event)
    requires Consistent(s) && ValidEvent(e) && Step(s, e).pending
    requires !(e.Start? && e.accepted && (!s.pending || e.power == Off))
    ensures s.pending && WellPaired(s.pendingValues)
    ensures Step(s, e).pendingValues ==
            if e.Start? && e.accepted then Supersede(s.pendingValues, e.requested) else s.pendingValues
  {}

  /** Whatever is sent is the fold of all intents since the light was last idle or told "off". */
  lemma SubmittedPayloadIsLastWriterFold(es: seq<Event>, i: nat)
    requires ValidRun(es) && es != [] && LastBoundary(es, i)
    requires |After(es).submissions| > |After(es[..|es| - 1]).submissions|
    ensures var s := After(es);
            var sent := s.submissions[|s.submissions| - 1];
            && sent.generation == s.generation
            && IsLastWriterFold(Accepted(es[i..]), sent.values)
  {
    var pre, e := es[..|es| - 1], es[|es| - 1];
    assert pre + [e] == es;
    SubmittedOnlyThen(pre, e);
    PendingIsLastWriterFold(es, i);
  }

  /** The fold is unique, so the two statements above pin the payload down. */
  lemma FoldIsUnique(intents: seq<Values>, v: Values, w: Values)
    requires IsLastWriterFold(intents, v) && IsLastWriterFold(intents, w)
    ensures v == w
  {
    forall a: Attribute ensures a in v <==> a in w ensures a in v ==> v[a] == w[a] {
      assert FoldsTo(intents, v, a) && FoldsTo(intents, w, a);
    }
  }
}
