/**
 * Callbacks, exactly: a turn that obeys one keeps the promise of attribution for everything that may follow
 * if and only if it is harmless. Where it is not, the steps below go on to break the promise.
 */
module ServiceCallbacks {
  import opened Common
  import opened SnapshotAssembly
  import opened WatchLists
  import opened WatchSessions
  import opened Receivers
  import opened Evaluators
  import opened EvaluatedReceivers
  import opened EvaluatorRuns
  import opened AttributionRuns
  import opened OwnedServices
  import opened ServiceRuns
  import opened ServiceAttribution
  import opened AccountSessions
  import Moves = AccountRuns

  // ----- From a bound receiver to an unlock -----

  const QUIET := NativeReply({}, [], true, true)
  const UNLOCKING := NativeReply({}, [Event(TRIGGERED, 7, 0)], true, true)

  /** A list that fits one chunk, and a frame for it that fits one part. */
  predicate Small(w: Watch, values: Bytes) {
    WellLaidOut(w) && w.Chunks() == 1 && values != [] && |values| in w.SnapshotSizes()
  }

  /** The receiver that `who` is bound to has just been revoked: what is left of it, and what its console will do. */
  datatype Scene = Scene(limits: Limits, who: Account, token: nat, generation: nat, traffic: Traffic, w: Watch, values: Bytes)
  {
    /** The console asks for the game and for its one chunk within a second. */
    predicate Valid() { limits.Valid() && limits.rate >= 2 && Small(w, values) }

    function At(): real { traffic.window + 1.0 }

    function Context(): SetContext { SetContext(who, GAME.imageHash, 1, 21) }

    function Completed(): QualifiedSet { QualifiedSet(Context(), {7}, "", 1, Some(w), true) }

    function OnlyPart(): Part
      requires values != []
    {
      SnapshotPart(GAME.serial, 0, w.count, 0, 1, values)
    }

    function Asks(): Step { OwnerReceive(At(), At(), Some(CONSOLE), Control(Some(Identify(CONSOLE, GAME))), QUIET) }

    function Completes(): Action { FinishSet(At(), At(), At(), Job(token + 1, GAME), Completed()) }

    function Fetches(): Step {
      OwnerReceive(At(), At(), Some(CONSOLE), Control(Some(Fetch(CONSOLE, GAME.imageHash, 0))), QUIET)
    }

    function Sends(): Step
      requires values != []
    {
      OwnerReceive(At(), At(), Some(CONSOLE), Telemetry(Some(OnlyPart())), UNLOCKING)
    }

    /** The receiver before its first datagram, after its game was asked for, with its set, and with its list sent. */
    function Bare(): Sane {
      Adapter(ReceiverState(token, None, None, None, None, 0.0, None, None, false, "", 0, {}, {},
                            Watching(generation, "", "", None, EMPTY), traffic),
              None, Some(who), None, 0)
    }

    function Asking(): Sane {
      Bare().(receiver := Asked(Bare().receiver.(traffic := Traffic(At(), 1, 1), owner := Some(1), lastActivity := Some(At()),
                                                 destination := Some(CONSOLE)), GAME, At()))
    }

    function Playing(): Sane
      requires WellLaidOut(w)
    {
      Adapter(Asking().receiver.(pending := None, queued := None, identified := Some(GAME), achievements := 1,
                                 watching := Watching(generation + 2, GAME.imageHash, GAME.serial, Some(w), EMPTY)),
              Some(NewEvaluator(w, {7}, generation + 2)), Some(who), Some(Context()), 1)
    }

    function Transferring(): Sane
      requires WellLaidOut(w)
    {
      Playing().(receiver := Playing().receiver.(sent := {0}, traffic := Traffic(At(), 2, 2)))
    }

    /** What the frame gives: the achievement is unlocked, for the bound account. */
    function Unlock(): EvaluatedOutput {
      EvaluatedOutput(Output(Silence, Some(CONSOLE), Some(Frame(values, generation + 2, 0))),
                      Some(Evaluation(true, [Event(TRIGGERED, 7, 0)], false, {})), Some(Context()))
    }
  }

  function HandledBy(l: Limits, a: Sane, x: Step): (Sane, EvaluatedOutput)
    requires x.OwnerReceive?
  {
    Handled(l, a, x.at, x.fedAt, x.peer, x.packet, x.native)
  }

  lemma GameAsked(c: Scene)
    requires c.Valid()
    ensures HandledBy(c.limits, c.Bare(), c.Asks())
      == (c.Asking(), EvaluatedOutput(Output(Wait, Some(CONSOLE), None), None, None))
  {
    hide WellLaidOut;
  }

  lemma SetCompleted(c: Scene)
    requires c.Valid()
    ensures Act(c.limits, c.Asking(), c.Completes()) == c.Playing()
  {
    hide WellLaidOut;
    assert ValidSerial(GAME.serial);
    assert Ticked(c.limits, c.Asking(), c.At()) == c.Asking();
  }

  lemma ListFetched(c: Scene)
    requires c.Valid()
    ensures var (a, output) := HandledBy(c.limits, c.Playing(), c.Fetches());
      a == c.Transferring() && output.evaluation.None? && output.wire.frame.None?
  {
    hide WellLaidOut;
  }

  lemma OnePartIsFrame(c: Scene)
    requires c.Valid()
    ensures var (a, out) := FeedPart(TermsOf(GAME.serial, c.w, c.limits.lease), EMPTY, c.OnlyPart(), c.At());
      out == Some(c.values) && a.sequence == Some(0)
  {
    hide WellLaidOut;
    var held: map<nat, Bytes> := map[0 := c.values];
    OneHeld(c.values);
    assert InOrder(held, 1) == [c.values];
    assert Join([c.values]) == c.values;
    assert map[][0 := c.values] == held;
  }

  lemma OneHeld(values: Bytes)
    ensures SnapshotAssembly.Held(map[0 := values]) == |values|
  {
    OnlyFirstHeld(values, MAX_PARTS);
  }

  lemma {:induction false} OnlyFirstHeld(values: Bytes, n: nat)
    requires n >= 1
    ensures HeldBelow(map[0 := values], n) == |values|
  {
    if n > 1 { OnlyFirstHeld(values, n - 1); }
  }

  lemma EvaluationUnlocks(c: Scene)
    requires c.Valid()
    ensures Evaluated(NewEvaluator(c.w, {7}, c.generation + 2), CallFor(Frame(c.values, c.generation + 2, 0), UNLOCKING)).1
      == Evaluation(true, [Event(TRIGGERED, 7, 0)], false, {})
  {
    hide WellLaidOut, Segments;
    var e := NewEvaluator(c.w, {7}, c.generation + 2);
    var call := CallFor(Frame(c.values, c.generation + 2, 0), UNLOCKING);
    assert Novel({}, call.events) == call.events by {
      assert call.events[..0] == [];
      assert !Repeated({}, call.events[0]);
    }
    assert Missing(e, call) == {};
  }

  lemma FrameComesOut(c: Scene)
    requires c.Valid()
    ensures var x := c.Sends();
      var (r, wire) := Received(c.limits, c.Transferring().receiver, x.at, x.fedAt, x.peer, x.packet);
      wire == c.Unlock().wire && r.watching.generation == c.generation + 2 && r.watching.watch == Some(c.w)
  {
    hide WellLaidOut, FeedPart;
    OnePartIsFrame(c);
  }

  lemma FrameUnlocks(c: Scene)
    requires c.Valid()
    ensures var (a, output) := HandledBy(c.limits, c.Transferring(), c.Sends());
      output == c.Unlock() && a.receiver.watching.generation == c.generation + 2 && a.account == Some(c.who)
  {
    hide WellLaidOut, Received, Evaluated;
    FrameComesOut(c);
    EvaluationUnlocks(c);
  }

  /** There are such lists: the one that watches a single byte. */
  lemma OneByteListIsSmall() returns (w: Watch)
    ensures Small(w, [0]) && Validated(w.data) == Some(w)
  {
    hide AllWords, Validated, LittleEndian, Word, WellLaidOut;
    DirectListValidates(ONE_BYTE);
    w := Validated(AllWords(DirectList(ONE_BYTE))).value;
    ValidatedIsWellLaidOut(w.data);
  }

  // ----- The turns of the owner -----

  /** The service with nothing queued and no reset pending. */
  function Waiting(s: Service, a: Sane, stage: Stage): Service {
    s.(reset := false, frames := [], unlocks := [], latest := None, frameGeneration := None, adapter := a, stage := stage)
  }

  lemma NothingToDiscard(s: Service, a: Sane, stage: Stage)
    requires s.commands == []
    ensures Checked(Waiting(s, a, stage)) == Waiting(s, a, stage)
    ensures stage == AtTop ==> ToppedUp(Waiting(s, a, stage)) == Waiting(s, a, Working)
  {
  }

  lemma StepReceives(s: Service, n: nat, x: Step, a: Sane, b: Sane, output: EvaluatedOutput)
    requires x.OwnerReceive? && HandledBy(s.limits, a, x) == (b, output) && output.evaluation != Some(Result.Raised)
    ensures Stepped(Waiting(s, a, Listening), n, x).0 == Waiting(s, b, Holding(Item(n, output)))
  {
    hide Handled, Stopped;
  }

  /** The other steps of a turn. */
  lemma StepsOfTurn(s: Service, n: nat, a: Sane, item: Item)
    requires s.commands == []
    ensures Stepped(Waiting(s, a, Working), n, OwnerCheck).0 == Waiting(s, a, Listening)
    ensures Stepped(Waiting(s, a, Holding(item)), n, OwnerVerify).0 == Waiting(s, a, Sending(item))
    ensures Stepped(Waiting(s, a, AtTop), n, OwnerTop).0 == Waiting(s, a, Working)
  {
    hide Checked, ToppedUp;
    NothingToDiscard(s, a, Working);
    NothingToDiscard(s, a, Holding(item));
    NothingToDiscard(s, a, AtTop);
  }

  lemma NothingToQueue(s: Service, n: nat, a: Sane, item: Item)
    requires item.output.wire.frame.None?
    ensures Stepped(Waiting(s, a, Sending(item)), n, OwnerEnqueue).0 == Waiting(s, a, AtTop)
  {
  }

  /** From one piece of work to the next: a datagram without a frame changes the receiver only. */
  lemma TurnPasses(run: Run, n: nat, s: Service, a: Sane, b: Sane, output: EvaluatedOutput)
    requires n + 5 <= |run.steps| && run.State(n) == Waiting(s, a, Working) && s.commands == []
    requires run.steps[n] == OwnerCheck && run.steps[n + 1].OwnerReceive? && run.steps[n + 2] == OwnerVerify
    requires run.steps[n + 3] == OwnerEnqueue && run.steps[n + 4] == OwnerTop
    requires HandledBy(s.limits, a, run.steps[n + 1]) == (b, output)
    requires output.evaluation.None? && output.wire.frame.None?
    ensures run.State(n + 5) == Waiting(s, b, Working)
  {
    hide HandledBy, Stepped, Waiting;
    var item := Item(n + 1, output);
    StepsOfTurn(s, n, a, item);
    StepReceives(s, n + 1, run.steps[n + 1], a, b, output);
    StepsOfTurn(s, n + 2, b, item);
    NothingToQueue(s, n + 3, b, item);
    StepsOfTurn(s, n + 4, b, item);
    assert run.State(n + 1) == Waiting(s, a, Listening);
    assert run.State(n + 2) == Waiting(s, b, Holding(item));
    assert run.State(n + 3) == Waiting(s, b, Sending(item));
    assert run.State(n + 4) == Waiting(s, b, AtTop);
  }

  /** A reset leaves a bare receiver. */
  lemma ReleasedIsBare(c: Scene, a: Sane)
    requires Accounted(a) && a.account == Some(c.who) && c.token == a.receiver.token + 1
    requires c.generation == a.receiver.watching.generation + 1 && c.traffic == a.receiver.traffic
    ensures Released(a) == c.Bare()
  {
  }

  lemma ResetSteps(s: Service, n: nat)
    requires s.stage == Working && s.commands == []
    ensures var b := Stepped(Stepped(Stepped(s, n, CallerReset).0, n + 1, OwnerCheck).0, n + 2, OwnerIdle).0;
      b == ResetBy(s).(stage := AtTop) && Stepped(b, n + 3, OwnerTop).0 == Waiting(s, Released(s.adapter), Working)
  {
    hide Released;
  }

  // ----- From any settled turn to an unlock -----

  /** The service between turns, its receiver bound to the scene's account, as a reset would leave it. */
  predicate Sets(c: Scene, s: Service) {
    && s.stage == Working && s.commands == [] && s.capacity >= 1 && s.limits == c.limits
    && Accounted(s.adapter) && s.adapter.account == Some(c.who)
    && c.token == s.adapter.receiver.token + 1 && c.traffic == s.adapter.receiver.traffic
    && c.generation == s.adapter.receiver.watching.generation + 1
  }

  /** A reset, the request for the game, its set, the list, and one frame. */
  function Playthrough(c: Scene): (r: seq<Step>)
    requires c.values != []
    ensures |r| == 19
  {
    [CallerReset, OwnerCheck, OwnerIdle, OwnerTop,
     OwnerCheck, c.Asks(), OwnerVerify, OwnerEnqueue, OwnerTop, OwnerWork(c.Completes()),
     OwnerCheck, c.Fetches(), OwnerVerify, OwnerEnqueue, OwnerTop,
     OwnerCheck, c.Sends(), OwnerVerify, OwnerEnqueue]
  }

  predicate Plays(run: Run, n: nat, c: Scene)
    requires c.values != []
  {
    n + 19 <= |run.steps| && forall i | 0 <= i < 19 :: run.steps[n + i] == Playthrough(c)[i]
  }

  lemma FirstSteps(run: Run, n: nat, c: Scene)
    requires c.values != [] && Plays(run, n, c)
    ensures run.steps[n] == CallerReset && run.steps[n + 1] == OwnerCheck && run.steps[n + 2] == OwnerIdle
    ensures run.steps[n + 3] == OwnerTop && run.steps[n + 4] == OwnerCheck && run.steps[n + 5] == c.Asks()
    ensures run.steps[n + 6] == OwnerVerify && run.steps[n + 7] == OwnerEnqueue && run.steps[n + 8] == OwnerTop
    ensures run.steps[n + 9] == OwnerWork(c.Completes())
  {
    hide Scene.Asks, Scene.Completes, Scene.Fetches, Scene.Sends;
    var p := Playthrough(c);
    assert p[0] == CallerReset && p[1] == OwnerCheck && p[2] == OwnerIdle && p[3] == OwnerTop && p[4] == OwnerCheck;
    assert p[5] == c.Asks() && p[6] == OwnerVerify && p[7] == OwnerEnqueue && p[8] == OwnerTop;
    assert p[9] == OwnerWork(c.Completes());
  }

  lemma LastSteps(run: Run, n: nat, c: Scene)
    requires c.values != [] && Plays(run, n, c)
    ensures run.steps[n + 10] == OwnerCheck && run.steps[n + 11] == c.Fetches() && run.steps[n + 12] == OwnerVerify
    ensures run.steps[n + 13] == OwnerEnqueue && run.steps[n + 14] == OwnerTop && run.steps[n + 15] == OwnerCheck
    ensures run.steps[n + 16] == c.Sends() && run.steps[n + 17] == OwnerVerify && run.steps[n + 18] == OwnerEnqueue
  {
    hide Scene.Asks, Scene.Completes, Scene.Fetches, Scene.Sends;
    var p := Playthrough(c);
    assert p[10] == OwnerCheck && p[11] == c.Fetches() && p[12] == OwnerVerify && p[13] == OwnerEnqueue;
    assert p[14] == OwnerTop && p[15] == OwnerCheck && p[16] == c.Sends() && p[17] == OwnerVerify && p[18] == OwnerEnqueue;
  }

  lemma SetIsInstalled(run: Run, n: nat, c: Scene)
    requires c.Valid() && n + 19 <= |run.steps| && Plays(run, n, c) && Sets(c, run.State(n))
    ensures run.State(n + 10) == Waiting(run.State(n), c.Playing(), Working)
  {
    hide Run.State, Stepped, HandledBy, Waiting, Act, Scene.Bare, Scene.Asking, Scene.Playing, Plays, Playthrough, WellLaidOut;
    var s := run.State(n);
    FirstSteps(run, n, c);
    ResetRuns(run, n, s);
    ReleasedIsBare(c, s.adapter);
    GameAsked(c);
    TurnPasses(run, n + 4, s, c.Bare(), c.Asking(), EvaluatedOutput(Output(Wait, Some(CONSOLE), None), None, None));
    SetCompleted(c);
    WorkRuns(run, n + 9, s, c.Asking(), c.Completes());
  }

  lemma ResetRuns(run: Run, n: nat, s: Service)
    requires n + 4 <= |run.steps| && run.State(n) == s && s.stage == Working && s.commands == []
    requires run.steps[n] == CallerReset && run.steps[n + 1] == OwnerCheck && run.steps[n + 2] == OwnerIdle
    requires run.steps[n + 3] == OwnerTop
    ensures run.State(n + 4) == Waiting(s, Released(s.adapter), Working)
  {
    hide Stepped, Released, Waiting, ResetBy;
    ResetSteps(s, n);
    assert run.State(n + 1) == Stepped(s, n, CallerReset).0;
    assert run.State(n + 2) == Stepped(run.State(n + 1), n + 1, OwnerCheck).0;
    assert run.State(n + 3) == Stepped(run.State(n + 2), n + 2, OwnerIdle).0;
  }

  lemma WorkRuns(run: Run, n: nat, s: Service, a: Sane, x: Action)
    requires n < |run.steps| && run.State(n) == Waiting(s, a, Working) && run.steps[n] == OwnerWork(x) && IsWork(x)
    ensures run.State(n + 1) == Waiting(s, Act(s.limits, a, x), Working)
  {
    hide Act;
  }

  lemma FrameIsQueued(run: Run, n: nat, c: Scene) returns (a: Sane)
    requires c.Valid() && n + 19 <= |run.steps| && Plays(run, n, c) && Sets(c, run.State(n))
    ensures var item := Item(n + 16, c.Unlock());
      run.State(n + 19) == Waiting(run.State(n), a, AtTop)
                           .(frames := [item], unlocks := [item], frameGeneration := Some(c.generation + 2))
  {
    hide Run.State, Stepped, HandledBy, Waiting, Act, Scene.Bare, Scene.Asking, Scene.Playing, Scene.Transferring, Scene.Unlock,
         Plays, Playthrough, WellLaidOut;
    var s := run.State(n);
    SetIsInstalled(run, n, c);
    LastSteps(run, n, c);
    ListFetched(c);
    var fetched := HandledBy(c.limits, c.Playing(), c.Fetches());
    TurnPasses(run, n + 10, s, c.Playing(), c.Transferring(), fetched.1);
    FrameUnlocks(c);
    a := HandledBy(c.limits, c.Transferring(), c.Sends()).0;
    UnlockRuns(run, n + 15, s, c, c.Transferring(), a);
  }

  lemma UnlockRuns(run: Run, n: nat, s: Service, c: Scene, a: Sane, b: Sane)
    requires n + 4 <= |run.steps| && run.State(n) == Waiting(s, a, Working) && s.commands == [] && s.capacity >= 1
    requires c.values != [] && run.steps[n] == OwnerCheck && run.steps[n + 1] == c.Sends() && run.steps[n + 2] == OwnerVerify
    requires run.steps[n + 3] == OwnerEnqueue && HandledBy(s.limits, a, c.Sends()) == (b, c.Unlock())
    ensures var item := Item(n + 1, c.Unlock());
      run.State(n + 4) == Waiting(s, b, AtTop).(frames := [item], unlocks := [item], frameGeneration := Some(c.generation + 2))
  {
    hide HandledBy, Stepped, Waiting;
    var item := Item(n + 1, c.Unlock());
    StepsOfTurn(s, n, a, item);
    StepReceives(s, n + 1, run.steps[n + 1], a, b, c.Unlock());
    StepsOfTurn(s, n + 2, b, item);
    UnlockEnqueued(s, n + 3, b, c, item);
    assert run.State(n + 1) == Waiting(s, a, Listening);
    assert run.State(n + 2) == Waiting(s, b, Holding(item));
    assert run.State(n + 3) == Waiting(s, b, Sending(item));
  }

  lemma UnlockEnqueued(s: Service, n: nat, b: Sane, c: Scene, item: Item)
    requires s.capacity >= 1 && item.output == c.Unlock()
    ensures Stepped(Waiting(s, b, Sending(item)), n, OwnerEnqueue).0
      == Waiting(s, b, AtTop).(frames := [item], unlocks := [item], frameGeneration := Some(c.generation + 2))
  {
    assert Event(TRIGGERED, 7, 0) in c.Unlock().evaluation.value.events;
    assert 7 in TriggeredIn(c.Unlock().evaluation.value.events);
  }

  // ----- Who was asked for last -----

  predicate NeverStartsOrAsks(run: Run, m: nat, n: nat)
    requires m <= n <= |run.steps|
  {
    forall k: nat | m <= k < n ::
      !run.steps[k].OwnerStart? && !run.steps[k].CallerBind? && !run.steps[k].CallerClear?
  }

  lemma HaltedStays(s: Service, n: nat, x: Step)
    requires s.stage == Halted && !x.OwnerStart?
    ensures Stepped(s, n, x).0.stage == Halted
  {
    hide Commanded, Handled, Act, Stopped;
  }

  lemma {:induction false} CallerAccountStays(run: Run, m: nat, n: nat)
    requires m <= n <= |run.steps| && NeverStartsOrAsks(run, m, n) && run.State(n).stage != Halted
    ensures CallerAccount(run, n) == CallerAccount(run, m)
    decreases n - m
  {
    hide Stepped;
    if m < n {
      var s := run.State(n - 1);
      if s.stage == Halted { HaltedStays(s, n - 1, run.steps[n - 1]); }
      CallerAccountStays(run, m, n - 1);
    }
  }

  // ----- Running on -----

  function Extended(run: Run, more: seq<Step>): Run { run.(steps := run.steps + more) }

  lemma {:induction false} SameSoFar(run: Run, more: seq<Step>, n: nat)
    requires n <= |run.steps|
    ensures Extended(run, more).State(n) == run.State(n)
    ensures CallerAccount(Extended(run, more), n) == CallerAccount(run, n)
  {
    hide Stepped, Wished;
    if n > 0 {
      SameSoFar(run, more, n - 1);
      assert Extended(run, more).steps[n - 1] == run.steps[n - 1];
      assert Extended(run, more).State(n) == run.State(n);
    }
  }

  /** In this run, whatever a caller takes names the account the callers asked for last. */
  ghost predicate KeepsPromise(run: Run) {
    forall n: nat | n < |run.steps| && run.Taken(n).Some? :: Names(run.Taken(n).value, CallerAccount(run, n))
  }

  /** No further callback is handed over. */
  predicate NoCallbacks(steps: seq<Step>) { forall i | 0 <= i < |steps| :: !steps[i].CallerCallback? }

  // ----- A harmful turn can be used to break the promise -----

  function SceneOf(s: Service, who: Account, w: Watch, values: Bytes): Scene {
    Scene(s.limits, who, s.adapter.receiver.token + 1, s.adapter.receiver.watching.generation + 1, s.adapter.receiver.traffic,
          w, values)
  }

  /** The unlock can be taken, with or without binding the account that is shown first. */
  lemma UnlockIsTaken(s: Service, n: nat, item: Item)
    requires !s.reset && s.unlocks == [item]
    ensures Stepped(s, n, CallerTakeEvaluation).1 == Some(item)
    ensures AccountOf(s).Some? ==>
      var t := Stepped(s, n, CallerBind(AccountOf(s).value)).0;
      t.stage == s.stage && Stepped(t, n + 1, CallerTakeEvaluation).1 == Some(item)
  {
  }

  /** The steps that break the promise: play, bind the account that is shown if need be, and take. */
  function BreakingSteps(run: Run, w: Watch, values: Bytes): seq<Step>
    requires values != [] && run.State(|run.steps|).adapter.account.Some?
  {
    var s := run.State(|run.steps|);
    var shown := AccountOf(s);
    Playthrough(SceneOf(s, s.adapter.account.value, w, values))
    + (if !Only(s.adapter.account, CallerAccount(run, |run.steps|)) || shown.None? then [] else [CallerBind(shown.value)])
    + [CallerTakeEvaluation]
  }

  lemma HarmfulTurnBreaks(run: Run, w: Watch, values: Bytes) returns (m: nat)
    requires run.limits.Valid() && run.limits.rate >= 2 && Small(w, values)
    requires var s := run.State(|run.steps|);
      && s.stage == Working && s.commands == [] && s.capacity >= 1 && s.limits == run.limits
      && Accounted(s.adapter) && s.adapter.account.Some? && !Harmless(s, CallerAccount(run, |run.steps|))
    ensures var longer := Extended(run, BreakingSteps(run, w, values));
      && m < |longer.steps| && longer.Taken(m).Some? && !Names(longer.Taken(m).value, CallerAccount(longer, m))
    ensures NoCallbacks(BreakingSteps(run, w, values))
  {
    hide Stepped, Run.State, Playthrough, Plays, WellLaidOut, Accounted, Waiting;
    var n := |run.steps|;
    var s := run.State(n);
    var steps := BreakingSteps(run, w, values);
    var longer := Extended(run, steps);
    var c := SceneOf(s, s.adapter.account.value, w, values);
    SameSoFar(run, steps, n);
    PlaysOn(run, steps, c);
    var a := FrameIsQueued(longer, n, c);
    var item, t := Item(n + 16, c.Unlock()), longer.State(n + 19);
    WaitingShows(s, a, item, c);
    CallerAccountStays(longer, n, n + 19);
    UnlockIsTaken(t, n + 19, item);
    assert item.output.context.value.account == c.who;
    StepOfRun(longer, n + 19);
    if |steps| == 20 {
      m := n + 19;
    } else {
      m := n + 20;
      StepOfRun(longer, n + 20);
      AskedLast(longer, n + 19, AccountOf(s).value);
    }
  }

  lemma StepOfRun(run: Run, n: nat)
    requires n < |run.steps|
    ensures run.State(n + 1) == Stepped(run.State(n), n, run.steps[n]).0
    ensures run.Taken(n) == Stepped(run.State(n), n, run.steps[n]).1
  {
    hide Stepped;
  }

  lemma AskedLast(run: Run, n: nat, account: Account)
    requires n < |run.steps| && run.steps[n] == CallerBind(account) && run.State(n + 1).stage == run.State(n).stage
    ensures CallerAccount(run, n + 1) == Some(account)
  {
    hide Stepped, Run.State;
  }

  lemma WaitingShows(s: Service, a: Sane, item: Item, c: Scene)
    ensures var t := Waiting(s, a, AtTop).(frames := [item], unlocks := [item], frameGeneration := Some(c.generation + 2));
      !t.reset && t.unlocks == [item] && AccountOf(t) == AccountOf(s) && t.stage == AtTop
  {
  }

  lemma PlaysOn(run: Run, more: seq<Step>, c: Scene)
    requires c.values != [] && |more| > 19 && more[..19] == Playthrough(c)
    requires forall i | 19 <= i < |more| :: more[i].CallerBind? || more[i] == CallerTakeEvaluation
    ensures var longer := Extended(run, more);
      Plays(longer, |run.steps|, c) && NeverStartsOrAsks(longer, |run.steps|, |run.steps| + 19) && NoCallbacks(more)
  {
    var longer, n := Extended(run, more), |run.steps|;
    PlaythroughOnlyPlays(c);
    assert forall i | 0 <= i < |more| :: longer.steps[n + i] == more[i];
    assert forall i | 0 <= i < 19 :: more[i] == Playthrough(c)[i];
    assert forall k: nat | n <= k < n + 19 :: longer.steps[k] == Playthrough(c)[k - n];
  }

  lemma PlaythroughOnlyPlays(c: Scene)
    requires c.values != []
    ensures forall i | 0 <= i < 19 ::
      var x := Playthrough(c)[i];
      !x.OwnerStart? && !x.CallerBind? && !x.CallerClear? && !x.CallerCallback?
  {
  }

  // ----- A harmless turn keeps the promise -----

  lemma StepAddsNoCallback(s: Service, n: nat, x: Step)
    requires !HasCallback(s.commands) && !x.CallerCallback?
    ensures !HasCallback(Stepped(s, n, x).0.commands)
  {
    hide Handled, Act, Commanded, CommandsDiscard, Released, AccountSessions.LoggedOut;
    CommandedQueues(s);
    CommandedQueues(AfterReset(s));
    if x.OwnerReceive? {
      CommandedQueues(s.(adapter := Handled(s.limits, s.adapter, x.at, x.fedAt, x.peer, x.packet, x.native).0));
    }
  }

  lemma {:induction false} NoCallbackLater(run: Run, m: nat, n: nat)
    requires m <= n <= |run.steps| && !HasCallback(run.State(m).commands) && NoCallbacks(run.steps[m..])
    ensures !HasCallback(run.State(n).commands)
    decreases n - m
  {
    hide Stepped, HasCallback;
    if m < n {
      NoCallbackLater(run, m, n - 1);
      assert run.steps[m..][n - 1 - m] == run.steps[n - 1];
      StepAddsNoCallback(run.State(n - 1), n - 1, run.steps[n - 1]);
    }
  }

  /** What a turn that obeys a callback leaves behind. */
  lemma AfterCallback(run: Run, n: nat)
    requires run.stored.Some? && run.capacity >= 1 && n < |run.steps| && CallsBack(run, n)
    ensures var s := run.State(n + 1);
      && s.stage == Working && s.commands == [] && s.capacity == run.capacity && s.limits == run.limits
      && Accounted(s.adapter) && (AccountOf(s).Some? ==> s.adapter.account.Some?)
  {
    hide Stepped, Run.State, ToppedUp, Sound, Ordered, Accounted, HasCallback, ProfileBound;
    AlwaysOrdered(run, n);
    AlwaysOrdered(run, n + 1);
    AlwaysBound(run, n);
    SoundAdapter(run.State(n + 1));
    StepOfRun(run, n);
    OnlyTops(run.State(n), n);
    TurnObeys(run.State(n));
  }

  lemma TurnObeys(s: Service)
    requires s.stage == AtTop && HasCallback(s.commands) && Sound(s) && ProfileBound(s)
    ensures var t := ToppedUp(s);
      t.stage == Working && t.commands == [] && (AccountOf(t).Some? ==> t.adapter.account.Some?)
  {
    hide Commanded, Sound, Released, CommandsDiscard, ProfileBound;
    AfterResetSound(s);
    SameBinding(s, AfterReset(s));
    CommandedBound(AfterReset(s));
    CommandedQueues(AfterReset(s));
  }

  lemma StillHarmless(run: Run, more: seq<Step>, n: nat)
    requires run.steps != [] && HarmlessTurns(run, |run.steps|) && NoCallbacks(more) && n <= |run.steps| + |more|
    requires run.State(|run.steps|).commands == []
    ensures HarmlessTurns(Extended(run, more), n)
  {
    hide Run.State, Stepped, Harmless, CallerAccount;
    var longer, end := Extended(run, more), |run.steps|;
    forall k: nat | k < n && CallsBack(longer, k)
      ensures Harmless(longer.State(k + 1), CallerAccount(longer, k + 1))
    {
      if k < end {
        SameSoFar(run, more, k);
        SameSoFar(run, more, k + 1);
        assert longer.steps[k] == run.steps[k];
        assert CallsBack(run, k);
      } else {
        SameSoFar(run, more, end);
        assert longer.steps[end..] == more;
        NoCallbackLater(longer, end, k);
      }
    }
  }

  /**
   * The condition, exactly. Where every turn with a callback before was harmless, the promise of attribution
   * survives one more of them, whatever happens next short of another callback, if and only if that turn is
   * harmless too. (The service lets a console ask twice within a second, as any that serves a list must.)
   */
  lemma HarmlessExactly(run: Run)
    requires run.stored.Some? && run.capacity >= 1 && run.limits.Valid() && run.limits.rate >= 2
    requires run.steps != [] && CallsBack(run, |run.steps| - 1) && HarmlessTurns(run, |run.steps| - 1)
    ensures Harmless(run.State(|run.steps|), CallerAccount(run, |run.steps|))
      <==> forall more: seq<Step> | NoCallbacks(more) :: KeepsPromise(Extended(run, more))
  {
    hide Run.State, Stepped, Harmless, CallerAccount, CallsBack, NoCallbacks, KeepsPromise, BreakingSteps, Accounted,
         WellLaidOut;
    var n := |run.steps|;
    AfterCallback(run, n - 1);
    if Harmless(run.State(n), CallerAccount(run, n)) {
      forall more: seq<Step> | NoCallbacks(more)
        ensures KeepsPromise(Extended(run, more))
      {
        HarmlessKeeps(run, more);
      }
    } else {
      var w := OneByteListIsSmall();
      assert run.State(n).adapter.account.Some? by { BoundWhenHarmful(run.State(n), CallerAccount(run, n)); }
      var m := HarmfulTurnBreaks(run, w, [0]);
      BrokenAt(Extended(run, BreakingSteps(run, w, [0])), m);
    }
  }

  lemma BoundWhenHarmful(s: Service, account: Option<Account>)
    requires !Harmless(s, account) && (AccountOf(s).Some? ==> s.adapter.account.Some?)
    ensures s.adapter.account.Some?
  {
  }

  lemma BrokenAt(run: Run, m: nat)
    requires m < |run.steps| && run.Taken(m).Some? && !Names(run.Taken(m).value, CallerAccount(run, m))
    ensures !KeepsPromise(run)
  {
  }

  lemma HarmlessKeeps(run: Run, more: seq<Step>)
    requires run.capacity >= 1 && NoCallbacks(more)
    requires run.steps != [] && HarmlessTurns(run, |run.steps| - 1) && run.State(|run.steps|).commands == []
    requires Harmless(run.State(|run.steps|), CallerAccount(run, |run.steps|))
    ensures KeepsPromise(Extended(run, more))
  {
    hide Run.State, Stepped, Harmless, CallerAccount, CallsBack, Names;
    var longer := Extended(run, more);
    forall n: nat | n < |longer.steps| && longer.Taken(n).Some?
      ensures Names(longer.Taken(n).value, CallerAccount(longer, n))
    {
      StillHarmless(run, more, n);
      TakenNamesTheCallersAccount(longer, n);
    }
  }

  // ----- Two ways to harm -----

  const ANNA := Account("anna", 1)
  const BEN := Account("ben", 1)
  const BENS := Credentials("ben", "token")
  const LOGIN := Login("ben", "secret")

  /** Ben signs in to the session of the profile. */
  const SIGN_IN: seq<SessionCall> := [
    Moves.SignIn(LOGIN),
    Moves.Accept(Task(1, 1, LOGIN, None), WorkResult(1, 1, true, Some(SignedIn(BENS))), Commit(false, true, 0.0, 0.0, 0.0))]

  /** A callback signs Ben in, whom no caller has bound. */
  function SigningRun(): Run { Run(BRIEF, 0.0, 1, Some(None), [CallerCallback(SIGN_IN), OwnerTop]) }

  /** Anna is bound directly while Ben is signed in; the second callback does nothing. */
  function LookingRun(): Run {
    Run(BRIEF, 0.0, 1, Some(None), [CallerCallback(SIGN_IN), CallerBind(ANNA), OwnerTop, OwnerCheck, OwnerIdle,
                                    CallerCallback([]), OwnerTop])
  }

  /** The profile's session once Ben is signed in. */
  const SIGNED_IN: SessionState := SessionState(1, 1, Some(BENS), None, None, None, None, {0, 1}, NO_ADAPTER, None)

  lemma SignInCalls(a: Sane)
    requires a.account.None? && a.evaluator.None? && a.context.None?
    ensures Called(BRIEF, SignedOut(a, None), SIGN_IN) == SIGNED_IN.(adapter := Bound(Unbound(a), BEN))
  {
    hide Bound, Unbound;
    assert SIGN_IN[..1] == [SIGN_IN[0]] && SIGN_IN[..1][..0] == [];
    assert BENS.Valid();
    var begun := Moves.Take(BRIEF, SignedOut(a, None), SIGN_IN[0]).0;
    assert Called(BRIEF, SignedOut(a, None), SIGN_IN[..1]) == begun;
    assert begun.pending == Some(Task(1, 1, LOGIN, None)) && begun.cancelled == {0};
  }

  /** The service with empty queues at the top of a turn. */
  function Turning(a: Sane, account: Option<string>, epoch: nat, commands: seq<Command>, profile: SessionState): Service {
    Service(BRIEF, 1, false, [], [], None, 0, 0, None, account, epoch, commands, Some(profile), a, AtTop)
  }

  /** A receiver that has only just been started and, it may be, reset. */
  predicate Fresh(a: Sane) { a.account.None? && a.evaluator.None? && a.context.None? }

  lemma CallbackObeyed(a: Sane, account: Option<string>, epoch: nat, commands: seq<Command>)
    requires Fresh(a)
    ensures Obeyed(Turning(a, account, epoch, commands, SignedOut(NO_ADAPTER, None)), Callback(SIGN_IN))
      == Turning(Bound(Unbound(a), BEN), Some("ben"), 1, commands, SIGNED_IN)
  {
    hide Bound, Unbound, Called;
    SignInCalls(a);
    assert SessionOf(Turning(a, account, epoch, commands, SignedOut(NO_ADAPTER, None))) == SignedOut(a, None);
  }

  lemma SigningHarms()
    ensures var run := SigningRun();
      CallsBack(run, 1) && HarmlessTurns(run, 1) && !Harmless(run.State(2), CallerAccount(run, 2))
  {
    hide Bound, Unbound, Stepped, Commanded, Run.State;
    var run := SigningRun();
    var s := Turning(Start(0.0), None, 0, [Callback(SIGN_IN)], SignedOut(NO_ADAPTER, None));
    SigningStarts();
    assert s.commands[0].Callback?;
    SigningObeyed();
    BoundToHim(Unbound(Start(0.0)), BEN);
    StepOfRun(run, 1);
    OnlyTops(s, 1);
    assert CallerAccount(run, 0) == None;
    CallerAccountStays(run, 0, 1);
    CallerAccountStays(run, 0, 2);
  }

  lemma SigningStarts()
    ensures SigningRun().State(1) == Turning(Start(0.0), None, 0, [Callback(SIGN_IN)], SignedOut(NO_ADAPTER, None))
  {
    var run := SigningRun();
    assert run.State(0) == Begin(BRIEF, 1, 0.0, Some(None));
  }

  lemma SigningObeyed()
    ensures Commanded(Turning(Start(0.0), None, 0, [Callback(SIGN_IN)], SignedOut(NO_ADAPTER, None)))
      == Turning(Bound(Unbound(Start(0.0)), BEN), Some("ben"), 1, [], SIGNED_IN)
  {
    hide Bound, Unbound, Obeyed;
    var s := Turning(Start(0.0), None, 0, [Callback(SIGN_IN)], SignedOut(NO_ADAPTER, None));
    var t := Turning(Bound(Unbound(Start(0.0)), BEN), Some("ben"), 1, [], SIGNED_IN);
    CallbackObeyed(Start(0.0), None, 0, s.commands);
    assert s.commands[1..] == [];
    assert Commanded(s) == Commanded(t) == t;
  }

  lemma BoundToHim(a: Sane, account: Account)
    ensures Bound(a, account).account == Some(account)
  {
  }

  lemma BothObeyed(a: Sane)
    requires Fresh(a)
    ensures Commanded(Turning(a, Some("anna"), 1, [Callback(SIGN_IN), BindTo(ANNA)], SignedOut(NO_ADAPTER, None)))
      == Turning(Bound(Bound(Unbound(a), BEN), ANNA), Some("anna"), 1, [], SIGNED_IN)
  {
    hide Bound, Unbound, Obeyed;
    var both: seq<Command> := [Callback(SIGN_IN), BindTo(ANNA)];
    var s := Turning(a, Some("anna"), 1, both, SignedOut(NO_ADAPTER, None));
    CallbackObeyed(a, Some("anna"), 1, both);
    var b := Bound(Unbound(a), BEN);
    assert both[1..] == [BindTo(ANNA)];
    var t := Obeyed(s, both[0]).(commands := both[1..]);
    assert t == Turning(b, Some("ben"), 1, both[1..], SIGNED_IN);
    BindingObeyed(b, both[1..]);
    assert both[1..][1..] == [];
    assert Commanded(t) == Commanded(Turning(Bound(b, ANNA), Some("anna"), 1, [], SIGNED_IN));
  }

  lemma BindingObeyed(a: Sane, commands: seq<Command>)
    ensures Obeyed(Turning(a, Some("ben"), 1, commands, SIGNED_IN), BindTo(ANNA))
      == Turning(Bound(a, ANNA), Some("anna"), 1, commands, SIGNED_IN)
  {
    hide Bound;
  }

  lemma ReleasedIsFresh()
    ensures Fresh(Released(Start(0.0)))
  {
  }

  /** Up to the second callback. */
  lemma LookingStarts() returns (a: Sane)
    ensures LookingRun().State(2).stage == AtTop && HasCallback(LookingRun().State(2).commands)
    ensures a.account == Some(ANNA)
    ensures LookingRun().State(3) == Turning(a, Some("anna"), 1, [], SIGNED_IN).(stage := Working)
  {
    hide Released, Bound, Unbound, Commanded;
    var run := LookingRun();
    var s0 := run.State(0);
    assert s0 == Begin(BRIEF, 1, 0.0, Some(None));
    var s1 := s0.(commands := [Callback(SIGN_IN)]);
    assert run.State(1) == s1;
    var s2 := ResetBy(s1).(account := Some("anna"), epoch := 1, commands := [Callback(SIGN_IN), BindTo(ANNA)]);
    assert run.State(2) == s2 && s2.commands[0].Callback?;
    ReleasedIsFresh();
    var r := Released(Start(0.0));
    BothObeyed(r);
    a := Bound(Bound(Unbound(r), BEN), ANNA);
    BoundToHim(Bound(Unbound(r), BEN), ANNA);
    assert run.State(3) == ToppedUp(s2);
  }

  lemma LookingGoesOn(a: Sane)
    requires LookingRun().State(3) == Turning(a, Some("anna"), 1, [], SIGNED_IN).(stage := Working)
    ensures LookingRun().State(6) == Turning(a, Some("anna"), 1, [Callback([])], SIGNED_IN)
  {
    hide Stepped, Run.State, Turning;
    var run := LookingRun();
    IdleTurn(a, 3);
    StepOfRun(run, 3);
    StepOfRun(run, 4);
    StepOfRun(run, 5);
  }

  /** A turn in which nothing arrives, and a callback handed over after it. */
  lemma IdleTurn(a: Sane, n: nat)
    ensures var s := Turning(a, Some("anna"), 1, [], SIGNED_IN);
      && Stepped(s.(stage := Working), n, OwnerCheck).0 == s.(stage := Listening)
      && Stepped(s.(stage := Listening), n + 1, OwnerIdle).0 == s
      && Stepped(s, n + 2, CallerCallback([])).0 == Turning(a, Some("anna"), 1, [Callback([])], SIGNED_IN)
  {
    var s := Turning(a, Some("anna"), 1, [], SIGNED_IN);
    assert s.commands + [Callback([])] == [Callback([])];
  }

  lemma LookingHarms()
    ensures var run := LookingRun();
      CallsBack(run, 6) && HarmlessTurns(run, 6) && !Harmless(run.State(7), CallerAccount(run, 7))
  {
    hide Run.State, Stepped, Commanded;
    var run := LookingRun();
    var a := LookingStarts();
    LookingGoesOn(a);
    var s := run.State(6);
    assert s.commands[0].Callback?;
    AskedAnna();
    LookingIsHarmlessExactly(s, Some(ANNA));
    StepOfRun(run, 6);
    assert run.State(7) == ToppedUp(s) by { assert Enabled(s, OwnerTop); OnlyTops(s, 6); }
    CallerAccountStays(run, 2, 3);
    assert forall k: nat | k < 6 && CallsBack(run, k) :: k == 2;
    CallerAccountStays(run, 2, 7);
  }

  lemma OnlyTops(s: Service, n: nat)
    requires s.stage == AtTop
    ensures Stepped(s, n, OwnerTop).0 == ToppedUp(s)
  {
  }

  lemma AskedAnna()
    ensures CallerAccount(LookingRun(), 2) == Some(ANNA)
  {
    var run := LookingRun();
    AskedLast(run, 1, ANNA);
  }

  /** So each of the two runs goes on to break the promise. */
  lemma CallbacksBreakAttribution() returns (afterSigning: seq<Step>, afterLooking: seq<Step>)
    ensures NoCallbacks(afterSigning) && !KeepsPromise(Extended(SigningRun(), afterSigning))
    ensures NoCallbacks(afterLooking) && !KeepsPromise(Extended(LookingRun(), afterLooking))
  {
    hide KeepsPromise, Harmless, CallsBack, HarmlessTurns, CallerAccount, Run.State, NoCallbacks, Extended;
    SigningHarms();
    HarmlessExactly(SigningRun());
    afterSigning :| NoCallbacks(afterSigning) && !KeepsPromise(Extended(SigningRun(), afterSigning));
    LookingHarms();
    HarmlessExactly(LookingRun());
    afterLooking :| NoCallbacks(afterLooking) && !KeepsPromise(Extended(LookingRun(), afterLooking));
  }
}
