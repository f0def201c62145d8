/** The example store of Store.kt: `MainStore`, its sealed state, action and
 *  event types, and its reducer `onDispatched`, run by the engine of
 *  `StoreEngine`. */
module MainStore {
  import opened StoreEngine
  import opened KotlinInt

  datatype MainState = Initial | Loading | Stable(dataList: seq<string>, clickCounter: Int32)

  datatype MainAction = Enter | Exit | Click(id: Int64)

  datatype MainEvent = ShowToast(message: string)

  /** The one middleware `MainStore` registers; its `onEventEmitted` only logs. */
  datatype MainMiddleware = EventLogger

  /** The toast shown once the data has been loaded. */
  const LoadedMessage: string := "データがロードされました"

  /** `MainStore.onDispatched` with its `?: state` fallback: the next state
   *  and the events passed to `emit`, in order.  At most one event is
   *  emitted, only by `Enter` on `Stable`, which keeps the state; only
   *  `Enter` changes the class of a state, and never out of `Stable`; a
   *  `Stable` state keeps its data list. */
  function OnDispatched(state: MainState, action: MainAction): (r: (MainState, seq<MainEvent>))
    ensures |r.1| <= 1
    ensures r.1 != [] ==> state.Stable? && action.Enter? && r.0 == state
    ensures Variant(r.0) != Variant(state) ==> action.Enter? && !state.Stable?
    ensures state.Stable? ==> r.0.Stable? && r.0.dataList == state.dataList
  {
    match state
    case Initial => if action.Enter? then (Loading, []) else (state, [])
    case Loading => if action.Enter? then (Stable([], 0), []) else (state, [])
    case Stable(dataList, clickCounter) =>
      match action
      case Enter => (state, [ShowToast(LoadedMessage)])
      case Click(_) => (Stable(dataList, Increment(clickCounter)), [])
      case Exit => (state, [])
  }

  /** The class of a state, in place of `::class.qualifiedName`. */
  function Variant(state: MainState): nat
  {
    match state
    case Initial => 0
    case Loading => 1
    case Stable(_, _) => 2
  }

  /** Two states are instances of the same class of the sealed type. */
  predicate SameClass(s: MainState, t: MainState)
  {
    (s.Initial? && t.Initial?) || (s.Loading? && t.Loading?) || (s.Stable? && t.Stable?)
  }

  /** The variant stands for the class name: two states share a variant
   *  exactly when they are instances of the same class. */
  lemma VariantIsClass(s: MainState, t: MainState)
    ensures Variant(s) == Variant(t) <==> SameClass(s, t)
  {
  }

  /** How many enter steps a state is from `Stable`. */
  function Rank(state: MainState): nat
  {
    match state
    case Initial => 2
    case Loading => 1
    case Stable(_, _) => 0
  }

  /** The constructor arguments of `MainStore`. */
  function StoreConfig(): Config<MainState, MainAction, MainEvent, MainMiddleware>
  {
    Config(OnDispatched, Variant, Some(Enter), Some(Exit), [EventLogger])
  }

  // ---------------------------------------------------------------------
  // The reducer
  // ---------------------------------------------------------------------

  /** A click on a `Stable` screen keeps the list, counts the click and
   *  emits nothing. */
  lemma ClickCounts(dataList: seq<string>, clickCounter: Int32, id: Int64)
    ensures OnDispatched(Stable(dataList, clickCounter), Click(id))
            == (Stable(dataList, Increment(clickCounter)), [])
    ensures clickCounter < 0x7fff_ffff ==> Increment(clickCounter) as int == clickCounter as int + 1
  {
    if clickCounter < 0x7fff_ffff {
      WrapInRange(clickCounter as int + 1);
    }
  }

  /** `Exit`, and every action the reducer does not list for a state, leaves
   *  the state as it is and emits nothing. */
  lemma UnlistedActionsIgnored(state: MainState, action: MainAction)
    requires action.Exit? || (action.Click? && !state.Stable?)
    ensures OnDispatched(state, action) == (state, [])
  {
  }

  /** Every variant change under the enter action lowers the rank. */
  lemma EnterLowersRank()
    ensures forall s :: Variant(OnDispatched(s, Enter).0) != Variant(s) ==>
                          Rank(OnDispatched(s, Enter).0) < Rank(s)
  {
    forall s | Variant(OnDispatched(s, Enter).0) != Variant(s)
      ensures Rank(OnDispatched(s, Enter).0) < Rank(s)
    {
    }
  }

  // ---------------------------------------------------------------------
  // The store
  // ---------------------------------------------------------------------

  /** The three steps of the cascade that construction starts. */
  function LaunchSteps(): seq<StepRecord<MainState, MainAction, MainEvent>>
  {
    [ StepRecord(Initial, Enter, Loading, [], true, []),
      StepRecord(Loading, Enter, Stable([], 0), [], true, []),
      StepRecord(Stable([], 0), Enter, Stable([], 0), [ShowToast(LoadedMessage)], false, []) ]
  }

  /** Construction dispatches `Enter` on `Initial`: the cascade moves to
   *  `Loading`, then to `Stable([], 0)`, whose own `Enter` shows one toast
   *  and keeps the variant, so the cascade stops there.  Two nested enter
   *  calls suffice. */
  lemma {:induction false} LaunchCascade(fuel: nat)
    requires fuel >= 2
    ensures var r := Transition(StoreConfig(), Initial, Enter, fuel);
            r.steps == LaunchSteps() && r.complete && r.Final() == Stable([], 0)
  {
    var cfg := StoreConfig();
    var steps := LaunchSteps();
    assert Step(cfg, Initial, Enter) == steps[0];
    assert Step(cfg, Loading, Enter) == steps[1];
    assert Step(cfg, Stable([], 0), Enter) == steps[2];
    CascadeFollowsPublication(cfg, Stable([], 0), Enter, fuel - 2);
    CascadeFollowsPublication(cfg, Loading, Enter, fuel - 1);
    CascadeFollowsPublication(cfg, Initial, Enter, fuel);
    TransitionIsChain(cfg, Initial, Enter, fuel);
  }

  /** What the launch cascade publishes and emits: `Loading`, then
   *  `Stable([], 0)` twice (the second time after `Stable`'s own `Enter`),
   *  and a single toast. */
  lemma LaunchEffects()
    ensures var fx := EffectsOf([EventLogger], LaunchSteps());
            StatesOf(fx) == [Loading, Stable([], 0), Stable([], 0)] &&
            EventsOf(fx) == [ShowToast(LoadedMessage)]
  {
    var steps := LaunchSteps();
    EffectsOfPublishes([EventLogger], steps);
    EffectsOfEvents([EventLogger], steps);
    assert steps[..2][..1][..0] == [];
    assert AllEvents(steps[..1]) == [];
    assert AllEvents(steps[..2]) == [];
  }

  /** A dispatch from any state completes within three nested enter calls. */
  lemma DispatchCompletesWithin3(state: MainState, action: MainAction, fuel: nat)
    requires fuel >= 3
    ensures Transition(StoreConfig(), state, action, fuel).complete
  {
    EnterLowersRank();
    DispatchCompletes(StoreConfig(), Rank, state, action, fuel);
  }

  /** A click on `Stable` is one step: no exit or enter call, no event, and
   *  the counted state is published. */
  lemma ClickPublishesOnce(dataList: seq<string>, clickCounter: Int32, id: Int64, fuel: nat)
    ensures var next := Stable(dataList, Increment(clickCounter));
            var r := Transition(StoreConfig(), Stable(dataList, clickCounter), Click(id), fuel);
            r.complete && r.Final() == next &&
            EffectsOf([EventLogger], r.steps) == [Published(next)]
  {
    SameVariantPublishesOnce(StoreConfig(), Stable(dataList, clickCounter), Click(id), fuel);
    assert EmitEffects<MainState, MainAction, MainEvent, MainMiddleware>([EventLogger], Stable(dataList, clickCounter), Click(id), []) == [];
  }

  /** `Enter` on `Stable` shows one toast, notifies the logger with the
   *  stable state and `Enter`, and republishes the same state. */
  lemma StableEnterToasts(dataList: seq<string>, clickCounter: Int32, fuel: nat)
    ensures var s := Stable(dataList, clickCounter);
            var toast := ShowToast(LoadedMessage);
            var r := Transition(StoreConfig(), s, Enter, fuel);
            r.complete && r.Final() == s &&
            EffectsOf([EventLogger], r.steps)
              == [EventEmitted(toast), Notified(EventLogger, s, Enter, toast), Published(s)]
  {
    var s := Stable(dataList, clickCounter);
    var toast := ShowToast(LoadedMessage);
    SameVariantPublishesOnce(StoreConfig(), s, Enter, fuel);
    var none: seq<MainEvent> := [];
    var nobody: seq<MainMiddleware> := [];
    EmitEffectsSnoc<MainState, MainAction, MainEvent, MainMiddleware>([EventLogger], s, Enter, none, toast);
    NotifyAllSnoc<MainState, MainAction, MainEvent, MainMiddleware>(nobody, s, Enter, toast, EventLogger);
    assert none + [toast] == [toast];
    assert nobody + [EventLogger] == [EventLogger];
  }

  /** A store built from `MainStore`'s arguments and then clicked holds
   *  `Stable([], 1)`. */
  method LaunchAndClick(id: Int64) returns (state: MainState)
    ensures state == Stable([], 1)
  {
    var store := new DefaultStore(StoreConfig(), Initial, 2);
    LaunchCascade(2);
    var _ := store.Dispatch(Click(id), 0);
    ClickPublishesOnce([], 0, id, 0);
    state := store.CurrentState();
  }
}
