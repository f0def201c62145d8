/** The `MainStore` of MainStore.kt, written against the `tarte` store
 *  library: its own sealed state, action and event types and its three
 *  reducers `onEntered`, `onExited` and `onDispatched`.  Each reducer's
 *  `emit` callback is modelled as the sequence of events it emits. */
module TarteMainStore {
  import opened KotlinInt

  datatype MainState = Initial | Loading | Stable(dataList: seq<string>, clickCounter: Int32)

  datatype MainAction = Click(id: Int64)

  datatype MainEvent = ShowToast(message: string)

  /** The toast shown after a click. */
  const ClickedMessage: string := "クリクされました"

  /** How many enter calls a state is from `Stable`. */
  function Rank(state: MainState): nat
  {
    match state
    case Initial => 2
    case Loading => 1
    case Stable(_, _) => 0
  }

  /** `onEntered` with its `?: state` fallback: the state entered next and
   *  the events emitted, of which there are none.  Entering never moves
   *  away from `Stable`. */
  function OnEntered(state: MainState): (r: (MainState, seq<MainEvent>))
    ensures r.1 == []
    ensures state.Stable? ==> r.0 == state
    ensures !state.Stable? ==> Rank(r.0) < Rank(state)
  {
    match state
    case Initial => (Loading, [])
    case Loading => (Stable([], 0), [])
    case Stable(_, _) => (state, [])
  }

  /** `onExited`: the events emitted on leaving a state. */
  function OnExited(state: MainState): (events: seq<MainEvent>)
    ensures |events| == 0
  {
    []
  }

  /** `onDispatched` with its `?: state` fallback: the next state and the
   *  events emitted, in order.  A dispatch never changes the class of the
   *  state and emits at most one event. */
  function OnDispatched(state: MainState, action: MainAction): (r: (MainState, seq<MainEvent>))
    ensures r.0.Stable? <==> state.Stable?
    ensures |r.1| <= 1
  {
    match state
    case Stable(dataList, clickCounter) =>
      (Stable(dataList, Increment(clickCounter)), [ShowToast(ClickedMessage)])
    case _ => (state, [])
  }

  // ---------------------------------------------------------------------
  // onEntered
  // ---------------------------------------------------------------------

  /** Entering `Initial` moves straight on to `Loading`, silently. */
  lemma EnterInitial()
    ensures OnEntered(Initial) == (Loading, [])
  {
  }

  /** Entering `Loading` ends with the loaded, empty, unclicked screen. */
  lemma EnterLoading()
    ensures OnEntered(Loading) == (Stable([], 0), [])
  {
  }

  /** `n` enter calls in a row, threading the state and collecting events. */
  function EnterRepeatedly(state: MainState, n: nat): (MainState, seq<MainEvent>)
  {
    if n == 0 then (state, [])
    else
      var before := EnterRepeatedly(state, n - 1);
      var last := OnEntered(before.0);
      (last.0, before.1 + last.1)
  }

  /** Entering repeatedly settles: from `Initial` or `Loading` it reaches
   *  `Stable([], 0)` after at most two calls, a `Stable` state is kept,
   *  and no call emits anything. */
  lemma {:induction false} EnterSettles(state: MainState, n: nat)
    requires n >= Rank(state)
    ensures var r := EnterRepeatedly(state, n);
            r.0 == (if state.Stable? then state else Stable([], 0)) && r.1 == []
  {
    if n > 0 {
      var before := EnterRepeatedly(state, n - 1);
      if n - 1 >= Rank(state) {
        EnterSettles(state, n - 1);
        assert before.0.Stable?;
      } else if state.Loading? {
        // the one enter call due leaves Loading
        assert before == (Loading, []);
      } else {
        // from Initial, the first call reaches Loading and the second Stable
        assert state.Initial? && n == 2;
        var start := EnterRepeatedly(state, 0);
        assert start == (Initial, []);
        assert OnEntered(start.0) == (Loading, []);
        assert start.1 + [] == [];
        assert before == (Loading, []);
      }
    }
  }

  // ---------------------------------------------------------------------
  // onDispatched
  // ---------------------------------------------------------------------

  /** A click on `Stable` emits exactly one toast and counts the click,
   *  keeping the list. */
  lemma ClickToasts(dataList: seq<string>, clickCounter: Int32, id: Int64)
    ensures var r := OnDispatched(Stable(dataList, clickCounter), Click(id));
            r.1 == [ShowToast(ClickedMessage)] &&
            r.0.dataList == dataList &&
            r.0.clickCounter as int == Wrap32(clickCounter as int + 1)
  {
  }

  /** Before the data is loaded a click is ignored: same state, no event. */
  lemma ClickIgnoredUntilStable(state: MainState, action: MainAction)
    requires !state.Stable?
    ensures OnDispatched(state, action) == (state, [])
  {
  }

  /** The actions dispatched one after another, threading the state and
   *  collecting every event. */
  function DispatchAll(state: MainState, actions: seq<MainAction>): (MainState, seq<MainEvent>)
  {
    if actions == [] then (state, [])
    else
      var before := DispatchAll(state, actions[..|actions| - 1]);
      var last := OnDispatched(before.0, actions[|actions| - 1]);
      (last.0, before.1 + last.1)
  }

  /** `n` clicks on a `Stable` screen keep its list, advance the counter by
   *  `n` modulo 2^32 and show one toast per click. */
  lemma {:induction false} ClicksCount(dataList: seq<string>, clickCounter: Int32, actions: seq<MainAction>)
    ensures var r := DispatchAll(Stable(dataList, clickCounter), actions);
            r.0.Stable? && r.0.dataList == dataList &&
            r.0.clickCounter as int == Wrap32(clickCounter as int + |actions|) &&
            |r.1| == |actions| &&
            forall i :: 0 <= i < |r.1| ==> r.1[i] == ShowToast(ClickedMessage)
    decreases |actions|
  {
    if actions == [] {
      WrapInRange(clickCounter as int);
    } else {
      var init := actions[..|actions| - 1];
      ClicksCount(dataList, clickCounter, init);
      var before := DispatchAll(Stable(dataList, clickCounter), init);
      WrapAddOne(clickCounter as int + |init|);
      assert OnDispatched(before.0, actions[|actions| - 1]).1 == [ShowToast(ClickedMessage)];
    }
  }

  /** Before the data is loaded any number of dispatches changes nothing. */
  lemma {:induction false} DispatchIgnoredUntilStable(state: MainState, actions: seq<MainAction>)
    requires !state.Stable?
    ensures DispatchAll(state, actions) == (state, [])
    decreases |actions|
  {
    if actions != [] {
      DispatchIgnoredUntilStable(state, actions[..|actions| - 1]);
      ClickIgnoredUntilStable(state, actions[|actions| - 1]);
      var none: seq<MainEvent> := [];
      assert none + none == none;
    }
  }
}
