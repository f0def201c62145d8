/** The transition engine of `DefaultStore` (Store.kt).
 *
 *  The store's observable behaviour is recorded as one ordered log of effects:
 *  an event sent to the event stream, a middleware's `onEventEmitted` hook
 *  being called, and a state being published to the state flow.  `Step` and
 *  `Transition` are the pure specification of one `changeState` call; the
 *  class `DefaultStore` performs the same work step by step and is proved
 *  against them.
 */
module StoreEngine {

  datatype Option<T> = None | Some(value: T)

  /** What a store is constructed with.  `reducer` is `onDispatched` with the
   *  `?: state` fallback already applied: it returns the next state and the
   *  events it passed to `emit`, in order.  `variant` stands in for
   *  `::class.qualifiedName`: two states have the same variant exactly when
   *  they are the same case of the sealed state type. */
  datatype Config<!S, !A, E, M> = Config(
    reducer: (S, A) -> (S, seq<E>),
    variant: S -> nat,
    enterAction: Option<A>,
    exitAction: Option<A>,
    middlewares: seq<M>)

  /** One observable effect of the store. */
  datatype Effect<S, A, E, M> =
    | EventEmitted(event: E)                                  // `_event.emit(event)`
    | Notified(middleware: M, state: S, action: A, event: E)  // `onEventEmitted(state, action, event)`
    | Published(state: S)                                     // `_state.update { state }`

  // ---------------------------------------------------------------------
  // Views of the effect log
  // ---------------------------------------------------------------------

  /** The history of the state flow: every published state, in order. */
  function StatesOf<S, A, E, M>(log: seq<Effect<S, A, E, M>>): seq<S>
  {
    if log == [] then []
    else
      var last := log[|log| - 1];
      StatesOf(log[..|log| - 1]) + (if last.Published? then [last.state] else [])
  }

  /** The event stream: every emitted event, in order. */
  function EventsOf<S, A, E, M>(log: seq<Effect<S, A, E, M>>): seq<E>
  {
    if log == [] then []
    else
      var last := log[|log| - 1];
      EventsOf(log[..|log| - 1]) + (if last.EventEmitted? then [last.event] else [])
  }

  /** Every middleware notification in `log` was given state `s` and action `a`. */
  ghost predicate NotifiesWith<S, A, E, M>(log: seq<Effect<S, A, E, M>>, s: S, a: A)
  {
    forall i :: 0 <= i < |log| && log[i].Notified? ==> log[i].state == s && log[i].action == a
  }

  /** The current state after `log`, for a store built with `initial`: the
   *  last published state, or `initial` when nothing was published yet. */
  function LastPublished<S, A, E, M>(initial: S, log: seq<Effect<S, A, E, M>>): S
  {
    if log == [] then initial
    else if log[|log| - 1].Published? then log[|log| - 1].state
    else LastPublished(initial, log[..|log| - 1])
  }

  lemma {:induction false} StatesOfAppend<S, A, E, M>(x: seq<Effect<S, A, E, M>>, y: seq<Effect<S, A, E, M>>)
    ensures StatesOf(x + y) == StatesOf(x) + StatesOf(y)
    decreases |y|
  {
    if y != [] {
      assert (x + y)[..|x + y| - 1] == x + y[..|y| - 1];
      StatesOfAppend(x, y[..|y| - 1]);
    } else {
      assert x + y == x;
    }
  }

  lemma {:induction false} EventsOfAppend<S, A, E, M>(x: seq<Effect<S, A, E, M>>, y: seq<Effect<S, A, E, M>>)
    ensures EventsOf(x + y) == EventsOf(x) + EventsOf(y)
    decreases |y|
  {
    if y != [] {
      assert (x + y)[..|x + y| - 1] == x + y[..|y| - 1];
      EventsOfAppend(x, y[..|y| - 1]);
    } else {
      assert x + y == x;
    }
  }

  // ---------------------------------------------------------------------
  // The emitter
  // ---------------------------------------------------------------------

  /** `middlewares.forEach { it.onEventEmitted(s, a, e) }`. */
  function NotifyAll<S, A, E, M>(mws: seq<M>, s: S, a: A, e: E): seq<Effect<S, A, E, M>>
  {
    if mws == [] then [] else NotifyAll(mws[..|mws| - 1], s, a, e) + [Notified(mws[|mws| - 1], s, a, e)]
  }

  /** Every middleware is notified exactly once, in list order, with the
   *  same state, action and event. */
  lemma {:induction false} NotifyAllInOrder<S, A, E, M>(mws: seq<M>, s: S, a: A, e: E)
    ensures |NotifyAll(mws, s, a, e)| == |mws|
    ensures forall i :: 0 <= i < |mws| ==> NotifyAll(mws, s, a, e)[i] == Notified(mws[i], s, a, e)
  {
    if mws != [] {
      NotifyAllInOrder(mws[..|mws| - 1], s, a, e);
    }
  }

  /** Middleware notifications neither emit events nor publish states, and
   *  all carry the given state and action. */
  lemma {:induction false} NotifyAllSilent<S, A, E, M>(mws: seq<M>, s: S, a: A, e: E)
    ensures EventsOf(NotifyAll(mws, s, a, e)) == []
    ensures StatesOf(NotifyAll(mws, s, a, e)) == []
    ensures NotifiesWith(NotifyAll(mws, s, a, e), s, a)
  {
    if mws != [] {
      NotifyAllSilent(mws[..|mws| - 1], s, a, e);
      var r := NotifyAll(mws, s, a, e);
      assert r[..|r| - 1] == NotifyAll(mws[..|mws| - 1], s, a, e);
    }
  }

  /** What the emitter passed to the reducer does with the events `es` of one
   *  reducer call made for state `s` and action `a`: each event goes to the
   *  event stream and then to every middleware, in list order. */
  function EmitEffects<S, A, E, M>(mws: seq<M>, s: S, a: A, es: seq<E>): seq<Effect<S, A, E, M>>
    decreases |es|
  {
    if es == [] then []
    else
      var e := es[|es| - 1];
      EmitEffects(mws, s, a, es[..|es| - 1]) + ([EventEmitted(e)] + NotifyAll(mws, s, a, e))
  }

  /** Emitting one more event appends its block. */
  lemma EmitEffectsSnoc<S, A, E, M>(mws: seq<M>, s: S, a: A, es: seq<E>, e: E)
    ensures EmitEffects(mws, s, a, es + [e]) == EmitEffects(mws, s, a, es) + ([EventEmitted(e)] + NotifyAll(mws, s, a, e))
  {
    assert (es + [e])[..|es|] == es;
  }

  /** Notifying one more middleware appends its notification. */
  lemma NotifyAllSnoc<S, A, E, M>(mws: seq<M>, s: S, a: A, e: E, m: M)
    ensures NotifyAll(mws + [m], s, a, e) == NotifyAll(mws, s, a, e) + [Notified(m, s, a, e)]
  {
    assert (mws + [m])[..|mws|] == mws;
  }

  /** The block of one emitted event sends that event and publishes nothing. */
  lemma EmitBlockViews<S, A, E, M>(mws: seq<M>, s: S, a: A, e: E)
    ensures var block := [EventEmitted(e)] + NotifyAll(mws, s, a, e);
            EventsOf(block) == [e] && StatesOf(block) == []
  {
    var head: seq<Effect<S, A, E, M>> := [EventEmitted(e)];
    assert head[..0] == [];
    NotifyAllSilent(mws, s, a, e);
    EventsOfAppend(head, NotifyAll(mws, s, a, e));
    StatesOfAppend(head, NotifyAll(mws, s, a, e));
  }

  /** The effects of emitting `es` send exactly `es` to the event stream, in
   *  order, and publish no state. */
  lemma {:induction false} EmitEffectsEvents<S, A, E, M>(mws: seq<M>, s: S, a: A, es: seq<E>)
    ensures EventsOf(EmitEffects(mws, s, a, es)) == es
    ensures StatesOf(EmitEffects(mws, s, a, es)) == []
    decreases |es|
  {
    if es != [] {
      var init, e := es[..|es| - 1], es[|es| - 1];
      var before := EmitEffects(mws, s, a, init);
      var block := [EventEmitted(e)] + NotifyAll(mws, s, a, e);
      assert EmitEffects(mws, s, a, es) == before + block;
      EmitEffectsEvents(mws, s, a, init);
      EmitBlockViews(mws, s, a, e);
      EventsOfAppend(before, block);
      StatesOfAppend(before, block);
      assert init + [e] == es;
    }
  }

  /** Every middleware notification made while emitting `es` carries the
   *  state and action of the reducer call. */
  lemma {:induction false} EmitEffectsNotifyWith<S, A, E, M>(mws: seq<M>, s: S, a: A, es: seq<E>)
    ensures NotifiesWith(EmitEffects(mws, s, a, es), s, a)
    decreases |es|
  {
    if es != [] {
      var e := es[|es| - 1];
      EmitEffectsNotifyWith(mws, s, a, es[..|es| - 1]);
      NotifyAllSilent(mws, s, a, e);
      var before := EmitEffects(mws, s, a, es[..|es| - 1]);
      var block := [EventEmitted(e)] + NotifyAll(mws, s, a, e);
      assert NotifiesWith(block, s, a) by {
        forall i | 0 <= i < |block| && block[i].Notified?
          ensures block[i].state == s && block[i].action == a
        {
          assert block[i] == NotifyAll(mws, s, a, e)[i - 1];
        }
      }
      NotifiesWithAppend(before, block, s, a);
    }
  }

  lemma NotifiesWithAppend<S, A, E, M>(x: seq<Effect<S, A, E, M>>, y: seq<Effect<S, A, E, M>>, s: S, a: A)
    requires NotifiesWith(x, s, a) && NotifiesWith(y, s, a)
    ensures NotifiesWith(x + y, s, a)
  {
    forall i | 0 <= i < |x + y| && (x + y)[i].Notified?
      ensures (x + y)[i].state == s && (x + y)[i].action == a
    {
      if i >= |x| {
        assert (x + y)[i] == y[i - |x|];
      }
    }
  }

  /** Emitting `es` with `n` middlewares produces `|es| * (n + 1)` effects. */
  lemma {:induction false} EmitEffectsLength<S, A, E, M>(mws: seq<M>, s: S, a: A, es: seq<E>)
    ensures |EmitEffects(mws, s, a, es)| == |es| * (|mws| + 1)
    decreases |es|
  {
    if es != [] {
      EmitEffectsLength(mws, s, a, es[..|es| - 1]);
      NotifyAllInOrder(mws, s, a, es[|es| - 1]);
      MulSucc(|es| - 1, |mws| + 1);
    }
  }

  lemma MulSucc(k: nat, n: nat)
    ensures (k + 1) * n == k * n + n
  {
  }

  /** Emitting `xs` and then `ys` has the effects of emitting `xs + ys`. */
  lemma {:induction false} EmitEffectsAppend<S, A, E, M>(mws: seq<M>, s: S, a: A, xs: seq<E>, ys: seq<E>)
    ensures EmitEffects(mws, s, a, xs + ys) == EmitEffects(mws, s, a, xs) + EmitEffects(mws, s, a, ys)
    decreases |ys|
  {
    if ys == [] {
      assert xs + ys == xs;
    } else {
      var init, y := ys[..|ys| - 1], ys[|ys| - 1];
      var block := [EventEmitted(y)] + NotifyAll(mws, s, a, y);
      assert xs + ys == (xs + init) + [y];
      assert init + [y] == ys;
      EmitEffectsSnoc(mws, s, a, xs + init, y);
      EmitEffectsSnoc(mws, s, a, init, y);
      EmitEffectsAppend(mws, s, a, xs, init);
      AppendAssoc3(EmitEffects(mws, s, a, xs), EmitEffects(mws, s, a, init), block);
    }
  }

  /** Emitting `xs`, then `e`, then `ys`: the block of `e` sits between the
   *  effects of `xs` and those of `ys`. */
  lemma EmitEffectsSplit<S, A, E, M>(mws: seq<M>, s: S, a: A, xs: seq<E>, e: E, ys: seq<E>)
    ensures EmitEffects(mws, s, a, xs + [e] + ys)
            == EmitEffects(mws, s, a, xs) + ([EventEmitted(e)] + NotifyAll(mws, s, a, e)) + EmitEffects(mws, s, a, ys)
  {
    EmitEffectsAppend(mws, s, a, xs + [e], ys);
    EmitEffectsSnoc(mws, s, a, xs, e);
  }

  /** The `k`-th event of a reducer call has one block of the log to itself,
   *  between the effects of the events before it and those of the events
   *  after it: the event, then its notifications (one per middleware, in
   *  list order, by `NotifyAllInOrder`). */
  lemma EmitEffectsAround<S, A, E, M>(mws: seq<M>, s: S, a: A, es: seq<E>, k: nat)
    requires k < |es|
    ensures EmitEffects(mws, s, a, es)
            == EmitEffects(mws, s, a, es[..k]) + ([EventEmitted(es[k])] + NotifyAll(mws, s, a, es[k]))
               + EmitEffects(mws, s, a, es[k + 1..])
  {
    assert es == es[..k] + [es[k]] + es[k + 1..];
    EmitEffectsSplit(mws, s, a, es[..k], es[k], es[k + 1..]);
  }

  lemma AppendAssoc3<T>(x: seq<T>, y: seq<T>, z: seq<T>)
    ensures x + y + z == x + (y + z)
  {
  }

  lemma AppendBlock<T>(w: seq<T>, x: seq<T>, y: seq<T>, z: seq<T>)
    ensures w + x + y + z == w + (x + (y + z))
  {
  }

  lemma AppendAssoc<T>(w: seq<T>, x: seq<T>, y: seq<T>, z: seq<T>)
    ensures w + x + y + z == w + (x + y + z)
  {
  }

  // ---------------------------------------------------------------------
  // The specification of changeState
  // ---------------------------------------------------------------------

  /** What one `changeState` call up to its publication did: the state it
   *  started from, its action, the reducer's result and events, whether the
   *  variant changed, and the events of the exit call (empty when there was
   *  none). */
  datatype StepRecord<S, A, E> = StepRecord(prev: S, action: A, next: S, events: seq<E>, changed: bool, exitEvents: seq<E>)

  /** One `changeState(action)` from `prev` up to publication.  The exit
   *  call's returned state is dropped: only its events are kept. */
  function Step<S, A, E, M>(cfg: Config<S, A, E, M>, prev: S, action: A): StepRecord<S, A, E>
  {
    var result := cfg.reducer(prev, action);
    var changed := cfg.variant(prev) != cfg.variant(result.0);
    var exitEvents := if changed && cfg.exitAction.Some? then cfg.reducer(prev, cfg.exitAction.value).1 else [];
    StepRecord(prev, action, result.0, result.1, changed, exitEvents)
  }

  /** The effects of one step, in the order the store performs them: the
   *  reducer's events, the exit call's events (both notified with the step's
   *  state and triggering action), then the publication of the reducer's
   *  result. */
  function StepEffects<S, A, E, M>(mws: seq<M>, r: StepRecord<S, A, E>): seq<Effect<S, A, E, M>>
  {
    EmitEffects(mws, r.prev, r.action, r.events)
    + EmitEffects(mws, r.prev, r.action, r.exitEvents)
    + [Published(r.next)]
  }

  /** The effects of a sequence of steps, one after the other. */
  function EffectsOf<S, A, E, M>(mws: seq<M>, steps: seq<StepRecord<S, A, E>>): seq<Effect<S, A, E, M>>
  {
    if steps == [] then []
    else EffectsOf(mws, steps[..|steps| - 1]) + StepEffects(mws, steps[|steps| - 1])
  }

  /** The steps of one `changeState` call and its enter cascade.  `complete`
   *  is false when the cascade ran out of fuel while a further enter call
   *  was still due. */
  datatype Outcome<S, A, E> = Outcome(steps: seq<StepRecord<S, A, E>>, complete: bool)
  {
    /** The state the store holds afterwards. */
    function Final(): S
      requires steps != []
    {
      steps[|steps| - 1].next
    }
  }

  /** `changeState(action)` from state `prev`, with at most `fuel` nested
   *  `changeState(enterAction)` calls.  The steps form a chain: the first
   *  handles `action` on `prev`; each later one handles the enter action on
   *  the state its predecessor published, and only follows a change of
   *  variant; the chain stops exactly when no enter call is due, unless the
   *  fuel runs out first. */
  function Transition<S, A, E, M>(cfg: Config<S, A, E, M>, prev: S, action: A, fuel: nat): (r: Outcome<S, A, E>)
    ensures r.steps != []
    decreases fuel
  {
    var step := Step(cfg, prev, action);
    if step.changed && cfg.enterAction.Some? then
      if fuel == 0 then Outcome([step], false)
      else
        var rest := Transition(cfg, step.next, cfg.enterAction.value, fuel - 1);
        Outcome([step] + rest.steps, rest.complete)
    else Outcome([step], true)
  }

  /** `after` is the enter call that `before` triggers: `before` changed the
   *  variant, and `after` handles the enter action on the state `before`
   *  published. */
  ghost predicate Follows<S, A, E, M>(cfg: Config<S, A, E, M>, before: StepRecord<S, A, E>, after: StepRecord<S, A, E>)
  {
    before.changed && cfg.enterAction.Some? &&
    after == Step(cfg, before.next, cfg.enterAction.value)
  }

  /** Each step after the first is the enter call its predecessor triggered. */
  ghost predicate Chain<S, A, E, M>(cfg: Config<S, A, E, M>, steps: seq<StepRecord<S, A, E>>)
  {
    forall i :: 0 < i < |steps| ==> Follows(cfg, steps[i - 1], steps[i])
  }

  /** When the first step changes the variant, an enter action exists and
   *  fuel remains, the transition's effects are the first step's followed by
   *  those of the enter cascade, and its final state and completion are the
   *  cascade's. */
  lemma TransitionCascades<S, A, E, M>(cfg: Config<S, A, E, M>, prev: S, action: A, fuel: nat)
    requires Step(cfg, prev, action).changed && cfg.enterAction.Some? && fuel > 0
    ensures var step := Step(cfg, prev, action);
            var r := Transition(cfg, prev, action, fuel);
            var rest := Transition(cfg, step.next, cfg.enterAction.value, fuel - 1);
            r.steps == [step] + rest.steps &&
            r.Final() == rest.Final() && r.complete == rest.complete &&
            EffectsOf(cfg.middlewares, r.steps) == StepEffects(cfg.middlewares, step) + EffectsOf(cfg.middlewares, rest.steps)
  {
    var step := Step(cfg, prev, action);
    var rest := Transition(cfg, step.next, cfg.enterAction.value, fuel - 1);
    var r := Transition(cfg, prev, action, fuel);
    assert r.steps == [step] + rest.steps;
    assert r.steps[|r.steps| - 1] == rest.steps[|rest.steps| - 1];
    EffectsOfCons(cfg.middlewares, step, rest.steps);
  }

  /** The effects of a step put in front of a run are that step's effects
   *  followed by the run's. */
  lemma EffectsOfCons<S, A, E, M>(mws: seq<M>, step: StepRecord<S, A, E>, steps: seq<StepRecord<S, A, E>>)
    ensures EffectsOf(mws, [step] + steps) == StepEffects(mws, step) + EffectsOf(mws, steps)
  {
    assert [step][..0] == [];
    assert EffectsOf(mws, [step]) == StepEffects(mws, step);
    EffectsOfAppend(mws, [step], steps);
  }

  /** Otherwise the transition is its first step alone: it publishes that
   *  step's result and is complete exactly when no enter call is due. */
  lemma TransitionStops<S, A, E, M>(cfg: Config<S, A, E, M>, prev: S, action: A, fuel: nat)
    requires !(Step(cfg, prev, action).changed && cfg.enterAction.Some? && fuel > 0)
    ensures var step := Step(cfg, prev, action);
            var r := Transition(cfg, prev, action, fuel);
            r.steps == [step] &&
            r.Final() == step.next && r.complete == !(step.changed && cfg.enterAction.Some?) &&
            EffectsOf(cfg.middlewares, r.steps) == StepEffects(cfg.middlewares, step)
  {
    var step := Step(cfg, prev, action);
    assert [step][..0] == [];
    assert EffectsOf(cfg.middlewares, [step]) == StepEffects(cfg.middlewares, step);
  }

  /** The steps of a transition form a chain: the first handles `action` on
   *  `prev`; each later one handles the enter action on the state its
   *  predecessor published, and only follows a change of variant; the chain
   *  stops exactly when no enter call is due, unless the fuel runs out
   *  first, and it has at most `fuel + 1` steps. */
  lemma {:induction false} TransitionIsChain<S, A, E, M>(cfg: Config<S, A, E, M>, prev: S, action: A, fuel: nat)
    ensures var r := Transition(cfg, prev, action, fuel);
            0 < |r.steps| <= fuel + 1 &&
            r.steps[0] == Step(cfg, prev, action) &&
            Chain(cfg, r.steps) &&
            (r.complete <==> !(r.steps[|r.steps| - 1].changed && cfg.enterAction.Some?))
    decreases fuel
  {
    var step := Step(cfg, prev, action);
    if step.changed && cfg.enterAction.Some? && fuel > 0 {
      var enter := cfg.enterAction.value;
      TransitionIsChain(cfg, step.next, enter, fuel - 1);
      var rest := Transition(cfg, step.next, enter, fuel - 1);
      var r := Transition(cfg, prev, action, fuel);
      assert r.steps == [step] + rest.steps;
      assert r.complete == rest.complete;
      assert r.steps[0] == step;
      assert r.steps[|r.steps| - 1] == rest.steps[|rest.steps| - 1];
      forall i | 0 < i < |r.steps|
        ensures Follows(cfg, r.steps[i - 1], r.steps[i])
      {
        assert r.steps[i] == rest.steps[i - 1];
        if i > 1 {
          assert r.steps[i - 1] == rest.steps[i - 2];
        }
      }
      assert Chain(cfg, r.steps);
    } else {
      assert Transition(cfg, prev, action, fuel).steps == [step];
    }
  }

  // ---------------------------------------------------------------------
  // Properties of one step
  // ---------------------------------------------------------------------

  /** A step publishes exactly one state, the reducer's first result (never
   *  the exit call's), as its last effect; every event of the step, the
   *  exit call's included, reaches the event stream before it; every
   *  middleware notification of the step carries the step's state and its
   *  triggering action, also during the exit call. */
  lemma StepPublishesOnce<S, A, E, M>(mws: seq<M>, r: StepRecord<S, A, E>)
    ensures var fx := StepEffects(mws, r);
            |fx| > 0 && fx[|fx| - 1] == Published(r.next) &&
            StatesOf(fx) == [r.next] &&
            EventsOf(fx) == r.events + r.exitEvents &&
            EventsOf(fx[..|fx| - 1]) == r.events + r.exitEvents &&
            NotifiesWith(fx, r.prev, r.action)
  {
    var x := EmitEffects(mws, r.prev, r.action, r.events);
    var y := EmitEffects(mws, r.prev, r.action, r.exitEvents);
    var p: seq<Effect<S, A, E, M>> := [Published(r.next)];
    EmitEffectsEvents(mws, r.prev, r.action, r.events);
    EmitEffectsEvents(mws, r.prev, r.action, r.exitEvents);
    EmitEffectsNotifyWith(mws, r.prev, r.action, r.events);
    EmitEffectsNotifyWith(mws, r.prev, r.action, r.exitEvents);
    StatesOfAppend(x, y);
    EventsOfAppend(x, y);
    StatesOfAppend(x + y, p);
    EventsOfAppend(x + y, p);
    assert p[..0] == [];
    NotifiesWithAppend(x, y, r.prev, r.action);
    NotifiesWithAppend(x + y, p, r.prev, r.action);
    assert StepEffects(mws, r)[..|StepEffects(mws, r)| - 1] == x + y;
  }

  /** Same variant before and after: no exit call and no enter cascade; one
   *  state is published, the reducer's result with its field updates, after
   *  the reducer's events. */
  lemma SameVariantPublishesOnce<S, A, E, M>(cfg: Config<S, A, E, M>, prev: S, action: A, fuel: nat)
    requires cfg.variant(cfg.reducer(prev, action).0) == cfg.variant(prev)
    ensures var next := cfg.reducer(prev, action).0;
            var events := cfg.reducer(prev, action).1;
            var r := Transition(cfg, prev, action, fuel);
            r.steps == [Step(cfg, prev, action)] && r.complete &&
            EffectsOf(cfg.middlewares, r.steps)
              == EmitEffects(cfg.middlewares, prev, action, events) + [Published(next)] &&
            StatesOf(EffectsOf(cfg.middlewares, r.steps)) == [next] &&
            EventsOf(EffectsOf(cfg.middlewares, r.steps)) == events
  {
    var step := Step(cfg, prev, action);
    var x := EmitEffects(cfg.middlewares, prev, action, step.events);
    assert EmitEffects<S, A, E, M>(cfg.middlewares, prev, action, []) == [];
    assert x + [] == x;
    assert [step][..0] == [];
    assert EffectsOf(cfg.middlewares, [step]) == StepEffects(cfg.middlewares, step);
    StepPublishesOnce(cfg.middlewares, step);
  }

  /** On a change of variant with an exit action configured, the reducer is
   *  run with the exit action on the previous state; its events come after
   *  the first call's events and before the publication; its returned state
   *  is dropped, so the published state is the first call's result. */
  lemma ExitRunsBeforePublish<S, A, E, M>(cfg: Config<S, A, E, M>, prev: S, action: A)
    requires cfg.variant(cfg.reducer(prev, action).0) != cfg.variant(prev)
    requires cfg.exitAction.Some?
    ensures var next := cfg.reducer(prev, action).0;
            var events := cfg.reducer(prev, action).1;
            var exitEvents := cfg.reducer(prev, cfg.exitAction.value).1;
            var fx := StepEffects(cfg.middlewares, Step(cfg, prev, action));
            fx == EmitEffects(cfg.middlewares, prev, action, events)
                  + EmitEffects(cfg.middlewares, prev, action, exitEvents)
                  + [Published(next)] &&
            EventsOf(fx) == events + exitEvents &&
            StatesOf(fx) == [next]
  {
    StepPublishesOnce(cfg.middlewares, Step(cfg, prev, action));
  }

  /** Without an exit action a change of variant emits only the first call's events. */
  lemma NoExitActionNoExitCall<S, A, E, M>(cfg: Config<S, A, E, M>, prev: S, action: A)
    requires cfg.exitAction.None?
    ensures var next := cfg.reducer(prev, action).0;
            var events := cfg.reducer(prev, action).1;
            StepEffects(cfg.middlewares, Step(cfg, prev, action))
              == EmitEffects(cfg.middlewares, prev, action, events) + [Published(next)]
  {
    var x := EmitEffects(cfg.middlewares, prev, action, cfg.reducer(prev, action).1);
    assert EmitEffects<S, A, E, M>(cfg.middlewares, prev, action, []) == [];
    assert x + [] == x;
  }

  // ---------------------------------------------------------------------
  // Properties of a whole transition
  // ---------------------------------------------------------------------

  lemma {:induction false} EffectsOfAppend<S, A, E, M>(mws: seq<M>, x: seq<StepRecord<S, A, E>>, y: seq<StepRecord<S, A, E>>)
    ensures EffectsOf(mws, x + y) == EffectsOf(mws, x) + EffectsOf(mws, y)
    decreases |y|
  {
    if y == [] {
      assert x + y == x;
    } else {
      var init, last := y[..|y| - 1], y[|y| - 1];
      assert (x + y)[..|x + y| - 1] == x + init;
      assert EffectsOf(mws, x + y) == EffectsOf(mws, x + init) + StepEffects(mws, last);
      EffectsOfAppend(mws, x, init);
      AppendAssoc3(EffectsOf(mws, x), EffectsOf(mws, init), StepEffects(mws, last));
    }
  }

  /** The state-flow history of a run of steps is the sequence of the states
   *  they published, one per step, in order; the run's last effect publishes
   *  the last step's state. */
  lemma {:induction false} EffectsOfPublishes<S, A, E, M>(mws: seq<M>, steps: seq<StepRecord<S, A, E>>)
    ensures |StatesOf(EffectsOf(mws, steps))| == |steps|
    ensures forall i :: 0 <= i < |steps| ==> StatesOf(EffectsOf(mws, steps))[i] == steps[i].next
    ensures steps != [] ==>
              var fx := EffectsOf(mws, steps);
              |fx| > 0 && fx[|fx| - 1] == Published(steps[|steps| - 1].next)
    decreases |steps|
  {
    if steps != [] {
      var init, last := steps[..|steps| - 1], steps[|steps| - 1];
      var before, after := EffectsOf(mws, init), StepEffects(mws, last);
      assert EffectsOf(mws, steps) == before + after;
      EffectsOfPublishes(mws, init);
      StepPublishesOnce(mws, last);
      StatesOfAppend(before, after);
      var states := StatesOf(before + after);
      assert states == StatesOf(before) + [last.next];
      forall i | 0 <= i < |steps|
        ensures states[i] == steps[i].next
      {
        if i < |init| {
          assert states[i] == StatesOf(before)[i];
          assert steps[i] == init[i];
        }
      }
      assert (before + after)[|before + after| - 1] == after[|after| - 1];
    }
  }

  /** The event stream of a run of steps is every step's events followed by
   *  its exit call's events, step after step. */
  lemma {:induction false} EffectsOfEvents<S, A, E, M>(mws: seq<M>, steps: seq<StepRecord<S, A, E>>)
    ensures EventsOf(EffectsOf(mws, steps)) == AllEvents(steps)
    decreases |steps|
  {
    if steps != [] {
      var init := steps[..|steps| - 1];
      EffectsOfEvents(mws, init);
      StepPublishesOnce(mws, steps[|steps| - 1]);
      EventsOfAppend(EffectsOf(mws, init), StepEffects(mws, steps[|steps| - 1]));
    }
  }

  /** The events of a run of steps, in order. */
  function AllEvents<S, A, E>(steps: seq<StepRecord<S, A, E>>): seq<E>
  {
    if steps == [] then []
    else AllEvents(steps[..|steps| - 1]) + steps[|steps| - 1].events + steps[|steps| - 1].exitEvents
  }

  /** An enter cascade starts from the state just published and carries the
   *  enter action, and nothing of it is performed before that publication:
   *  the effects of a transition are those of its first step followed by
   *  those of the cascade. */
  lemma CascadeFollowsPublication<S, A, E, M>(cfg: Config<S, A, E, M>, prev: S, action: A, fuel: nat)
    ensures var first := Step(cfg, prev, action);
            var r := Transition(cfg, prev, action, fuel);
            if first.changed && cfg.enterAction.Some? && fuel > 0 then
              var rest := Transition(cfg, first.next, cfg.enterAction.value, fuel - 1);
              r.steps == [first] + rest.steps &&
              rest.steps[0].prev == first.next && rest.steps[0].action == cfg.enterAction.value &&
              EffectsOf(cfg.middlewares, r.steps)
                == StepEffects(cfg.middlewares, first) + EffectsOf(cfg.middlewares, rest.steps)
            else
              r.steps == [first]
  {
    var first := Step(cfg, prev, action);
    if first.changed && cfg.enterAction.Some? && fuel > 0 {
      TransitionCascades(cfg, prev, action, fuel);
      TransitionIsChain(cfg, first.next, cfg.enterAction.value, fuel - 1);
    } else {
      TransitionStops(cfg, prev, action, fuel);
    }
  }

  /** With a decreasing rank, an enter cascade from `s` needs at most `rank(s)`
   *  nested enter calls. */
  lemma {:induction false} EnterCascadeCompletes<S, A, E, M>(cfg: Config<S, A, E, M>, rank: S -> nat, s: S, fuel: nat)
    requires cfg.enterAction.Some?
    requires forall t :: cfg.variant(cfg.reducer(t, cfg.enterAction.value).0) != cfg.variant(t) ==>
                 rank(cfg.reducer(t, cfg.enterAction.value).0) < rank(t)
    requires rank(s) <= fuel
    ensures Transition(cfg, s, cfg.enterAction.value, fuel).complete
    decreases fuel
  {
    var step := Step(cfg, s, cfg.enterAction.value);
    if step.changed {
      EnterCascadeCompletes(cfg, rank, step.next, fuel - 1);
    }
  }

  /** With a decreasing rank, any dispatch completes when the fuel exceeds
   *  the rank of the reducer's first result. */
  lemma {:induction false} DispatchCompletes<S, A, E, M>(cfg: Config<S, A, E, M>, rank: S -> nat, s: S, action: A, fuel: nat)
    requires cfg.enterAction.Some?
    requires forall t :: cfg.variant(cfg.reducer(t, cfg.enterAction.value).0) != cfg.variant(t) ==>
                 rank(cfg.reducer(t, cfg.enterAction.value).0) < rank(t)
    requires rank(cfg.reducer(s, action).0) < fuel
    ensures Transition(cfg, s, action, fuel).complete
  {
    var step := Step(cfg, s, action);
    if step.changed {
      EnterCascadeCompletes(cfg, rank, step.next, fuel - 1);
    }
  }

  // ---------------------------------------------------------------------
  // The store
  // ---------------------------------------------------------------------

  /** `DefaultStore`: `current` is the value of the state flow, `log` the
   *  effects performed so far.  Every call of a method here runs to
   *  completion before the next one starts, which is what the store's mutex
   *  guarantees between dispatches. */
  class DefaultStore<S, A, E, M> {
    const cfg: Config<S, A, E, M>
    const initialState: S
    var current: S
    var log: seq<Effect<S, A, E, M>>

    /** The current state is the last one published (or the initial state). */
    ghost predicate Valid()
      reads this
    {
      current == LastPublished(initialState, log)
    }

    /** `init`: dispatches the enter action once, if there is one. */
    constructor (cfg: Config<S, A, E, M>, initialState: S, fuel: nat)
      ensures Valid()
      ensures this.cfg == cfg && this.initialState == initialState
      ensures cfg.enterAction.None? ==> current == initialState && log == []
      ensures cfg.enterAction.Some? ==>
                var r := Transition(cfg, initialState, cfg.enterAction.value, fuel);
                current == r.Final() && log == EffectsOf(cfg.middlewares, r.steps)
    {
      this.cfg := cfg;
      this.initialState := initialState;
      current := initialState;
      log := [];
      new;
      if cfg.enterAction.Some? {
        var _ := Dispatch(cfg.enterAction.value, fuel);
      }
    }

    /** `currentState`: the value of the state flow. */
    function CurrentState(): (s: S)
      reads this
      requires Valid()
      ensures s == LastPublished(initialState, log)
    {
      current
    }

    /** `dispatch(action)`: one `changeState(action)` under the lock, run to
     *  completion. */
    method Dispatch(action: A, fuel: nat) returns (complete: bool)
      requires Valid()
      modifies this
      ensures Valid()
      ensures var r := Transition(cfg, old(current), action, fuel);
              current == r.Final() && log == old(log) + EffectsOf(cfg.middlewares, r.steps) &&
              complete == r.complete
    {
      complete := ChangeState(action, fuel);
      ghost var r := Transition(cfg, old(current), action, fuel);
      ghost var fx := EffectsOf(cfg.middlewares, r.steps);
      EffectsOfPublishes(cfg.middlewares, r.steps);
      assert log[|log| - 1] == fx[|fx| - 1];
    }

    /** `changeState(action)`, with at most `fuel` nested enter calls. */
    method ChangeState(action: A, fuel: nat) returns (complete: bool)
      modifies this`current, this`log
      ensures var r := Transition(cfg, old(current), action, fuel);
              current == r.Final() && log == old(log) + EffectsOf(cfg.middlewares, r.steps) &&
              complete == r.complete
      decreases fuel
    {
      ghost var prev := current;
      var changed := PublishStep(action);
      if changed && cfg.enterAction.Some? {
        if fuel == 0 {
          TransitionStops(cfg, prev, action, fuel);
          complete := false;
        } else {
          complete := ChangeState(cfg.enterAction.value, fuel - 1);
          CascadeLog(cfg, prev, action, fuel, old(log), log);
        }
      } else {
        TransitionStops(cfg, prev, action, fuel);
        complete := true;
      }
    }

    /** The log after a cascade is the log before it extended by the
     *  transition's effects. */
    static lemma CascadeLog(cfg: Config<S, A, E, M>, prev: S, action: A, fuel: nat,
                            before: seq<Effect<S, A, E, M>>, after: seq<Effect<S, A, E, M>>)
      requires Step(cfg, prev, action).changed && cfg.enterAction.Some? && fuel > 0
      requires var step := Step(cfg, prev, action);
               var rest := Transition(cfg, step.next, cfg.enterAction.value, fuel - 1);
               after == before + StepEffects(cfg.middlewares, step) + EffectsOf(cfg.middlewares, rest.steps)
      ensures var r := Transition(cfg, prev, action, fuel);
              var rest := Transition(cfg, Step(cfg, prev, action).next, cfg.enterAction.value, fuel - 1);
              after == before + EffectsOf(cfg.middlewares, r.steps) &&
              r.Final() == rest.Final() && r.complete == rest.complete
    {
      var step := Step(cfg, prev, action);
      var rest := Transition(cfg, step.next, cfg.enterAction.value, fuel - 1);
      TransitionCascades(cfg, prev, action, fuel);
      AppendAssoc3(before, StepEffects(cfg.middlewares, step), EffectsOf(cfg.middlewares, rest.steps));
    }

    /** One `changeState(action)` up to the publication of the new state:
     *  the reducer call and its events, the exit call's events on a change of
     *  variant, then the publication.  Returns whether the variant changed. */
    method PublishStep(action: A) returns (changed: bool)
      modifies this`current, this`log
      ensures var step := Step(cfg, old(current), action);
              current == step.next && changed == step.changed &&
              log == old(log) + StepEffects(cfg.middlewares, step)
    {
      var prevState := current;
      ghost var step := Step(cfg, prevState, action);
      var result := cfg.reducer(prevState, action);
      var nextState := result.0;
      Emit(prevState, action, result.1);
      changed := cfg.variant(prevState) != cfg.variant(nextState);
      if changed && cfg.exitAction.Some? {
        var exitResult := cfg.reducer(prevState, cfg.exitAction.value);
        Emit(prevState, action, exitResult.1);
      } else {
        EmitNothing(prevState, action);
      }
      current := nextState;
      log := log + [Published(nextState)];
      AppendAssoc(old(log), EmitEffects(cfg.middlewares, prevState, action, step.events),
                  EmitEffects(cfg.middlewares, prevState, action, step.exitEvents), [Published(nextState)]);
    }

    /** Emitting no events changes nothing. */
    lemma EmitNothing(prevState: S, action: A)
      ensures log + EmitEffects(cfg.middlewares, prevState, action, []) == log
    {
      assert EmitEffects<S, A, E, M>(cfg.middlewares, prevState, action, []) == [];
    }

    /** The emitter: each event goes to the event stream, then to every
     *  middleware in list order, with the state and action of the call. */
    method Emit(prevState: S, action: A, events: seq<E>)
      modifies this`log
      ensures log == old(log) + EmitEffects(cfg.middlewares, prevState, action, events)
    {
      var i := 0;
      while i < |events|
        invariant 0 <= i <= |events|
        invariant log == old(log) + EmitEffects(cfg.middlewares, prevState, action, events[..i])
      {
        var event := events[i];
        log := log + [EventEmitted(event)];
        NotifyMiddlewares(prevState, action, event);
        EmitEffectsSnoc(cfg.middlewares, prevState, action, events[..i], event);
        AppendBlock(old(log), EmitEffects(cfg.middlewares, prevState, action, events[..i]),
                    [EventEmitted(event)], NotifyAll(cfg.middlewares, prevState, action, event));
        assert events[..i + 1] == events[..i] + [event];
        i := i + 1;
      }
      assert events[..i] == events;
    }

    /** `middlewares.forEach { it.onEventEmitted(prevState, action, event) }`. */
    method NotifyMiddlewares(prevState: S, action: A, event: E)
      modifies this`log
      ensures log == old(log) + NotifyAll(cfg.middlewares, prevState, action, event)
    {
      var mws := cfg.middlewares;
      var j := 0;
      while j < |mws|
        invariant 0 <= j <= |mws|
        invariant log == old(log) + NotifyAll(mws[..j], prevState, action, event)
      {
        NotifyAllSnoc(mws[..j], prevState, action, event, mws[j]);
        assert mws[..j + 1] == mws[..j] + [mws[j]];
        log := log + [Notified(mws[j], prevState, action, event)];
        j := j + 1;
      }
      assert mws[..j] == mws;
    }
  }
}
