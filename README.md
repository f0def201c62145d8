# marron store, modelled in Dafny

This project models the store of the marron prototype, a small Kotlin
Multiplatform state-machine library.

A `DefaultStore` holds the current state of a screen and accepts actions
through `dispatch`. A reducer, `onDispatched`, computes the next state and
may emit events through an emitter. Each emitted event goes to the event
stream, and then to every middleware's `onEventEmitted` hook in list order.
When the reducer's result is a different case of the sealed state type (a
different *variant*), the store runs the reducer once more with the exit
action and keeps only that call's events. It then publishes the new state
and re-enters itself with the enter action. This enter cascade lets
`Initial` move to `Loading` and on to `Stable` without a caller dispatching
each step.

The project has four modules:

- `StoreEngine` (`engine.dfy`) is the generic engine.
  - `Step` and `Transition` are the pure specification of one
    `changeState` call and its enter cascade.
  - The class `DefaultStore` does the same work step by step. It has a
    field for the current state and an ordered log of effects:
    `EventEmitted`, `Notified` (a middleware hook call) and `Published`
    (a state sent to the state flow).
  - Each method is proved against the specification. The ordering and
    "exactly once" properties are lemmas about the specification.
  - `StatesOf` and `EventsOf` project the log onto the state-flow history
    and the event stream.
- `MainStore` (`main_store.dfy`) is the example store in Store.kt.
  - It holds the sealed types `MainState`, `MainAction` and `MainEvent`,
    its reducer, and its constructor arguments (enter action `Enter`, exit
    action `Exit`, one logging middleware).
  - Lemmas describe the cascade that construction starts, termination,
    and the handling of a click.
- `TarteMainStore` (`tarte_main_store.dfy`) is the second `MainStore`, in
  MainStore.kt. It has its own sealed types and its three reducers
  `onEntered`, `onExited` and `onDispatched`.
- `KotlinInt` (`kotlin_int.dfy`) holds Kotlin's `Int` and `Long`.
  `clickCounter + 1` wraps around modulo 2^32.

Modelling choices:

- **Reducer.** A reducer is a pure function from state and action to the
  next state and the events it emitted, in order. The `?: state`
  fallback is already applied.
- **Variant.** `::class.qualifiedName` is replaced by a variant function:
  two states have the same variant exactly when they are the same case of
  the sealed type.
- **Dispatch.** `dispatch` runs to completion before the next one starts,
  which is what the store's mutex guarantees.
- **Fuel.** A generic reducer need not stop cascading, so `Transition` and
  `ChangeState` take fuel, a bound on the number of nested enter calls.
  They report whether the cascade completed within it.
  - `DispatchCompletes` proves completion for any reducer that has a rank
    which every enter-triggered variant change lowers.
  - `MainStore.DispatchCompletesWithin3` applies it with the rank
    Initial 2 > Loading 1 > Stable 0.

The two files handle a click differently. In Store.kt a click on `Stable`
emits nothing (`MainStore.ClickPublishesOnce`); in MainStore.kt it emits one
toast (`TarteMainStore.ClickToasts`).

## Model

| member | source | states |
|---|---|---|
| StoreEngine.NotifyAll | shared/src/commonMain/kotlin/io/github/hkusu/marron/Store.kt:160-162 | definition: the notifications `middlewares.forEach` makes for one event, in list order; its properties are `NotifyAllInOrder` and `NotifyAllSilent` |
| StoreEngine.EmitEffects | shared/src/commonMain/kotlin/io/github/hkusu/marron/Store.kt:158-163 | definition: the effects of the emitter for a list of events, each event sent to the stream and then to every middleware; its properties are the `EmitEffects*` lemmas |
| StoreEngine.Step | shared/src/commonMain/kotlin/io/github/hkusu/marron/Store.kt:155-174 | definition: one `changeState` up to publication, the reducer call from the current state, the class comparison, and the exit call's events when the class changed and an exit action exists |
| StoreEngine.StepEffects | shared/src/commonMain/kotlin/io/github/hkusu/marron/Store.kt:156-176 | definition: the effects of one step in the order the store performs them, the reducer's events, the exit call's events, then the publication; `StepPublishesOnce` states their properties |
| StoreEngine.Transition | shared/src/commonMain/kotlin/io/github/hkusu/marron/Store.kt:155-181 | every transition has at least one step, since `changeState` always calls the reducer and publishes; `TransitionIsChain`, `TransitionCascades` and `TransitionStops` characterise it fully |
| StoreEngine.DefaultStore.constructor | shared/src/commonMain/kotlin/io/github/hkusu/marron/Store.kt:110-129 | a new store holds the initial state and an empty log when there is no enter action; otherwise it has run one full transition of the enter action from the initial state, and its state and log are that transition's final state and effects |
| StoreEngine.DefaultStore.CurrentState | shared/src/commonMain/kotlin/io/github/hkusu/marron/Store.kt:123 | the current state is the last state published to the state flow, or the initial state when none was |
| StoreEngine.DefaultStore.Dispatch | shared/src/commonMain/kotlin/io/github/hkusu/marron/Store.kt:131-137 | one dispatch runs a whole `changeState` with its cascade: the new state is the transition's final state, the log grows by exactly its effects, and the current state stays the last published one |
| StoreEngine.DefaultStore.ChangeState | shared/src/commonMain/kotlin/io/github/hkusu/marron/Store.kt:155-181 | the imperative `changeState` (reducer call, exit call, publication, recursive enter call) performs exactly the specified transition: final state, appended effects and completion agree with `Transition` |
| StoreEngine.DefaultStore.PublishStep | shared/src/commonMain/kotlin/io/github/hkusu/marron/Store.kt:156-176 | the first part of `changeState` (reducer call, exit call on a variant change, state update) leaves the reducer's result as the current state and appends exactly the step's effects; it reports whether the variant changed |
| StoreEngine.DefaultStore.Emit | shared/src/commonMain/kotlin/io/github/hkusu/marron/Store.kt:158-163 | the emitter appends, for each event in order, the event and then one notification per middleware |
| StoreEngine.DefaultStore.NotifyMiddlewares | shared/src/commonMain/kotlin/io/github/hkusu/marron/Store.kt:160-162 | `middlewares.forEach` appends one `onEventEmitted` call per middleware, in list order, with the call's state, action and event |
| StoreEngine.NotifyAllInOrder | shared/src/commonMain/kotlin/io/github/hkusu/marron/Store.kt:160-162 | each middleware is notified exactly once, and the i-th notification goes to the i-th middleware |
| StoreEngine.NotifyAllSilent | shared/src/commonMain/kotlin/io/github/hkusu/marron/Store.kt:160-162 | middleware notifications neither emit events nor publish states, and all carry the reducer call's state and action |
| StoreEngine.EmitEffectsEvents | shared/src/commonMain/kotlin/io/github/hkusu/marron/Store.kt:158-163 | emitting a list of events sends exactly that list to the event stream, in order, and publishes nothing |
| StoreEngine.EmitEffectsNotifyWith | shared/src/commonMain/kotlin/io/github/hkusu/marron/Store.kt:158-163 | every notification made by one emitter carries the state and action the emitter was built with |
| StoreEngine.EmitEffectsLength | shared/src/commonMain/kotlin/io/github/hkusu/marron/Store.kt:158-163 | emitting k events with n middlewares produces k * (n + 1) effects |
| StoreEngine.EmitEffectsAppend | shared/src/commonMain/kotlin/io/github/hkusu/marron/Store.kt:158-163 | one emitter used for `xs` and then for `ys` produces the same effects as for `xs + ys`: each event's effects depend only on that event |
| StoreEngine.EmitEffectsAround | shared/src/commonMain/kotlin/io/github/hkusu/marron/Store.kt:158-163 | the k-th event has one block of the log to itself, after the effects of the earlier events and before those of the later ones: the event, then its notifications in middleware order |
| StoreEngine.TransitionIsChain | shared/src/commonMain/kotlin/io/github/hkusu/marron/Store.kt:165-180 | the first step handles the dispatched action; each later step handles the enter action on the state its predecessor published and follows a variant change; the cascade stops exactly when no enter call is due (unless out of fuel); at most fuel + 1 steps |
| StoreEngine.TransitionCascades | shared/src/commonMain/kotlin/io/github/hkusu/marron/Store.kt:176-180 | after a variant change, with an enter action and fuel left, a transition is its first step followed by the enter cascade from the published state: its effects are the step's then the cascade's, and its final state and completion are the cascade's |
| StoreEngine.TransitionStops | shared/src/commonMain/kotlin/io/github/hkusu/marron/Store.kt:165-180 | otherwise a transition is its first step alone: it ends in the reducer's result, has that step's effects, and is complete exactly when no enter call is due |
| StoreEngine.StepPublishesOnce | shared/src/commonMain/kotlin/io/github/hkusu/marron/Store.kt:158-176 | a step publishes exactly one state, the first reducer call's result, as its last effect; all of its events (exit call's included) are sent before it; all its notifications carry the step's state and the triggering action, including during the exit call |
| StoreEngine.SameVariantPublishesOnce | shared/src/commonMain/kotlin/io/github/hkusu/marron/Store.kt:165-180 | when the reducer keeps the variant, there is no exit call and no cascade; the transition is complete and publishes exactly the reducer's result, field updates included, after its events |
| StoreEngine.ExitRunsBeforePublish | shared/src/commonMain/kotlin/io/github/hkusu/marron/Store.kt:165-176 | on a variant change with an exit action, the exit call's events follow the first call's and precede the publication; the exit call's returned state is never published |
| StoreEngine.NoExitActionNoExitCall | shared/src/commonMain/kotlin/io/github/hkusu/marron/Store.kt:166 | without an exit action, a step emits only the first reducer call's events before publishing |
| StoreEngine.EffectsOfPublishes | shared/src/commonMain/kotlin/io/github/hkusu/marron/Store.kt:176-179 | the state-flow history of a transition is one published state per step, in order, and its last effect publishes the final state |
| StoreEngine.EffectsOfEvents | shared/src/commonMain/kotlin/io/github/hkusu/marron/Store.kt:158-179 | the event stream of a transition is each step's reducer events followed by its exit events, step after step |
| StoreEngine.CascadeFollowsPublication | shared/src/commonMain/kotlin/io/github/hkusu/marron/Store.kt:176-179 | the enter cascade starts only after a variant change and with an enter action, from the state just published, with the enter action, and all of its effects come after that publication |
| StoreEngine.EnterCascadeCompletes | shared/src/commonMain/kotlin/io/github/hkusu/marron/Store.kt:178-179 | if every enter-triggered variant change lowers a rank, the cascade from a state completes within its rank of nested enter calls |
| StoreEngine.DispatchCompletes | shared/src/commonMain/kotlin/io/github/hkusu/marron/Store.kt:178-179 | under the same rank condition, any dispatch completes once the fuel exceeds the rank of the reducer's first result |
| MainStore.OnDispatched | shared/src/commonMain/kotlin/io/github/hkusu/marron/Store.kt:42-78 | the reducer emits at most one event, and only for `Enter` on `Stable`, which keeps the state; only `Enter` changes the class of a state, never out of `Stable`; a `Stable` state keeps its data list |
| MainStore.Variant | shared/src/commonMain/kotlin/io/github/hkusu/marron/Store.kt:165 | definition: the class of a `MainState`, in place of `::class.qualifiedName`; `VariantIsClass` states its meaning |
| MainStore.VariantIsClass | shared/src/commonMain/kotlin/io/github/hkusu/marron/Store.kt:165 | two states have the same variant exactly when they are instances of the same class of the sealed type |
| MainStore.StoreConfig | shared/src/commonMain/kotlin/io/github/hkusu/marron/Store.kt:21-41 | definition: `MainStore`'s constructor arguments, the reducer `OnDispatched`, enter action `Enter`, exit action `Exit` and the one logging middleware |
| KotlinInt.Increment | shared/src/commonMain/kotlin/io/github/hkusu/marron/Store.kt:72 | `clickCounter + 1` is the sum reduced to the 32-bit two's-complement range |
| MainStore.ClickCounts | shared/src/commonMain/kotlin/io/github/hkusu/marron/Store.kt:70-73 | a click on `Stable` keeps the data list, adds one to the counter (exactly one below `Int.MAX_VALUE`) and emits nothing |
| MainStore.UnlistedActionsIgnored | shared/src/commonMain/kotlin/io/github/hkusu/marron/Store.kt:42-78 | `Exit` in every state, and `Click` outside `Stable`, leave the state unchanged and emit nothing |
| MainStore.EnterLowersRank | shared/src/commonMain/kotlin/io/github/hkusu/marron/Store.kt:43-68 | every variant change the reducer makes on `Enter` lowers the rank Initial 2 > Loading 1 > Stable 0 |
| MainStore.LaunchCascade | shared/src/commonMain/kotlin/io/github/hkusu/marron/Store.kt:127-129 | the `Enter` dispatched at construction moves Initial to Loading and then to `Stable([], 0)`, whose own `Enter` keeps the variant, so the cascade completes there |
| MainStore.LaunchEffects | shared/src/commonMain/kotlin/io/github/hkusu/marron/Store.kt:43-68 | the construction cascade publishes Loading, `Stable([], 0)` and `Stable([], 0)` again, and emits exactly one toast, "データがロードされました" |
| MainStore.DispatchCompletesWithin3 | shared/src/commonMain/kotlin/io/github/hkusu/marron/Store.kt:178-179 | with this reducer every dispatch, from any state, completes within three nested enter calls |
| MainStore.ClickPublishesOnce | shared/src/commonMain/kotlin/io/github/hkusu/marron/Store.kt:70-73 | a click on `Stable` is a single complete step whose only effect is publishing the counted state |
| MainStore.StableEnterToasts | shared/src/commonMain/kotlin/io/github/hkusu/marron/Store.kt:64-68 | `Enter` on `Stable` emits one toast, notifies the logger with the stable state and `Enter`, and republishes the same state |
| MainStore.LaunchAndClick | shared/src/commonMain/kotlin/io/github/hkusu/marron/Store.kt:20-41 | a store built with `MainStore`'s arguments and then clicked holds `Stable([], 1)` |
| TarteMainStore.OnEntered | shared/src/commonMain/kotlin/io/github/hkusu/marron/MainStore.kt:52-66 | entering emits nothing, keeps a `Stable` state and otherwise moves strictly closer to `Stable` |
| TarteMainStore.OnExited | shared/src/commonMain/kotlin/io/github/hkusu/marron/MainStore.kt:68-69 | leaving a state emits no event |
| TarteMainStore.OnDispatched | shared/src/commonMain/kotlin/io/github/hkusu/marron/MainStore.kt:71-82 | a dispatch never moves into or out of `Stable` and emits at most one event |
| TarteMainStore.EnterInitial | shared/src/commonMain/kotlin/io/github/hkusu/marron/MainStore.kt:52-56 | entering `Initial` gives `Loading` and emits nothing |
| TarteMainStore.EnterLoading | shared/src/commonMain/kotlin/io/github/hkusu/marron/MainStore.kt:58-63 | entering `Loading` gives `Stable` with an empty list and counter 0 |
| TarteMainStore.EnterSettles | shared/src/commonMain/kotlin/io/github/hkusu/marron/MainStore.kt:52-66 | repeated entering reaches `Stable([], 0)` from `Initial` or `Loading` within two calls, keeps a `Stable` state unchanged, and emits nothing |
| TarteMainStore.ClickToasts | shared/src/commonMain/kotlin/io/github/hkusu/marron/MainStore.kt:72-78 | a click on `Stable` emits exactly one toast, "クリクされました", keeps the list and adds one to the counter modulo 2^32 |
| TarteMainStore.ClickIgnoredUntilStable | shared/src/commonMain/kotlin/io/github/hkusu/marron/MainStore.kt:81-82 | in `Initial` or `Loading` a click returns the same state and emits nothing |
| TarteMainStore.ClicksCount | shared/src/commonMain/kotlin/io/github/hkusu/marron/MainStore.kt:71-82 | n clicks on `Stable` keep the list, advance the counter by n modulo 2^32 and emit one toast per click |
| TarteMainStore.DispatchIgnoredUntilStable | shared/src/commonMain/kotlin/io/github/hkusu/marron/MainStore.kt:81-82 | any number of clicks before `Stable` change nothing and emit nothing |

## Left out

- Coroutines are not modelled: the coroutine scope, `launch`, `SupervisorJob`, `dispose`, `collect` and the mutex itself. A dispatch runs to completion before the next starts, so interleavings and cancellation are not captured.
- Flow semantics are not modelled. The state flow is a current value plus the published history in the effect log, and the event flow is the `EventEmitted` entries. Replay, conflation of equal states and dropping events nobody collects are library behaviour. In particular, the log records the second publication of `Stable([], 0)` at construction, which a `StateFlow` would conflate.
- `delay(5_000)` in both reducers is an instantaneous step.
- The middlewares' `println` calls are not modelled. The log records only that a hook was called, and with which arguments.
- `DefaultStore.onDispatched`, which throws `TODO`, is not modelled: a store is always built with a reducer.
- `Middleware.onDispatched` is never called by the engine, so the model has no effect for it.
- `::class.qualifiedName` is reflection. It is replaced by a variant function per state type.
- The reducer's events are replayed through the emitter after the reducer returns. In the source they are emitted while it runs. A reducer is pure apart from `emit`, so the order of effects is the same.
- StoreEngine.Config: reducers and middleware hooks are total functions here. In the source a throw from `onDispatched` or from `onEventEmitted` aborts the rest of `changeState`: the events emitted and the states published so far stay, no further state is published, the lock is released and the dispatch's coroutine fails. The model has no such abandoned transition.
- StoreEngine.Transition: the enter cascade is bounded by fuel for a generic reducer. A cascade that never ends is reported as incomplete, not modelled as divergence.
- The `tarte` library that MainStore.kt builds on (`tarte.DefaultStore`, `start()`, the `runAfter*` middleware hooks and the `middlewares` override) is not part of this model. Only that file's reducers and types are modelled, and nothing is assumed about when the library calls `onEntered` or `onExited`.
