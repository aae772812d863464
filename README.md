# rxpm presentation-model core in Dafny

This project models the core of the `rxpm` library, which ships inside the
knx-overlord Android application. A *presentation model* (PM) has a lifecycle:
CREATED, BINDED, RESUMED, PAUSED, UNBINDED, DESTROYED. The values arrive through a
behavior relay and are shown through a `distinctUntilChanged` stream. A transition
handler reacts to each shown value until DESTROYED. It updates the `unbind` and
`paused` flags and runs the matching hook. PAUSED, UNBINDED and DESTROYED each
also clear one of three subscription registries.

On top of that the model covers:

- **Child models.** `attachToParent` replays a synthetic start of the parent's
  lifecycle into the child. `detachFromParent` drives the child down to DESTROYED.
- **`State<T>`.** A reactive property with an optional diff strategy and an
  optional state source. It can be bound to a view through
  `BufferSingleValueWhileIdleOperator`.
- **The idle buffer.** While the model is paused, the observer holds back only the
  newest value and flushes it on resume.
- **`DialogControl`.** A child PM whose `displayed` state alternates between
  `Absent` and `Displayed(data)`. Its `showForResult` requests end either with the
  first result sent or empty on dismissal.
- **`PmActivityDelegate`.** It maps activity callbacks to lifecycle values, and on
  `onDestroy` it decides from its `RetainMode` whether the model is destroyed or
  retained.

## Structure

- Streams become sequences.
  - `Reactive.DistinctUntilChanged(s, same)` is the filter. It compares each input
    with the input just before it.
  - A stream's history is the sequence of everything it has emitted.
- Each object the source updates in place becomes a `class` with those fields:
  `PresentationModel`, `State`, `ObserverWithBuffer`, `DialogControl`,
  `PmActivityDelegate`, and `Bound` for a view consumer bound to a `State`.
  - `PresentationModel`, `ObserverWithBuffer` and `DialogControl` have a
    `Current()` that reads the fields into a value: `ModelState`, `BufferState` or
    `DialogState`.
  - Their state-changing methods are proved to move `Current()` by a pure step
    function: `Step`, `OnNextStep`, `ShowStep`, and so on. The lemmas about those
    step functions carry the properties.
  - A few methods combine a step with something else. `AttachToParent` runs
    `Steps` over the attach prefix and then registers the parent link.
    `FollowParent` steps only while that link is registered.
    `NewDialogControl` attaches a fresh control and may fail.
  - `PmActivityDelegate`'s methods are stated as `Step` or `Steps` of the model
    they hold.
  - `State` and `Bound` are small, and their methods state their new fields one
    by one. `Bound` moves its buffer by `OnNextStep` and `OnIdleStep`.
- Work that Rx would deliver from another object's stream is an explicit method.
  `FollowParent` delivers the parent's lifecycle value to a child. `OnLifecycle`
  and `OnSourceNext` serve `state()`. `Bound.OnRelay` is the `State`'s relay
  reaching a bound view consumer, and `Bound.OnPaused` is the model's `paused`
  relay reaching that consumer's idle buffer.
- The hooks (`onCreate()` … `onDestroy()`) are open methods meant for subclasses.
  The model records which hooks ran as the trace `hooks`.
- `IsNext` and `LegalPath` describe the order in which a host is expected to drive
  the lifecycle.
  - The library's documentation calls that order strict.
  - The code does not enforce it: the consumer accepts any value, and only
    consecutive duplicates are collapsed.
  - The model follows the code. No operation requires a legal order, and the
    lemmas that need one say so in their own `requires`.
- `PmActivityDelegate.OnStart` and `OnStop` do nothing, as in the source, and so
  carry no contract.

## Model

| member | source | states |
|---|---|---|
| Reactive.DistinctUntilChanged | rxpm/src/main/kotlin/me/dmdev/rxpm/PresentationModel.kt:58 | the filtered stream is no longer than its input and starts with the input's first value |
| Reactive.DistinctUntilChangedAppend | rxpm/src/main/kotlin/me/dmdev/rxpm/State.kt:75-77 | one more input is emitted exactly when the comparer does not match it with the previous input |
| Reactive.DistinctUntilChangedPrefix | rxpm/src/main/kotlin/me/dmdev/rxpm/State.kt:75-77 | the filter is causal: output for a prefix stays a prefix of later output |
| Reactive.DistinctUntilChangedSeparatesNeighbours | rxpm/src/main/kotlin/me/dmdev/rxpm/State.kt:75-77 | with an equivalence comparer, no two neighbouring outputs are alike and the newest output is alike to the newest input |
| Reactive.DistinctHasNoAdjacentDuplicates | rxpm/src/main/kotlin/me/dmdev/rxpm/PresentationModel.kt:58 | the lifecycle stream never shows the same value twice in a row |
| Reactive.DistinctKeepsLast | rxpm/src/main/kotlin/me/dmdev/rxpm/PresentationModel.kt:58-66 | the newest shown lifecycle value equals the relay's newest value |
| Reactive.DistinctOfDuplicateFree | rxpm/src/main/kotlin/me/dmdev/rxpm/PresentationModel.kt:58 | an input without repeated neighbours passes unchanged |
| Reactive.DistinctAppend | rxpm/src/main/kotlin/me/dmdev/rxpm/PresentationModel.kt:58-59 | one more accepted value is shown exactly when it differs from the relay's newest value |
| Reactive.DistinctIdempotent | rxpm/src/main/kotlin/me/dmdev/rxpm/PresentationModel.kt:58 | filtering twice equals filtering once |
| Reactive.DistinctPrefix | rxpm/src/main/kotlin/me/dmdev/rxpm/PresentationModel.kt:58 | what the lifecycle stream has shown stays a prefix of what it shows later |
| Reactive.DistinctCollapsesRepeat | rxpm/src/main/kotlin/me/dmdev/rxpm/PresentationModel.kt:58 | accepting a value twice in a row shows it once |
| Reactive.DistinctCollapsesRepeatWithin | rxpm/src/main/kotlin/me/dmdev/rxpm/PresentationModel.kt:58 | a value repeated anywhere in the history is shown once, whatever follows |
| Reactive.DistinctOfDoubled | rxpm/src/test/kotlin/me/dmdev/rxpm/delegate/CommonDelegateTest.kt:109-134 | calling every lifecycle step twice shows the same stream as calling each once |
| Lifecycles.LegalPathPassesDistinct | rxpm/src/main/kotlin/me/dmdev/rxpm/PresentationModel.kt:43-58 | a lifecycle driven in the legal order passes the distinct filter unchanged |
| Lifecycles.HooksStopAfterDestroyed | rxpm/src/main/kotlin/me/dmdev/rxpm/PresentationModel.kt:68-71 | once the handler has seen DESTROYED, later values reach no hook (`takeUntil`) |
| Lifecycles.AttachPrefix | rxpm/src/main/kotlin/me/dmdev/rxpm/PresentationModel.kt:152-188 | attaching fails with IllegalState exactly under a destroyed parent; otherwise the child receives a prefix of CREATED, BINDED, RESUMED that ends at the parent's state for CREATED/BINDED/RESUMED, and from which every next step of the parent is a legal step of the child |
| Lifecycles.ChildFollowsLegally | rxpm/src/main/kotlin/me/dmdev/rxpm/PresentationModel.kt:152-184 | a child attached to a parent that then moves legally receives a legal lifecycle starting at CREATED, and its filter drops nothing |
| Lifecycles.DetachSuffix | rxpm/src/main/kotlin/me/dmdev/rxpm/PresentationModel.kt:203-236 | detaching issues nothing when not created or already destroyed; otherwise a legal continuation that ends at its only DESTROYED |
| Lifecycles.DetachSuffixIsShortest | rxpm/src/main/kotlin/me/dmdev/rxpm/PresentationModel.kt:203-236 | no legal path reaches DESTROYED in fewer steps than detaching takes |
| Lifecycles.StepConsistent | rxpm/src/main/kotlin/me/dmdev/rxpm/PresentationModel.kt:51-102 | one accepted value keeps relay, stream, hook trace, flags and registry invariant together |
| Lifecycles.StepsConsistent | rxpm/src/main/kotlin/me/dmdev/rxpm/PresentationModel.kt:51-102 | any sequence of accepted values keeps that invariant, and the history is the old one plus the new values |
| Lifecycles.StepsAccepted | rxpm/src/main/kotlin/me/dmdev/rxpm/PresentationModel.kt:59 | accepted values are appended to the relay's history in order |
| Lifecycles.CurrentIsLastEmitted | rxpm/src/main/kotlin/me/dmdev/rxpm/PresentationModel.kt:58-66 | `currentLifecycleState` is the newest value the lifecycle stream has shown |
| Lifecycles.HooksNeverRepeat | rxpm/src/main/kotlin/me/dmdev/rxpm/PresentationModel.kt:58-102 | no hook runs twice in a row |
| Lifecycles.StepAfterDestroyed | rxpm/src/main/kotlin/me/dmdev/rxpm/PresentationModel.kt:68-71 | after the DESTROYED hook, accepting a value changes no hook, flag or registry |
| Lifecycles.DestroyedOnlyLast | rxpm/src/main/kotlin/me/dmdev/rxpm/PresentationModel.kt:43-45 | on a legal path DESTROYED can only come last |
| Lifecycles.LegalStepsRunEveryHook | rxpm/src/main/kotlin/me/dmdev/rxpm/PresentationModel.kt:68-102 | along a legal path from a live model every accepted value runs exactly its own hook, in order |
| Lifecycles.PausedOnLegalPath | rxpm/src/main/kotlin/me/dmdev/rxpm/PresentationModel.kt:81-89 | on a legal path `paused` is false exactly while the model is RESUMED |
| Lifecycles.UnbindOnLegalPath | rxpm/src/main/kotlin/me/dmdev/rxpm/PresentationModel.kt:77-94 | on a legal path from CREATED `unbind` is true exactly when not BINDED, RESUMED or PAUSED |
| Lifecycles.AttachRunsPrefixHooks | rxpm/src/main/kotlin/me/dmdev/rxpm/PresentationModel.kt:146-190 | a fresh child under a live parent runs exactly the hooks of the prefix it receives and keeps its destroy registry |
| Lifecycles.StartRunsEveryHook | rxpm/src/main/kotlin/me/dmdev/rxpm/PresentationModel.kt:68-102 | a model that has accepted nothing, driven along a legal path short of DESTROYED, runs exactly that path's hooks and keeps its destroy registry |
| Lifecycles.StepsKeepDestroyRegistry | rxpm/src/main/kotlin/me/dmdev/rxpm/PresentationModel.kt:95-96 | values other than DESTROYED never clear the destroy registry |
| Lifecycles.StepsKeepPauseRegistry | rxpm/src/main/kotlin/me/dmdev/rxpm/PresentationModel.kt:85-88 | values other than PAUSED never clear the pause registry |
| Lifecycles.StepsKeepUnbindRegistry | rxpm/src/main/kotlin/me/dmdev/rxpm/PresentationModel.kt:90-93 | values other than UNBINDED never clear the unbind registry |
| Lifecycles.DetachRunsToDestroyed | rxpm/src/main/kotlin/me/dmdev/rxpm/PresentationModel.kt:203-236 | detaching a live model runs the remaining hooks down to DESTROYED and empties the destroy registry, which cuts the parent link |
| Lifecycles.PresentationModel.constructor | rxpm/src/main/kotlin/me/dmdev/rxpm/PresentationModel.kt:47-102 | a new model has no lifecycle value, both flags true, and only the handler's subscription registered until destroy |
| Lifecycles.PresentationModel.CurrentLifecycleState | rxpm/src/main/kotlin/me/dmdev/rxpm/PresentationModel.kt:66 | null before any value, afterwards the newest accepted and newest shown value |
| Lifecycles.PresentationModel.Accept | rxpm/src/main/kotlin/me/dmdev/rxpm/PresentationModel.kt:59-102 | the model moves by `Step` and stays consistent |
| Lifecycles.PresentationModel.Handle | rxpm/src/main/kotlin/me/dmdev/rxpm/PresentationModel.kt:72-99 | the handler's per-value flag update and registry clearing, then the hook |
| Lifecycles.PresentationModel.UntilPause | rxpm/src/main/kotlin/me/dmdev/rxpm/PresentationModel.kt:242-244 | adds the subscription to the pause registry and changes nothing else |
| Lifecycles.PresentationModel.UntilUnbind | rxpm/src/main/kotlin/me/dmdev/rxpm/PresentationModel.kt:250-252 | adds the subscription to the unbind registry and changes nothing else |
| Lifecycles.PresentationModel.UntilDestroy | rxpm/src/main/kotlin/me/dmdev/rxpm/PresentationModel.kt:258-260 | adds the subscription to the destroy registry and changes nothing else |
| Lifecycles.PresentationModel.AttachToParent | rxpm/src/main/kotlin/me/dmdev/rxpm/PresentationModel.kt:146-197 | IllegalArgument for itself, IllegalState when already used or under a destroyed parent, with nothing changed; otherwise the child has received and run exactly `AttachPrefix`, and the parent link (and navigation link when both models are navigational) is registered until destroy |
| Lifecycles.PresentationModel.FollowParent | rxpm/src/main/kotlin/me/dmdev/rxpm/PresentationModel.kt:155-190 | a parent value reaches the child only while the link is registered |
| Lifecycles.PresentationModel.DetachFromParent | rxpm/src/main/kotlin/me/dmdev/rxpm/PresentationModel.kt:203-236 | the model accepts `DetachSuffix` of its state; nothing changes before creation or after destruction; a live model ends DESTROYED with every remaining hook run |
| IdleBuffer.FreshIsWellFormed | rxpm/src/main/kotlin/me/dmdev/rxpm/util/BufferSingleValueWhileIdleOperator.kt:49-53 | a new observer is not idle, buffers nothing and has sent nothing |
| IdleBuffer.OnNextKeepsWellFormed | rxpm/src/main/kotlin/me/dmdev/rxpm/util/BufferSingleValueWhileIdleOperator.kt:75-85 | `onNext` keeps downstream a run of values followed by at most one terminal event |
| IdleBuffer.OnIdleKeepsWellFormed | rxpm/src/main/kotlin/me/dmdev/rxpm/util/BufferSingleValueWhileIdleOperator.kt:59-69 | the idle callback keeps that shape |
| IdleBuffer.ApplyKeepsWellFormed | rxpm/src/main/kotlin/me/dmdev/rxpm/util/BufferSingleValueWhileIdleOperator.kt:55-105 | every signal keeps that shape |
| IdleBuffer.RunKeepsWellFormed | rxpm/src/main/kotlin/me/dmdev/rxpm/util/BufferSingleValueWhileIdleOperator.kt:44-106 | any run of signals keeps that shape: at most one terminal event, nothing after it |
| IdleBuffer.NothingAfterDone | rxpm/src/main/kotlin/me/dmdev/rxpm/util/BufferSingleValueWhileIdleOperator.kt:75-105 | once done, nothing more reaches downstream |
| IdleBuffer.NothingAfterDispose | rxpm/src/main/kotlin/me/dmdev/rxpm/util/BufferSingleValueWhileIdleOperator.kt:57-72 | once downstream has disposed the composite, which holds the upstream and the idle subscription, nothing more reaches downstream and the buffered value stays put |
| IdleBuffer.ForwardsWhileActive | rxpm/src/main/kotlin/me/dmdev/rxpm/util/BufferSingleValueWhileIdleOperator.kt:75-85 | while not idle and not disposed, values go downstream at once and in order |
| IdleBuffer.KeepsNewestWhileIdle | rxpm/src/main/kotlin/me/dmdev/rxpm/util/BufferSingleValueWhileIdleOperator.kt:75-85 | while idle (and not disposed) nothing goes downstream and only the newest value is kept |
| IdleBuffer.FlushesOnce | rxpm/src/main/kotlin/me/dmdev/rxpm/util/BufferSingleValueWhileIdleOperator.kt:59-69 | the idle signal turning off sends the buffered value once and empties the slot; a second off sends nothing |
| IdleBuffer.IdleOnKeepsBuffer | rxpm/src/main/kotlin/me/dmdev/rxpm/util/BufferSingleValueWhileIdleOperator.kt:60-61 | the idle signal turning on changes only the flag |
| IdleBuffer.BufferedValueDroppedOnTerminal | rxpm/src/main/kotlin/me/dmdev/rxpm/util/BufferSingleValueWhileIdleOperator.kt:87-105 | a value held while idle and followed by an error or completion never reaches downstream |
| IdleBuffer.ObserverWithBuffer.constructor | rxpm/src/main/kotlin/me/dmdev/rxpm/util/BufferSingleValueWhileIdleOperator.kt:44-53 | starts in the fresh state |
| IdleBuffer.ObserverWithBuffer.OnNext | rxpm/src/main/kotlin/me/dmdev/rxpm/util/BufferSingleValueWhileIdleOperator.kt:75-85 | moves by `OnNextStep` and stays well formed |
| IdleBuffer.ObserverWithBuffer.OnIdle | rxpm/src/main/kotlin/me/dmdev/rxpm/util/BufferSingleValueWhileIdleOperator.kt:59-69 | moves by `OnIdleStep` and stays well formed |
| IdleBuffer.ObserverWithBuffer.OnSubscribe | rxpm/src/main/kotlin/me/dmdev/rxpm/util/BufferSingleValueWhileIdleOperator.kt:55-73 | the idle source's current value is delivered first, then the subscriptions are held |
| IdleBuffer.ObserverWithBuffer.OnError | rxpm/src/main/kotlin/me/dmdev/rxpm/util/BufferSingleValueWhileIdleOperator.kt:87-95 | the first terminal error goes downstream and disposes; a later one goes to the global handler |
| IdleBuffer.ObserverWithBuffer.OnComplete | rxpm/src/main/kotlin/me/dmdev/rxpm/util/BufferSingleValueWhileIdleOperator.kt:97-105 | the first completion goes downstream and disposes; a later one is ignored |
| IdleBuffer.ObserverWithBuffer.Dispose | rxpm/src/main/kotlin/me/dmdev/rxpm/util/BufferSingleValueWhileIdleOperator.kt:57-72 | downstream disposing the composite stops both the idle and the upstream delivery, so by `NothingAfterDispose` nothing more reaches downstream |
| States.StockStrategies | rxpm/src/main/kotlin/me/dmdev/rxpm/State.kt:201-213 | both stock strategies compare synchronously; by `equals` and by identity respectively; identity implies a reflexive `equals` |
| States.ObservableSuppressesAlike | rxpm/src/main/kotlin/me/dmdev/rxpm/State.kt:69-82 | with an equivalence strategy, `observable` never shows two alike values in a row, starts with the first value and ends alike to the newest |
| States.ObservableWithoutStrategy | rxpm/src/main/kotlin/me/dmdev/rxpm/State.kt:79-81 | without a strategy every value is shown |
| States.ObservableByReference | rxpm/src/main/kotlin/me/dmdev/rxpm/State.kt:208-213 | with `DiffByReference` the observable is exactly the identity-distinct stream |
| States.CoarserComparerKeepsFewer | rxpm/src/main/kotlin/me/dmdev/rxpm/State.kt:75-77 | a comparer that matches more pairs lets no more values through |
| States.EqualsShowsNoMoreThanReference | rxpm/src/main/kotlin/me/dmdev/rxpm/State.kt:201-213 | `DiffByEquals` with a reflexive `equals` shows no more values than `DiffByReference` |
| States.State.constructor | rxpm/src/main/kotlin/me/dmdev/rxpm/State.kt:49-64 | the relay holds the initial value if one is given, otherwise nothing |
| States.State.Value | rxpm/src/main/kotlin/me/dmdev/rxpm/State.kt:88-92 | the newest value, or UninitializedPropertyAccess exactly when there has been none |
| States.State.ValueOrNull | rxpm/src/main/kotlin/me/dmdev/rxpm/State.kt:97 | the newest value or null, null exactly when `value` throws |
| States.State.HasValue | rxpm/src/main/kotlin/me/dmdev/rxpm/State.kt:103 | true exactly when the relay has held a value, that is, when `value` succeeds |
| States.State.Observable | rxpm/src/main/kotlin/me/dmdev/rxpm/State.kt:69-82 | shows no more values than the relay received, and all of them without a strategy |
| States.State.Accept | rxpm/src/main/kotlin/me/dmdev/rxpm/State.kt:57-64 | the relay takes the value, which becomes `value` |
| States.State.OnLifecycle | rxpm/src/main/kotlin/me/dmdev/rxpm/State.kt:133-144 | the first CREATED subscribes a pending source and registers it until destroy; anything else changes nothing |
| States.State.OnSourceNext | rxpm/src/main/kotlin/me/dmdev/rxpm/State.kt:137-141 | a source value reaches the relay exactly while the source subscription lives |
| States.State.OnSourceError | rxpm/src/main/kotlin/me/dmdev/rxpm/State.kt:106-112 | a source error while the subscription lives is rethrown as IllegalState and ends the subscription, so no later source value reaches the relay; otherwise nothing happens |
| States.State.BindTo | rxpm/src/main/kotlin/me/dmdev/rxpm/State.kt:154-162 | the binding is registered until unbind, under a `Binding` token of its own that the registry did not hold before, and returned as a live `Bound` whose buffer is subscribed, undisposed and exactly `OnSubscribeStep` on `paused` followed by `OnNextStep` on the current value: that value reaches the consumer only when the model is not paused, and is buffered otherwise |
| States.BoundWhilePausedFlushesOnResume | rxpm/src/main/kotlin/me/dmdev/rxpm/State.kt:154-162 | a value bound while paused is held back, and reaches the consumer exactly once when the model resumes |
| States.ObservableAppend | rxpm/src/main/kotlin/me/dmdev/rxpm/State.kt:71-81 | one more relay value is shown exactly when it `Passes` the diff filter: always without a strategy, otherwise unless judged alike to the value before it |
| States.Bound.constructor | rxpm/src/main/kotlin/me/dmdev/rxpm/State.kt:154-162 | the binding holds its state, consumer, buffer and the values the relay has passed it |
| States.Bound.Shown | rxpm/src/main/kotlin/me/dmdev/rxpm/State.kt:71-81 | what the binding's filter has let through is no longer than what the relay passed it, and all of it without a strategy |
| States.Bound.OnRelay | rxpm/src/main/kotlin/me/dmdev/rxpm/State.kt:154-162 | while the binding is registered and its buffer's composite is not disposed, a relay value extends `Shown` and reaches the buffer through `OnNextStep` exactly when it passes the filter; after UNBINDED has cleared the registry, or downstream has disposed, nothing changes, and binding the same consumer again registers a new, distinct `Binding` that does not revive this one |
| States.Bound.OnPaused | rxpm/src/main/kotlin/me/dmdev/rxpm/State.kt:158 | while the binding is registered and the buffer's idle subscription lives, a `paused` value moves the buffer by `OnIdleStep`; otherwise nothing changes, whatever is bound later |
| States.NewState | rxpm/src/main/kotlin/me/dmdev/rxpm/State.kt:125-147 | its parameters default, as in the source, to no initial value, no source and `DiffByEquals`; a source is subscribed at once exactly when the model is CREATED, otherwise left pending until CREATED |
| Dialogs.Settle | rxpm/src/main/kotlin/me/dmdev/rxpm/widget/DialogControl.kt:79-88 | every waiting request ends with the outcome; ended ones stay |
| Dialogs.FreshIsAbsent | rxpm/src/main/kotlin/me/dmdev/rxpm/widget/DialogControl.kt:56 | a new control displays nothing |
| Dialogs.AcceptAlternates | rxpm/src/main/kotlin/me/dmdev/rxpm/widget/DialogControl.kt:56-106 | accepting the opposite kind of display keeps `displayed` alternating |
| Dialogs.DismissIdempotent | rxpm/src/main/kotlin/me/dmdev/rxpm/widget/DialogControl.kt:102-106 | `dismiss` leaves nothing displayed, changes nothing when nothing was displayed, and twice is once |
| Dialogs.ShowDisplays | rxpm/src/main/kotlin/me/dmdev/rxpm/widget/DialogControl.kt:64-67 | `show` displays the data, passing through Absent when another dialog was displayed |
| Dialogs.SendResultSettles | rxpm/src/main/kotlin/me/dmdev/rxpm/widget/DialogControl.kt:94-97 | `sendResult` emits the result, ends every waiting request with it, and dismisses |
| Dialogs.ShowForResultWaits | rxpm/src/main/kotlin/me/dmdev/rxpm/widget/DialogControl.kt:75-89 | `showForResult` displays the data and opens one waiting request |
| Dialogs.RequestGetsResult | rxpm/src/main/kotlin/me/dmdev/rxpm/widget/DialogControl.kt:79-97 | a waiting request ends with the next result sent |
| Dialogs.RequestEndsEmptyOnDismiss | rxpm/src/main/kotlin/me/dmdev/rxpm/widget/DialogControl.kt:83-87 | a waiting request ends empty when its dialog is dismissed or replaced |
| Dialogs.EndedRequestsStay | rxpm/src/main/kotlin/me/dmdev/rxpm/widget/DialogControl.kt:88 | an ended request keeps its outcome whatever happens next |
| Dialogs.AlternatingPassesDistinct | rxpm/src/main/kotlin/me/dmdev/rxpm/widget/DialogControl.kt:56 | the `displayed` stream's distinct filter drops nothing |
| Dialogs.DialogControl.constructor | rxpm/src/main/kotlin/me/dmdev/rxpm/widget/DialogControl.kt:54-57 | a fresh control with its own fresh presentation model |
| Dialogs.DialogControl.DisplayedValue | rxpm/src/main/kotlin/me/dmdev/rxpm/widget/DialogControl.kt:103 | the relay always has a display, and it is `Absent` exactly after an even number of changes (an odd number of values held) |
| Dialogs.DialogControl.AcceptDisplayed | rxpm/src/main/kotlin/me/dmdev/rxpm/widget/DialogControl.kt:81-87 | the relay takes the display, and a shown Absent ends waiting requests empty |
| Dialogs.DialogControl.Dismiss | rxpm/src/main/kotlin/me/dmdev/rxpm/widget/DialogControl.kt:102-106 | moves by `DismissStep` and keeps the display alternating |
| Dialogs.DialogControl.Show | rxpm/src/main/kotlin/me/dmdev/rxpm/widget/DialogControl.kt:64-67 | moves by `ShowStep` and keeps the display alternating |
| Dialogs.DialogControl.ShowForResult | rxpm/src/main/kotlin/me/dmdev/rxpm/widget/DialogControl.kt:75-89 | moves by `ShowForResultStep` and returns the new waiting request |
| Dialogs.DialogControl.SendResult | rxpm/src/main/kotlin/me/dmdev/rxpm/widget/DialogControl.kt:94-97 | moves by `SendResultStep` and keeps the display alternating |
| Dialogs.NewDialogControl | rxpm/src/main/kotlin/me/dmdev/rxpm/widget/DialogControl.kt:120-124 | a fresh control attached to the parent; attaching fails with IllegalState exactly under a destroyed parent |
| ActivityDelegates.DestroyDecision | rxpm/src/main/kotlin/me/dmdev/rxpm/delegate/PmActivityDelegate.kt:117-133 | `onDestroy` always unbinds first, then destroys exactly when finishing (IS_FINISHING) or not changing configurations (CONFIGURATION_CHANGES) |
| ActivityDelegates.ModesDisagree | rxpm/src/main/kotlin/me/dmdev/rxpm/delegate/PmActivityDelegate.kt:120-132 | the two retain modes decide differently exactly when finishing and changing configurations are both true or both false |
| ActivityDelegates.FullActivityLife | rxpm/src/test/kotlin/me/dmdev/rxpm/delegate/CommonDelegateTest.kt:88-107 | a whole activity life shows CREATED … DESTROYED once each, in order, in either mode, with or without saving instance state |
| ActivityDelegates.FullLifeRunsEveryHook | rxpm/src/main/kotlin/me/dmdev/rxpm/PresentationModel.kt:68-102 | a fresh model driven along any legal life from CREATED to DESTROYED runs exactly that life's hooks, in order, and ends destroyed, paused, unbound and with an empty destroy registry |
| ActivityDelegates.PmActivityDelegate.constructor | rxpm/src/main/kotlin/me/dmdev/rxpm/delegate/PmActivityDelegate.kt:58-62 | holds the model and the retain mode |
| ActivityDelegates.PmActivityDelegate.Deliver | rxpm/src/main/kotlin/me/dmdev/rxpm/delegate/PmActivityDelegate.kt:67-133 | each callback makes the model accept exactly the values `Issued` lists for it |
| ActivityDelegates.PmActivityDelegate.OnCreate | rxpm/src/main/kotlin/me/dmdev/rxpm/delegate/PmActivityDelegate.kt:67-69 | the model accepts CREATED |
| ActivityDelegates.PmActivityDelegate.OnPostCreate | rxpm/src/main/kotlin/me/dmdev/rxpm/delegate/PmActivityDelegate.kt:74-76 | the model accepts BINDED |
| ActivityDelegates.PmActivityDelegate.OnResume | rxpm/src/main/kotlin/me/dmdev/rxpm/delegate/PmActivityDelegate.kt:88-90 | the model accepts RESUMED |
| ActivityDelegates.PmActivityDelegate.OnSaveInstanceState | rxpm/src/main/kotlin/me/dmdev/rxpm/delegate/PmActivityDelegate.kt:95-98 | the model accepts PAUSED |
| ActivityDelegates.PmActivityDelegate.OnPause | rxpm/src/main/kotlin/me/dmdev/rxpm/delegate/PmActivityDelegate.kt:103-105 | the model accepts PAUSED |
| ActivityDelegates.PmActivityDelegate.OnDestroy | rxpm/src/main/kotlin/me/dmdev/rxpm/delegate/PmActivityDelegate.kt:117-133 | the model accepts UNBINDED, then DESTROYED when the retain mode says so |

## Left out

- Schedulers, `observeOn` and `toSerialized` are left out. Every delivery is
  synchronous, in program order. `computeAsync` only chooses a thread, so it does
  not change what is shown.
- `RxJavaPlugins.onError` is not called. An error it would receive is recorded in
  the observer's `undeliverable` trace.
- The hook bodies (`onCreate()` … `onDestroy()`) are subclass code. The model
  records which hooks run, not what they do.
- Disposing a registered subscription is not modelled. A registry is the set of
  the subscriptions it holds, and clearing it empties the set. Deliveries that
  depend on a live subscription check for it: `FollowParent`, `SourceLive`,
  `IdleLive`, `UpstreamLive`, `Bound.Live`, `Bound.RelayLive`.
- `CommonDelegate`, `NavigationalPm`, `Action`, `Command` and the navigation
  message dispatcher are not part of this model.
  - The delegate's calls into `CommonDelegate` appear as the lifecycle values the
    model accepts.
  - The navigation forwarding appears as the `NavigationLink` registration.
  - `onSaveInstanceState`'s bundle handling is not modelled.
- `DialogControl.bindTo` (`DialogControl.kt:130-154`) creates and dismisses Android
  dialogs. It is UI code and not modelled.
- The application module (`app/`) is not part of this model.
- A state source that completes is not modelled. Completion changes nothing that
  the source's value and error paths do not already cover.
- Dialogs.ShowForResultStep: the returned `Maybe` is modelled as subscribed at
  the moment `showForResult` returns. A later subscription, or none at all, is not
  modelled.
- States.DiffStrategy: the interface names its parameters `(new, old)`, but
  `distinctUntilChanged` calls it as `areTheSame(previous, next)`. The model
  follows the call order. Both stock strategies are symmetric, so they are
  unaffected.
- ActivityDelegates.FullActivityLife: states only the finishing destroy
  (`isFinishing` true, not changing configurations). Other destroy decisions are
  covered by `DestroyDecision`.
- Lifecycles.PresentationModel.AttachToParent: the registry entries carry no
  identity of the parent. A second attach is accepted while the first parent has
  no lifecycle value, and the source then holds two subscriptions. The model keeps
  one `ParentLink` entry for both, and `FollowParent` does not say which parent
  sent a value.
- Lifecycle ordering is not enforced by any operation, because the code does not
  enforce it. Only the lemmas that need a legal order assume one.
