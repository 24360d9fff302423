# MutableExtension pending-set barriers in Dafny

MutableExtension is an Unreal Engine plugin that coordinates mesh generation and mesh updates
for a list of customizable skeletal components. Each of its three coordinators is a fan-out/fan-in
barrier:
- It walks the component list.
- It tracks the distinct mesh instances that still have work to do in a pending collection.
- It issues the asynchronous engine requests.
- It removes an instance when the engine reports that instance complete.
- It signals its owner one tick later, once nothing is pending.

This project models those coordinators and proves what they do.

- `UMutableExtensionComponent` (`ExtensionComponent`) has:
  - a pre-initialisation gate that waits for components to become ready;
  - an initialisation barrier;
  - an initial-update barrier;
  - a keyed registry of runtime updates with typed errors.

  Its completion handlers are *guarded*: they act only on instances that are pending.
- `UMutableInitializationComponent` (`InitializationComponent`) and `UMutableExtensionSubsystem`
  (`ExtensionSubsystem`) each have an initialisation barrier and an update barrier. Their
  completion handlers are *unguarded*: they signal whenever the collection is empty, including
  for instances that were never pending.
- `UMutableFunctionLib` (`FunctionLib`) provides the status query every barrier branches on, and
  the guard that decides whether an update request is issued.
- `FMutablePendingRuntimeUpdate` (`ExtensionTypes`) is the registry record.

How the model is built:
- Engine objects are opaque `nat` handles. A pointer that may be null is an `Option`.
- What the plugin reads from the engine during a call is an immutable `Engine` value (`MutableEngine`):
  - the component-to-instance map;
  - the instances' private mesh status;
  - which components are ready or can be made ready;
  - which instances can update.
- What the plugin asks of the engine is appended to a `RequestLog` object.
- Delegate bindings and unbindings are recorded in a ghost `delegateLog`.
- Timers set for the next tick are a `nextTick` queue.
- `Tick()` runs the queued timers. Its ghost `delivered` log records each delegate invocation,
  together with the completion flags that invocation sees.
- A `TArray` used as a set is a `seq`:
  - `AddUnique` is in `PendingSets`, together with `AddUniqueAll`, its fold over a list.
  - `Remove` is `Without`, which removes every occurrence.
- The instances one enumeration takes are `Candidates(criterion, env, components)` (`Tracking`).
  Each barrier's contract states its new pending collection as
  `AddUniqueAll(start, Candidates(...))`. The lemmas in `Tracking` and `PendingSets` then say what
  that collection holds:
  - no duplicates;
  - exactly the qualifying instances;
  - the old contents in front.
- The exactly-once behaviour of a whole barrier run is proved over arbitrary sequences of
  completion events:
  - `GuardedSignals` and `UnguardedSignals` count the signals of the two handler shapes.
  - In each class, a `Report…` method hands a sequence of completion events to the handler one
    after another. Its contract proves that the signals the handler queues are exactly the ones
    these functions count.
  - The `Run…Barrier` methods run the enumeration and then the completions. Their contracts
    state the outcome of the whole barrier.
  - `BarrierRunSignalsOnce` and `Tracking.GuardedBarrierRun` show that a guarded barrier signals
    once exactly when every tracked instance has reported, and never twice.
  - `DuplicateCompletion` shows that an unguarded handler signals again on a repeated event.

Behaviour of the code that the model keeps as written:
- No coordinator clears its aggregate delegate before invoking it. The initialisation component
  and the subsystem therefore signal again on every completion that finds their collection
  empty (`PendingSets.DuplicateCompletion`, `PendingSets.UnguardedSignalsWhenEmpty`).
- The initialisation loops of the initialisation component and of the subsystem issue no
  generate request. They only add listeners.
- `UpdateMutableComponents` in the initialisation component and in the subsystem is guarded by the
  *initialisation* delegate `OnAllInstancesInitialized`, not by `OnAllComponentsUpdated`.
- `OnMutableComponentPreInitializeCompleted` empties the cached component list after the
  re-run. If the re-run closes the gate again, the list it just cached is lost. The contract of
  `ExtensionComponent.MutableExtensionComponent.OnMutableComponentPreInitializeCompleted` states
  this outcome.

## Model

| member | source | states |
|---|---|---|
| ExtensionTypes.NewPendingRuntimeUpdate | Source/MutableExtension/Private/MutableExtensionTypes.cpp:10-16 | a new record holds the three given handles, and its result is `Error`, the "not yet reported" value |
| ExtensionTypes.DefaultPendingRuntimeUpdate | Source/MutableExtension/Public/MutableExtensionTypes.h:27-30 | with no arguments, all three handles are null and the result is unset |
| FunctionLib.GetMutableComponentStatus | Source/MutableExtension/Private/MutableFunctionLib.cpp:11-29 | the result is valid exactly when the component, its instance and the private data are all non-null; then the status is read from the private data; otherwise it is `(Error, false)` |
| FunctionLib.ValidToUpdateIsReadable | Source/MutableExtension/Private/MutableExtensionComponent.cpp:151-161 | a component valid to update has an instance with readable private data whose status is `Success` |
| FunctionLib.UpdateMutableMesh | Source/MutableExtension/Private/MutableFunctionLib.cpp:31-44 | accepts exactly when the component and instance are non-null and the mesh status is `Success`; one request with no delegate is issued exactly then, and none otherwise |
| FunctionLib.UpdateMutableMeshCallback | Source/MutableExtension/Private/MutableFunctionLib.cpp:46-60 | the same guard; an accepted request carries the given completion delegate, and a rejected call issues nothing |
| MutableEngine.GenerateRequestsIndexed | Source/MutableExtension/Private/MutableExtensionComponent.cpp:84-85 | one generate request per tracked instance, in tracking order |
| MutableEngine.UpdateRequestsIndexed | Source/MutableExtension/Private/MutableInitializationComponent.cpp:92-97 | one update request per listed instance, in order, each with the same delegate and flags |
| MutableEngine.ReadyBindingsIndexed | Source/MutableExtension/Private/MutableExtensionComponent.cpp:47-48 | one ready-delegate binding per gated component, in order |
| MutableEngine.UpdatedListenersIndexed | Source/MutableExtension/Private/MutableExtensionComponent.cpp:80-81 | one completion listener per tracked instance, in order |
| MutableEngine.RemovedListenersIndexed | Source/MutableExtension/Private/MutableInitializationComponent.cpp:62 | one listener removal per reported instance, in reporting order |
| PendingSets.AddUniqueAllNoDuplicates | Source/MutableExtension/Private/MutableExtensionSubsystem.cpp:33 | `AddUnique` applied in turn never introduces a duplicate |
| PendingSets.AddUniqueAllMembers | Source/MutableExtension/Private/MutableExtensionComponent.cpp:77-80 | after the loop, an element is pending exactly if it was pending before or was offered |
| PendingSets.AddUniqueAllExtends | Source/MutableExtension/Private/MutableExtensionComponent.cpp:163-165 | a barrier that does not reset keeps its old pending elements, in front and in order |
| PendingSets.AddUniqueAllCount | Source/MutableExtension/Private/MutableExtensionComponent.cpp:62-89 | starting empty, the pending collection has exactly as many entries as there are distinct offered instances |
| PendingSets.WithoutMembers | Source/MutableExtension/Private/MutableExtensionComponent.cpp:118 | after `Remove`, an element is present exactly if it was present before and is not the removed one |
| PendingSets.WithoutNoDuplicates | Source/MutableExtension/Private/MutableExtensionComponent.cpp:118 | `Remove` keeps a duplicate-free collection duplicate-free |
| PendingSets.WithoutAbsent | Source/MutableExtension/Private/MutableExtensionSubsystem.cpp:47-50 | removing an absent element changes nothing |
| PendingSets.WithoutLength | Source/MutableExtension/Private/MutableExtensionComponent.cpp:118 | removing a present element shrinks a duplicate-free collection by exactly one |
| PendingSets.WithoutEmpty | Source/MutableExtension/Private/MutableExtensionComponent.cpp:122 | a removal empties the collection exactly when the removed element was all it held |
| PendingSets.WithoutAllMembers | Source/MutableExtension/Private/MutableExtensionComponent.cpp:114-127 | after a sequence of completions, an element is still pending exactly when it was pending and never reported |
| PendingSets.GuardedSignalsOnce | Source/MutableExtension/Private/MutableExtensionComponent.cpp:114-127 | with guarded handlers, a non-empty pending collection signals once when every element has reported, and never again, however the events repeat |
| PendingSets.BarrierRunSignalsOnce | Source/MutableExtension/Private/MutableExtensionComponent.cpp:91-127 | an empty collection after enumeration plus the completions signal exactly once when every tracked element has reported, and not at all otherwise |
| PendingSets.GatedBarrierQueue | Source/MutableExtension/Private/MutableExtensionComponent.cpp:53-127 | with a pre-initialisation gate in front, a closed gate queues no signal, and an open one queues the signal once exactly when every tracked element reports |
| PendingSets.UnguardedSignalsWhenEmpty | Source/MutableExtension/Private/MutableInitializationComponent.cpp:55-68 | with unguarded handlers, every completion that finds the collection empty signals again |
| PendingSets.UnguardedSignalsIff | Source/MutableExtension/Private/MutableExtensionSubsystem.cpp:45-56 | unguarded handlers signal at least once exactly when there is some event and the events include every pending element; the first signal comes with the last of them to report |
| PendingSets.DuplicateCompletion | Source/MutableExtension/Private/MutableInitializationComponent.cpp:55-68 | the same repeated completion signals once with a guarded handler and twice with an unguarded one |
| Tracking.CandidateTracks | Source/MutableExtension/Private/MutableExtensionComponent.cpp:62-89 | a component contributes an instance exactly when it has one with readable status that meets the barrier's condition: NotGenerated (plus CanUpdateInstance for the extension component), or Success for updates |
| Tracking.CandidatesMembers | Source/MutableExtension/Private/MutableInitializationComponent.cpp:30-47 | an instance is offered by the enumeration exactly when some listed component qualifies with it |
| Tracking.TrackedInstances | Source/MutableExtension/Private/MutableExtensionComponent.cpp:62-89 | the tracked collection has no duplicates, keeps the starting contents in front, and holds exactly the starting instances plus those of the qualifying components |
| Tracking.GuardedBarrierRun | Source/MutableExtension/Private/MutableExtensionComponent.cpp:91-127 | a whole guarded barrier run schedules its signal exactly once when every tracked instance reports, and never otherwise |
| Tracking.UnguardedBarrierRun | Source/MutableExtension/Private/MutableInitializationComponent.cpp:49-68 | after an unguarded enumeration, the completions signal at least once exactly when there is some event and the events include every tracked instance (the enumeration's own signal, when nothing is tracked, is separate) |
| Tracking.UpdateCandidate | Source/MutableExtension/Private/MutableExtensionComponent.cpp:151-161 | under the update criterion, a component contributes its instance exactly when it is valid to update |
| Tracking.PreInitCandidatesMembers | Source/MutableExtension/Private/MutableExtensionComponent.cpp:35-51 | a component is gated exactly when it is listed and is neither ready nor can be made ready |
| Tracking.PendingPreInitialization | Source/MutableExtension/Private/MutableExtensionComponent.cpp:35-51 | the gate holds each component at most once, and holds exactly the listed components that are not ready and cannot be made ready |
| Tracking.NoPreInitMeansReady | Source/MutableExtension/Private/MutableExtensionComponent.cpp:69 | with the gate open, every listed component is ready or can be made ready, so the `check` assertion at line 69 cannot fail |
| ExtensionComponent.DeliveriesFollowFlags | Source/MutableExtension/Private/MutableExtensionComponent.cpp:129-139 | a timer invokes only bound delegates, and each aggregate delegate sees its completion flag already set |
| ExtensionComponent.ScanPreInitialization | Source/MutableExtension/Private/MutableExtensionComponent.cpp:35-51 | the gate loop collects, once each, the components that need pre-initialisation |
| ExtensionComponent.TrackInitialization | Source/MutableExtension/Private/MutableExtensionComponent.cpp:62-89 | with the gate open, each distinct qualifying instance is tracked once and gets one generate request |
| ExtensionComponent.SubmitInitialUpdates | Source/MutableExtension/Private/MutableExtensionComponent.cpp:149-171 | each distinct instance valid to update that is not already pending is added once and gets one request bound to the initial-update handler |
| ExtensionComponent.GuardedRemovalsOnce | Source/MutableExtension/Private/MutableExtensionComponent.cpp:114-127 | a guarded handler unbinds an instance exactly when it was pending and has reported, and unbinds once per element that leaves the collection |
| ExtensionComponent.MutableExtensionComponent.constructor | Source/MutableExtension/Private/MutableExtensionComponent.cpp:15-22 | both completion flags start false, and every collection starts empty |
| ExtensionComponent.MutableExtensionComponent.InitializeMutableComponents | Source/MutableExtension/Private/MutableExtensionComponent.cpp:24-95 | unbound delegate: nothing changes. Otherwise both collections are rebuilt. A closed gate caches the list and tracks and signals nothing. An open gate tracks the qualifying distinct instances, with one listener and one request each, and schedules the signal when none qualify |
| ExtensionComponent.MutableExtensionComponent.OnMutableComponentPreInitializeCompleted | Source/MutableExtension/Private/MutableExtensionComponent.cpp:97-112 | a gated component leaves the gate and is unbound. After the last one, initialisation re-runs on the cache and the cache is emptied. An ungated component changes nothing |
| ExtensionComponent.MutableExtensionComponent.OnMutableInstanceInitializeCompleted | Source/MutableExtension/Private/MutableExtensionComponent.cpp:114-127 | a pending instance leaves and is unbound, and the signal is scheduled only when this empties the collection; a non-pending instance changes nothing |
| ExtensionComponent.MutableExtensionComponent.CallOnAllInstancesInitialized | Source/MutableExtension/Private/MutableExtensionComponent.cpp:129-139 | one initialisation timer is queued for the next tick |
| ExtensionComponent.MutableExtensionComponent.InitialUpdateMutableComponents | Source/MutableExtension/Private/MutableExtensionComponent.cpp:141-177 | unbound delegate: nothing changes. Otherwise there is no reset: the qualifying distinct instances join the old pending collection with one request each, and the signal is scheduled when nothing is pending |
| ExtensionComponent.MutableExtensionComponent.OnMutableInstanceInitialUpdateCompleted | Source/MutableExtension/Private/MutableExtensionComponent.cpp:179-192 | a pending instance leaves, and the signal is scheduled only when this empties the collection; a non-pending instance changes nothing |
| ExtensionComponent.MutableExtensionComponent.CallOnAllComponentsInitialUpdated | Source/MutableExtension/Private/MutableExtensionComponent.cpp:194-204 | one initial-update timer is queued for the next tick |
| ExtensionComponent.MutableExtensionComponent.ReportInitializeCompleted | Source/MutableExtension/Private/MutableExtensionComponent.cpp:114-127 | the initialisation handler, fed a sequence of completions, leaves exactly the unreported instances pending, unbinds the ones it removes, and queues exactly the signals `GuardedSignals` counts |
| ExtensionComponent.MutableExtensionComponent.ReportInitialUpdateCompleted | Source/MutableExtension/Private/MutableExtensionComponent.cpp:179-192 | the initial-update handler, fed a sequence of completions, leaves exactly the unreported instances pending and queues exactly the signals `GuardedSignals` counts |
| ExtensionComponent.MutableExtensionComponent.RunInitializationBarrier | Source/MutableExtension/Private/MutableExtensionComponent.cpp:24-127 | a whole initialisation barrier: with the gate open, the tracked instances that did not report stay pending, and the signal is queued once exactly when every tracked instance has reported; with the gate closed nothing is tracked and nothing is signalled |
| ExtensionComponent.MutableExtensionComponent.RunInitialUpdateBarrier | Source/MutableExtension/Private/MutableExtensionComponent.cpp:141-192 | a whole initial-update barrier: the tracked instances that did not report stay pending, and the signal is queued once exactly when every tracked instance has reported |
| ExtensionComponent.MutableExtensionComponent.IsPendingUpdate | Source/MutableExtension/Private/MutableExtensionComponent.cpp:253-256 | true exactly when the instance is non-null and has a record, which is then keyed by that instance |
| ExtensionComponent.MutableExtensionComponent.IsComponentPendingUpdate | Source/MutableExtension/Private/MutableExtensionComponent.cpp:248-251 | asks about the component's instance; true only when that instance exists |
| ExtensionComponent.MutableExtensionComponent.GetIncompletePendingRuntimeUpdate | Source/MutableExtension/Private/MutableExtensionComponent.cpp:264-268 | a record is found exactly when the instance is pending; the record is that instance's, with its result unset |
| ExtensionComponent.MutableExtensionComponent.GetComponentIncompletePendingRuntimeUpdate | Source/MutableExtension/Private/MutableExtensionComponent.cpp:258-262 | a record is found exactly when the component is pending; it is the record of the component's instance |
| ExtensionComponent.MutableExtensionComponent.RuntimeUpdateMutableComponent | Source/MutableExtension/Private/MutableExtensionComponent.cpp:206-246 | errors in order (DelegateNotBound, AlreadyPendingUpdate, MeshNotValidToUpdate), each returning false and leaving the registry and the engine untouched. On success: error None, true, one new record keyed by the instance, and one request bound to the runtime handler; the component's lookup then returns exactly the record inserted |
| ExtensionComponent.MutableExtensionComponent.OnMutableInstanceRuntimeUpdateCompleted | Source/MutableExtension/Private/MutableExtensionComponent.cpp:270-281 | a present record takes the result, leaves the registry and is handed (copied) to the next-tick signal; an absent one changes nothing; afterwards the instance is not pending and has no record |
| ExtensionComponent.MutableExtensionComponent.CallOnComponentRuntimeUpdateCompleted | Source/MutableExtension/Private/MutableExtensionComponent.cpp:283-292 | one per-component timer carrying the record is queued for the next tick |
| ExtensionComponent.MutableExtensionComponent.Initialize | Source/MutableExtension/Private/MutableExtensionComponent.cpp:294-299 | all three pending collections are empty, and nothing else changes |
| ExtensionComponent.MutableExtensionComponent.Deinitialize | Source/MutableExtension/Private/MutableExtensionComponent.cpp:301-307 | all three pending collections are empty, and nothing else changes |
| ExtensionComponent.MutableExtensionComponent.Tick | Source/MutableExtension/Private/MutableExtensionComponent.cpp:133-137 | the queued timers run in order and the queue empties; each flag becomes true when its timer ran; each bound delegate is invoked once per timer, after its flag is set |
| InitializationComponent.DeliveriesFollowFlags | Source/MutableExtension/Private/MutableInitializationComponent.cpp:70-80 | a timer invokes only bound delegates, and each sees its completion flag already set |
| InitializationComponent.MutableInitializationComponent.constructor | Source/MutableExtension/Private/MutableInitializationComponent.cpp:12-19 | both completion flags start false, and both collections start empty |
| InitializationComponent.MutableInitializationComponent.InitializeMutableComponents | Source/MutableExtension/Private/MutableInitializationComponent.cpp:21-53 | unbound delegate: nothing changes. Otherwise the collection is reset to the distinct qualifying instances, a listener is added for every qualifying component, and the signal is scheduled when none qualify |
| InitializationComponent.MutableInitializationComponent.OnMutableInstanceInitialized | Source/MutableExtension/Private/MutableInitializationComponent.cpp:55-68 | the instance leaves if present, its listener is removed regardless, and the signal is scheduled whenever the collection is then empty |
| InitializationComponent.MutableInitializationComponent.CallOnAllInstancesInitialized | Source/MutableExtension/Private/MutableInitializationComponent.cpp:70-80 | one initialisation timer is queued for the next tick |
| InitializationComponent.MutableInitializationComponent.UpdateMutableComponents | Source/MutableExtension/Private/MutableInitializationComponent.cpp:82-104 | guarded by the initialisation delegate; no reset. Each accepted request adds its instance once, one request per accepted component, and the signal is scheduled when nothing is pending |
| InitializationComponent.MutableInitializationComponent.OnMutableInstanceUpdated | Source/MutableExtension/Private/MutableInitializationComponent.cpp:106-119 | the instance leaves if present, and the signal is scheduled whenever the collection is then empty |
| InitializationComponent.MutableInitializationComponent.CallOnAllComponentsUpdated | Source/MutableExtension/Private/MutableInitializationComponent.cpp:121-131 | one update timer is queued for the next tick |
| InitializationComponent.MutableInitializationComponent.ReportInstancesInitialized | Source/MutableExtension/Private/MutableInitializationComponent.cpp:55-68 | the initialisation handler, fed a sequence of completions, leaves exactly the unreported instances pending, removes one listener per event, and queues exactly the signals `UnguardedSignals` counts |
| InitializationComponent.MutableInitializationComponent.ReportInstancesUpdated | Source/MutableExtension/Private/MutableInitializationComponent.cpp:106-119 | the update handler, fed a sequence of completions, leaves exactly the unreported instances pending and queues exactly the signals `UnguardedSignals` counts |
| InitializationComponent.MutableInitializationComponent.RunInitializationBarrier | Source/MutableExtension/Private/MutableInitializationComponent.cpp:21-68 | a whole initialisation barrier: the unreported tracked instances stay pending; an empty enumeration signals once at once, and otherwise some signal is queued exactly when there is some event and every tracked instance has reported |
| InitializationComponent.MutableInitializationComponent.RunUpdateBarrier | Source/MutableExtension/Private/MutableInitializationComponent.cpp:82-119 | a whole update barrier over the kept and newly tracked instances, with the same outcome as the initialisation barrier |
| InitializationComponent.MutableInitializationComponent.Initialize | Source/MutableExtension/Private/MutableInitializationComponent.cpp:133-137 | both pending collections are empty |
| InitializationComponent.MutableInitializationComponent.Deinitialize | Source/MutableExtension/Private/MutableInitializationComponent.cpp:139-143 | both pending collections are empty |
| InitializationComponent.MutableInitializationComponent.Tick | Source/MutableExtension/Private/MutableInitializationComponent.cpp:125-129 | the queued timers run in order and the queue empties; each flag becomes true when its timer ran, before its bound delegate is invoked |
| ExtensionSubsystem.DeliveriesAreBound | Source/MutableExtension/Private/MutableExtensionSubsystem.cpp:58-67 | a tick invokes exactly the bound delegates of the timers it runs |
| ExtensionSubsystem.MutableExtensionSubsystem.InitializeMutableComponents | Source/MutableExtension/Private/MutableExtensionSubsystem.cpp:11-43 | unbound delegate: nothing changes. Otherwise the collection is reset to the distinct qualifying instances, a listener is added per qualifying component, and the signal is scheduled when none qualify |
| ExtensionSubsystem.MutableExtensionSubsystem.OnMutableInstanceInitialized | Source/MutableExtension/Private/MutableExtensionSubsystem.cpp:45-56 | the instance leaves if present, no listener is removed, and the signal is scheduled whenever the collection is then empty |
| ExtensionSubsystem.MutableExtensionSubsystem.CallOnAllInstancesInitialized | Source/MutableExtension/Private/MutableExtensionSubsystem.cpp:58-67 | one initialisation timer is queued for the next tick |
| ExtensionSubsystem.MutableExtensionSubsystem.UpdateMutableComponents | Source/MutableExtension/Private/MutableExtensionSubsystem.cpp:69-91 | guarded by the initialisation delegate; no reset. Each accepted request adds its instance once, one request per accepted component, and the signal is scheduled when nothing is pending |
| ExtensionSubsystem.MutableExtensionSubsystem.OnMutableInstanceUpdated | Source/MutableExtension/Private/MutableExtensionSubsystem.cpp:93-106 | the instance leaves if present, and the signal is scheduled whenever the collection is then empty |
| ExtensionSubsystem.MutableExtensionSubsystem.CallOnAllComponentsUpdated | Source/MutableExtension/Private/MutableExtensionSubsystem.cpp:108-117 | one update timer is queued for the next tick |
| ExtensionSubsystem.MutableExtensionSubsystem.ReportInstancesInitialized | Source/MutableExtension/Private/MutableExtensionSubsystem.cpp:45-56 | the initialisation handler, fed a sequence of completions, leaves exactly the unreported instances pending and queues exactly the signals `UnguardedSignals` counts |
| ExtensionSubsystem.MutableExtensionSubsystem.ReportInstancesUpdated | Source/MutableExtension/Private/MutableExtensionSubsystem.cpp:93-106 | the update handler, fed a sequence of completions, leaves exactly the unreported instances pending and queues exactly the signals `UnguardedSignals` counts |
| ExtensionSubsystem.MutableExtensionSubsystem.RunInitializationBarrier | Source/MutableExtension/Private/MutableExtensionSubsystem.cpp:11-56 | a whole initialisation barrier: the unreported tracked instances stay pending; an empty enumeration signals once at once, and otherwise some signal is queued exactly when there is some event and every tracked instance has reported |
| ExtensionSubsystem.MutableExtensionSubsystem.RunUpdateBarrier | Source/MutableExtension/Private/MutableExtensionSubsystem.cpp:69-106 | a whole update barrier over the kept and newly tracked instances, with the same outcome as the initialisation barrier |
| ExtensionSubsystem.MutableExtensionSubsystem.Initialize | Source/MutableExtension/Private/MutableExtensionSubsystem.cpp:119-124 | both pending collections are empty |
| ExtensionSubsystem.MutableExtensionSubsystem.Deinitialize | Source/MutableExtension/Private/MutableExtensionSubsystem.cpp:126-131 | both pending collections are empty |
| ExtensionSubsystem.MutableExtensionSubsystem.Tick | Source/MutableExtension/Private/MutableExtensionSubsystem.cpp:112-115 | the queued timers run in order and the queue empties; each bound delegate is invoked once per timer |

## Left out

- Mesh generation and readiness are engine work. `UpdateInstanceIfNotGenerated`,
  `UpdateSkeletalMeshAsync(Result)`, `TryMakeCustomizableObjectReady`, `IsCustomizableObjectReady`
  and `CanUpdateInstance` are foreign calls. They appear only as the `Engine` snapshot and as
  entries in the request log.
- `UMutableFunctionLib::IsMutableMeshValidToUpdate` is called at lines 158 and 232 of
  `MutableExtensionComponent.cpp`, but it is neither declared nor defined in the files this model
  covers. It is modelled as "status query valid and `Success`". The basis is the comment at lines
  153-154, which says the function performs the component and instance null checks. Another basis
  is the `ensure` at line 158, which is expected to fail only when the mesh status is not `Success`.
- `Engine`: the engine is a fixed snapshot for the length of one call. Its state does not change
  between the status query and the request within a loop.
- No completion delegate fires re-entrantly while an enumeration loop runs: a completion arrives
  only after the loop has finished. An `UpdatedDelegate` invoked synchronously from inside
  `UpdateInstanceIfNotGenerated` (line 85 of the extension component) could signal before every
  instance is tracked. The `Report…` and `Run…Barrier` contracts rely on this ordering.
- Delegates and timers (`BindUObject`, `AddDynamic`, `RemoveDynamic`, `Unbind`,
  `SetTimerForNextTick`, `ExecuteIfBound`) are modelled as logs and a next-tick queue, not as
  closures. Two consequences:
  - What the engine does with a second `AddDynamic` of the same handler is not modelled.
  - The model keeps the order of requests among themselves and the order of delegate changes
    among themselves, but not their interleaving with each other.
- Memory safety is not modelled: the `[&]` lambda captures, and the runtime-update path reading
  `PendingUpdate` after `Remove`. The per-component signal carries a copy of the updated record.
- `FMessageLog` diagnostics on the AlreadyPendingUpdate path are not modelled.
- `ensure`/`ensureAlways`/`check`:
  - A failed `ensure` is the early return or skip the code performs.
  - A `check` is a precondition: lines 56, 69 and 101 of the extension component, and the
    non-null `Result.Instance`, which the handlers take as a non-null handle.
  - The `check` at line 69 is proved by `Tracking.NoPreInitMeansReady` rather than assumed. The
    proof relies on an assumption about the engine: a component for which
    `TryMakeCustomizableObjectReady` succeeds counts as ready afterwards. The model's
    `readyOnRequest` set stands for those components.
- Preconditions that stand for the source's unchecked dereferences; the source would crash
  where the model requires:
  - `NonNull(components)` on `InitializeMutableComponents` in all three classes, which use each
    component without a null check.
  - `env.PrivateReadable` on `FunctionLib.UpdateMutableMesh`, `FunctionLib.UpdateMutableMeshCallback`
    and `UpdateMutableComponents` of the initialisation component and of the subsystem. They read
    the instance's private data without a null check. The `Run…Barrier` methods carry the same
    preconditions as the enumeration methods they call.
  - The runtime-update members `IsComponentPendingUpdate`, `GetComponentIncompletePendingRuntimeUpdate`
    and `RuntimeUpdateMutableComponent` of the extension component take a non-null
    `ComponentId`. The source reads `Component->CustomizableObjectInstance` without a null check
    (lines 250 and 261, reached from line 218).
- The `Report…` and `Run…Barrier` methods deliver completions one after another, with no
  `Tick` in between. `Tick` only drains the next-tick queue and leaves the pending collections
  alone, so ticks between completions would not change the outcome. The `Run…Barrier` contracts
  state the pending collection and the queued signals. The request and delegate logs are stated
  by the contracts of the methods they call.
- `ExtensionComponent.MutableExtensionComponent.InitializeMutableComponents`: the
  `bInternalFromPreInit` parameter is accepted but unused, as in the source.
- The aggregate delegates are assumed not to change while a barrier runs. Binding them belongs to
  the owning actor and is not part of this model. The bound flags are fields that no modelled
  operation changes.
- `ExtensionComponent.MutableExtensionComponent.Deinitialize`: it differs from `Initialize` only
  in releasing memory (`Empty` rather than `Reset`), so the model states the same contract for
  both. The same holds in the other two classes.
- `ExtensionComponent.MutableExtensionComponent.Initialize`: like the source, it leaves the
  pre-initialisation gate and the cached list untouched.
- Not modelled: the module startup and shutdown hooks, reflection boilerplate, the
  `UPDATE_MUTABLE_MESH*` macros, and the header declarations, including `MutableExtensionComponent.h`,
  whose member names do not match the `.cpp`.
- Integer handles stand for object identity. Object lifetime and garbage collection are not
  modelled.
