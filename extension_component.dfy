/**
 * `UMutableExtensionComponent`: a pre-initialisation gate, an initialisation barrier, an
 * initial-update barrier and a keyed registry of runtime updates, all driven by engine
 * completion events and signalling the owner one tick later through timers.
 */
module ExtensionComponent {
  import opened Wrappers
  import opened ExtensionTypes
  import opened MutableEngine
  import opened FunctionLib
  import opened PendingSets
  import opened Tracking

  /** What a next-tick timer set by the component will do. */
  datatype Signal =
    | AllInstancesInitialized                              // CallOnAllInstancesInitialized
    | AllComponentsInitialUpdated                          // CallOnAllComponentsInitialUpdated
    | ComponentRuntimeUpdated(update: PendingRuntimeUpdate) // CallOnComponentRuntimeUpdateCompleted

  /** One delegate invocation made by a timer, with the completion flags as the delegate sees them. */
  datatype Delivery = Delivery(signal: Signal, hasCompletedInitialization: bool, hasCompletedInitialUpdate: bool)

  /**
   * The timers of one tick, run in the order they were set: the aggregate timers first set
   * their completion flag, then invoke their delegate if it is bound
   * (`ExecuteIfBound`); the runtime-update timer only invokes its delegate.
   */
  function Deliveries(timers: seq<Signal>, initialized: bool, initialUpdated: bool,
                      initializedBound: bool, initialUpdatedBound: bool, runtimeUpdatedBound: bool): seq<Delivery>
    decreases |timers|
  {
    if timers == [] then []
    else
      var signal := timers[0];
      var initialized' := initialized || signal == AllInstancesInitialized;
      var initialUpdated' := initialUpdated || signal == AllComponentsInitialUpdated;
      var bound := match signal
        case AllInstancesInitialized => initializedBound
        case AllComponentsInitialUpdated => initialUpdatedBound
        case ComponentRuntimeUpdated(_) => runtimeUpdatedBound;
      (if bound then [Delivery(signal, initialized', initialUpdated')] else [])
        + Deliveries(timers[1..], initialized', initialUpdated', initializedBound, initialUpdatedBound, runtimeUpdatedBound)
  }

  /** Every aggregate delegate sees its own completion flag already set, and only bound
      delegates are invoked. */
  lemma {:induction false} DeliveriesFollowFlags(timers: seq<Signal>, initialized: bool, initialUpdated: bool,
                                                 initializedBound: bool, initialUpdatedBound: bool, runtimeUpdatedBound: bool)
    ensures forall d | d in Deliveries(timers, initialized, initialUpdated, initializedBound, initialUpdatedBound, runtimeUpdatedBound) ::
      && d.signal in timers
      && (d.signal == AllInstancesInitialized ==> d.hasCompletedInitialization && initializedBound)
      && (d.signal == AllComponentsInitialUpdated ==> d.hasCompletedInitialUpdate && initialUpdatedBound)
      && (d.signal.ComponentRuntimeUpdated? ==> runtimeUpdatedBound)
    decreases |timers|
  {
    if timers != [] {
      var signal := timers[0];
      DeliveriesFollowFlags(timers[1..], initialized || signal == AllInstancesInitialized,
        initialUpdated || signal == AllComponentsInitialUpdated, initializedBound, initialUpdatedBound, runtimeUpdatedBound);
      assert timers == [signal] + timers[1..];
    }
  }

  /** The listeners removed when the guarded initialisation handler receives `events` in turn:
      one for each report that finds its instance pending. */
  function GuardedRemovals(pending: seq<InstanceId>, events: seq<InstanceId>): seq<DelegateEvent>
    decreases |events|
  {
    if events == [] then []
    else if events[0] in pending then [RemoveUpdated(events[0])] + GuardedRemovals(Without(pending, events[0]), events[1..])
    else GuardedRemovals(pending, events[1..])
  }

  /** A run of completions removes the listener of exactly the pending instances it reports,
      once each: one removal per instance that leaves the collection. */
  lemma {:induction false} GuardedRemovalsOnce(pending: seq<InstanceId>, events: seq<InstanceId>, x: InstanceId)
    requires NoDuplicates(pending)
    ensures RemoveUpdated(x) in GuardedRemovals(pending, events) <==> x in pending && x in events
    ensures |GuardedRemovals(pending, events)| + |WithoutAll(pending, events)| == |pending|
    decreases |events|
  {
    if events != [] {
      var e := events[0];
      assert events == [e] + events[1..];
      if e in pending {
        WithoutNoDuplicates(pending, e);
        WithoutLength(pending, e);
        WithoutMembers(pending, e, x);
        GuardedRemovalsOnce(Without(pending, e), events[1..], x);
      } else {
        WithoutAbsent(pending, e);
        GuardedRemovalsOnce(pending, events[1..], x);
      }
    }
  }

  /** A runtime-update record while it is in the registry: keyed by its own instance, made for a
      non-null component, its result still unset. */
  ghost predicate InFlight(instance: InstanceId, update: PendingRuntimeUpdate) {
    && update.mutableInstance == Some(instance)
    && update.mutableComponent.Some?
    && update.updateResult == UpdateResult.Error
  }

  /** The pre-initialisation loop of `InitializeMutableComponents` (lines 35-51): each distinct
      component that is not ready and cannot be made ready, in order. */
  method ScanPreInitialization(env: Engine, components: seq<ComponentRef>) returns (preInit: seq<ComponentId>)
    requires NonNull(components)
    ensures preInit == AddUniqueAll([], PreInitCandidates(env, components))
  {
    preInit := [];
    var i := 0;
    while i < |components|
      invariant 0 <= i <= |components|
      invariant preInit == AddUniqueAll([], PreInitCandidates(env, components[..i]))
    {
      PreInitStep(env, components, i);
      var component := components[i].value;
      if component !in preInit {
        if component !in env.ready {
          if component !in env.readyOnRequest {
            preInit := preInit + [component];
          }
        }
      }
      i := i + 1;
    }
    assert components[..i] == components;
  }

  /** The tracking loop of `InitializeMutableComponents` (lines 62-89), run once the
      pre-initialisation gate is open: each distinct qualifying instance is tracked once and gets
      one generate request. */
  method TrackInitialization(env: Engine, components: seq<ComponentRef>, log: RequestLog) returns (pending: seq<InstanceId>)
    requires NonNull(components)
    requires AllReady(env, components)
    modifies log
    ensures pending == AddUniqueAll([], Candidates(ExtensionInitialization, env, components))
    ensures log.requests == old(log.requests) + GenerateRequests(pending)
  {
    pending := [];
    var i := 0;
    while i < |components|
      invariant 0 <= i <= |components|
      invariant pending == AddUniqueAll([], Candidates(ExtensionInitialization, env, components[..i]))
      invariant log.requests == old(log.requests) + GenerateRequests(pending)
    {
      ghost var before := pending;
      var component := components[i];
      var instance := env.InstanceOf(component);
      if instance.Some? {
        assert component.value in env.ready || component.value in env.readyOnRequest;
        var (status, valid) := GetMutableComponentStatus(env, component);
        if valid {
          if status == SkeletalMeshStatus.NotGenerated && instance.value in env.updatable {
            if instance.value !in pending {
              GenerateRequestsAppend(pending, instance.value);
              AppendAssociates(old(log.requests), GenerateRequests(pending), GenerateIfNotGenerated(instance.value));
              pending := pending + [instance.value];
              log.requests := log.requests + [GenerateIfNotGenerated(instance.value)];
            }
          }
        }
      }
      assert pending == AddUniqueAll([], Candidates(ExtensionInitialization, env, components[..i + 1])) by {
        TrackStep(ExtensionInitialization, env, [], components, i);
        ExtensionInitializationCandidate(env, components[i]);
      }
      i := i + 1;
    }
    assert components[..i] == components;
  }

  /** The loop of `InitialUpdateMutableComponents` (lines 149-171): null components, components
      without an instance and components not valid to update are skipped; each distinct instance
      not already pending joins `start` once and gets one update request bound to the
      initial-update handler. */
  method SubmitInitialUpdates(env: Engine, start: seq<InstanceId>, components: seq<ComponentRef>,
                              ignoreCloseDist: bool, forceHighPriority: bool, log: RequestLog)
    returns (pending: seq<InstanceId>)
    modifies log
    ensures pending == AddUniqueAll(start, Candidates(Update, env, components))
    ensures |start| <= |pending| && log.requests == old(log.requests) + UpdateRequests(pending[|start|..], Some(InitialUpdateCompleted), ignoreCloseDist, forceHighPriority)
  {
    pending := start;
    ghost var submitted: seq<InstanceId> := [];
    var i := 0;
    while i < |components|
      invariant 0 <= i <= |components|
      invariant pending == AddUniqueAll(start, Candidates(Update, env, components[..i]))
      invariant pending == start + submitted
      invariant log.requests == old(log.requests) + UpdateRequests(submitted, Some(InitialUpdateCompleted), ignoreCloseDist, forceHighPriority)
    {
      TrackStep(Update, env, start, components, i);
      UpdateCandidate(env, components[i]);
      var component := components[i];
      if component.None? || env.InstanceOf(component).None? {
        // skipped without complaint
      } else if !IsMutableMeshValidToUpdate(env, component) {
        // the ensure fails and the component is skipped
      } else {
        var instance := env.InstanceOf(component).value;
        if instance !in pending {
          var request := UpdateAsync(instance, Some(InitialUpdateCompleted), ignoreCloseDist, forceHighPriority);
          UpdateRequestsAppend(submitted, instance, Some(InitialUpdateCompleted), ignoreCloseDist, forceHighPriority);
          AppendAssociates(old(log.requests), UpdateRequests(submitted, Some(InitialUpdateCompleted), ignoreCloseDist, forceHighPriority), request);
          AppendAssociates(start, submitted, instance);
          pending := pending + [instance];
          submitted := submitted + [instance];
          ValidToUpdateIsReadable(env, component);
          var accepted := UpdateMutableMeshCallback(env, component, InitialUpdateCompleted, ignoreCloseDist, forceHighPriority, log);
        }
      }
      i := i + 1;
    }
    assert components[..i] == components;
    assert pending[|start|..] == submitted;
  }

  class MutableExtensionComponent {
    /** `OnAllInstancesInitializeCompleted.IsBound()`. */
    var allInstancesInitializeCompletedBound: bool
    /** `OnAllComponentsInitialUpdateCompleted.IsBound()`. */
    var allComponentsInitialUpdateCompletedBound: bool
    /** `OnComponentRuntimeUpdateCompleted.IsBound()`. */
    var componentRuntimeUpdateCompletedBound: bool

    var hasCompletedInitialization: bool
    var hasCompletedInitialUpdate: bool

    var componentsPendingPreInitialization: seq<ComponentId>
    var cachedPreInitializeComponents: seq<ComponentRef>
    var instancesPendingInitialization: seq<InstanceId>
    var instancesPendingInitialUpdate: seq<InstanceId>
    var instancesPendingRuntimeUpdate: map<InstanceId, PendingRuntimeUpdate>

    /** The timers set for the next tick, in the order they were set. */
    var nextTick: seq<Signal>
    /** The delegate invocations those timers have made so far. */
    ghost var delivered: seq<Delivery>
    /** The changes made to engine-owned delegates, oldest first. */
    ghost var delegateLog: seq<DelegateEvent>

    ghost predicate Valid()
      reads this`componentsPendingPreInitialization, this`cachedPreInitializeComponents, this`instancesPendingInitialization
      reads this`instancesPendingInitialUpdate, this`instancesPendingRuntimeUpdate
    {
      && NoDuplicates(componentsPendingPreInitialization)
      && NoDuplicates(instancesPendingInitialization)
      && NoDuplicates(instancesPendingInitialUpdate)
      && NonNull(cachedPreInitializeComponents)
      // no instance is tracked while the pre-initialisation gate is closed
      && (componentsPendingPreInitialization != [] ==> instancesPendingInitialization == [])
      && forall instance | instance in instancesPendingRuntimeUpdate :: InFlight(instance, instancesPendingRuntimeUpdate[instance])
    }

    /**
     * What `InitializeMutableComponents(components)` leaves when its delegate is bound
     * (`delegateLogBefore` is the delegate log at the call). Both pending collections are
     * rebuilt from scratch. If some component still needs pre-initialisation, those components
     * are pending with a ready-listener each, and no instance is tracked or signalled. Otherwise
     * the qualifying distinct instances are pending, each with one listener and one generate
     * request, and the initialisation signal is scheduled when there are none.
     */
    twostate predicate InitializationRan(env: Engine, components: seq<ComponentRef>, log: RequestLog, delegateLogBefore: seq<DelegateEvent>)
      reads this, log
    {
      var preInit := AddUniqueAll([], PreInitCandidates(env, components));
      && componentsPendingPreInitialization == preInit
      && if preInit != [] then
           && instancesPendingInitialization == []
           && delegateLog == delegateLogBefore + ReadyBindings(preInit)
           && log.requests == old(log.requests)
           && nextTick == old(nextTick)
         else
           var tracked := AddUniqueAll([], Candidates(ExtensionInitialization, env, components));
           && instancesPendingInitialization == tracked
           && delegateLog == delegateLogBefore + UpdatedListeners(tracked)
           && log.requests == old(log.requests) + GenerateRequests(tracked)
           && nextTick == old(nextTick) + (if tracked == [] then [AllInstancesInitialized] else [])
    }

    constructor ()
      ensures Valid()
      ensures !hasCompletedInitialization && !hasCompletedInitialUpdate
      ensures !allInstancesInitializeCompletedBound && !allComponentsInitialUpdateCompletedBound && !componentRuntimeUpdateCompletedBound
      ensures componentsPendingPreInitialization == [] && cachedPreInitializeComponents == []
      ensures instancesPendingInitialization == [] && instancesPendingInitialUpdate == [] && instancesPendingRuntimeUpdate == map[]
      ensures nextTick == [] && delivered == [] && delegateLog == []
    {
      allInstancesInitializeCompletedBound, allComponentsInitialUpdateCompletedBound, componentRuntimeUpdateCompletedBound := false, false, false;
      hasCompletedInitialization, hasCompletedInitialUpdate := false, false;
      componentsPendingPreInitialization, cachedPreInitializeComponents := [], [];
      instancesPendingInitialization, instancesPendingInitialUpdate := [], [];
      instancesPendingRuntimeUpdate := map[];
      nextTick, delivered, delegateLog := [], [], [];
    }

    // ---------------------------------------------------------------- initialisation

    /**
     * `InitializeMutableComponents`. Every component is dereferenced without a null check, and
     * the run must not close the pre-initialisation gate after initialisation has completed.
     */
    method InitializeMutableComponents(env: Engine, components: seq<ComponentRef>, internalFromPreInit: bool, log: RequestLog)
      requires Valid()
      requires NonNull(components)
      requires allInstancesInitializeCompletedBound && PreInitCandidates(env, components) != [] ==> !hasCompletedInitialization
      modifies this`componentsPendingPreInitialization, this`cachedPreInitializeComponents, this`instancesPendingInitialization
      modifies this`nextTick, this`delegateLog, log
      ensures Valid()
      ensures !old(allInstancesInitializeCompletedBound) ==> unchanged(this) && unchanged(log)
      ensures old(allInstancesInitializeCompletedBound) ==> InitializationRan(env, components, log, old(delegateLog))
      ensures old(allInstancesInitializeCompletedBound) ==>
        cachedPreInitializeComponents == if componentsPendingPreInitialization != [] then components else old(cachedPreInitializeComponents)
    {
      if !allInstancesInitializeCompletedBound {
        return;
      }
      instancesPendingInitialization := [];
      componentsPendingPreInitialization := [];

      // pre-initialisation: every component must be ready before its status can be queried
      var preInit := ScanPreInitialization(env, components);
      AddUniqueAllNoDuplicates([], PreInitCandidates(env, components));
      componentsPendingPreInitialization := preInit;
      delegateLog := delegateLog + ReadyBindings(preInit);

      if |componentsPendingPreInitialization| > 0 {
        AddUniqueAllMembers([], PreInitCandidates(env, components), preInit[0]);
        assert !hasCompletedInitialization;
        cachedPreInitializeComponents := components;
        return;
      }

      // initialisation: track every distinct instance that still has to generate
      assert delegateLog == old(delegateLog) by { assert ReadyBindings(preInit) == []; }
      NoPreInitMeansReady(env, components);
      var pending := TrackInitialization(env, components, log);
      AddUniqueAllNoDuplicates([], Candidates(ExtensionInitialization, env, components));
      instancesPendingInitialization := pending;
      delegateLog := delegateLog + UpdatedListeners(pending);

      if |instancesPendingInitialization| == 0 {
        CallOnAllInstancesInitialized();
      }
    }

    /**
     * `OnMutableComponentPreInitializeCompleted`: a component that was waiting for
     * pre-initialisation is ready. It leaves the gate and its ready-listener is unbound; when it
     * was the last one, initialisation re-runs on the cached list, and the cache is emptied
     * afterwards. A component that was not waiting changes nothing.
     */
    method OnMutableComponentPreInitializeCompleted(env: Engine, component: ComponentId, log: RequestLog)
      requires Valid()
      requires component in componentsPendingPreInitialization ==> component in env.ready
      requires && component in componentsPendingPreInitialization
               && Without(componentsPendingPreInitialization, component) == []
               && allInstancesInitializeCompletedBound
               && PreInitCandidates(env, cachedPreInitializeComponents) != []
               ==> !hasCompletedInitialization
      modifies this`componentsPendingPreInitialization, this`cachedPreInitializeComponents, this`instancesPendingInitialization
      modifies this`nextTick, this`delegateLog, log
      ensures Valid()
      ensures component !in old(componentsPendingPreInitialization) ==> unchanged(this) && unchanged(log)
      ensures component in old(componentsPendingPreInitialization) && Without(old(componentsPendingPreInitialization), component) != [] ==>
        && componentsPendingPreInitialization == Without(old(componentsPendingPreInitialization), component)
        && delegateLog == old(delegateLog) + [UnbindReady(component)]
        && instancesPendingInitialization == old(instancesPendingInitialization)
        && cachedPreInitializeComponents == old(cachedPreInitializeComponents)
        && nextTick == old(nextTick) && log.requests == old(log.requests)
      ensures component in old(componentsPendingPreInitialization) && Without(old(componentsPendingPreInitialization), component) == [] ==>
        && cachedPreInitializeComponents == []
        && (allInstancesInitializeCompletedBound ==>
              InitializationRan(env, old(cachedPreInitializeComponents), log, old(delegateLog) + [UnbindReady(component)]))
        && (!allInstancesInitializeCompletedBound ==>
              && componentsPendingPreInitialization == [] && instancesPendingInitialization == []
              && delegateLog == old(delegateLog) + [UnbindReady(component)]
              && nextTick == old(nextTick) && log.requests == old(log.requests))
    {
      if component in componentsPendingPreInitialization {
        assert component in env.ready;
        WithoutNoDuplicates(componentsPendingPreInitialization, component);
        componentsPendingPreInitialization := Without(componentsPendingPreInitialization, component);
        delegateLog := delegateLog + [UnbindReady(component)];

        if |componentsPendingPreInitialization| == 0 {
          InitializeMutableComponents(env, cachedPreInitializeComponents, true, log);
          cachedPreInitializeComponents := [];
        }
      }
    }

    /**
     * `OnMutableInstanceInitializeCompleted`: a pending instance finished generating. It leaves
     * the collection and its listener is removed; the initialisation signal is scheduled when
     * that removal empties the collection. An instance that is not pending changes nothing, so
     * a repeated event never schedules a second signal.
     */
    method OnMutableInstanceInitializeCompleted(instance: InstanceId)
      requires Valid()
      modifies this`instancesPendingInitialization, this`delegateLog, this`nextTick
      ensures Valid()
      ensures instancesPendingInitialization == Without(old(instancesPendingInitialization), instance)
      ensures delegateLog == old(delegateLog) + if instance in old(instancesPendingInitialization) then [RemoveUpdated(instance)] else []
      ensures nextTick == old(nextTick)
        + if instance in old(instancesPendingInitialization) && instancesPendingInitialization == [] then [AllInstancesInitialized] else []
    {
      if instance in instancesPendingInitialization {
        WithoutNoDuplicates(instancesPendingInitialization, instance);
        instancesPendingInitialization := Without(instancesPendingInitialization, instance);
        delegateLog := delegateLog + [RemoveUpdated(instance)];

        if |instancesPendingInitialization| == 0 {
          CallOnAllInstancesInitialized();
        }
      } else {
        WithoutAbsent(instancesPendingInitialization, instance);
      }
    }

    /**
     * The engine reporting the completions `events`, one after another with no tick in between,
     * to `OnMutableInstanceInitializeCompleted`. Every reported instance leaves the collection,
     * one listener is removed per report that found its instance pending, and the signals
     * scheduled are the ones `GuardedSignals` counts.
     */
    method ReportInitializeCompleted(events: seq<InstanceId>)
      requires Valid()
      modifies this`instancesPendingInitialization, this`delegateLog, this`nextTick
      ensures Valid()
      ensures instancesPendingInitialization == WithoutAll(old(instancesPendingInitialization), events)
      ensures delegateLog == old(delegateLog) + GuardedRemovals(old(instancesPendingInitialization), events)
      ensures nextTick == old(nextTick) + Repeat(GuardedSignals(old(instancesPendingInitialization), events), AllInstancesInitialized)
    {
      ghost var start := instancesPendingInitialization;
      ghost var removed: seq<DelegateEvent> := [];
      ghost var signalled: nat := 0;
      var i := 0;
      while i < |events|
        invariant 0 <= i <= |events|
        invariant Valid()
        invariant WithoutAll(instancesPendingInitialization, events[i..]) == WithoutAll(start, events)
        invariant removed + GuardedRemovals(instancesPendingInitialization, events[i..]) == GuardedRemovals(start, events)
        invariant signalled + GuardedSignals(instancesPendingInitialization, events[i..]) == GuardedSignals(start, events)
        invariant delegateLog == old(delegateLog) + removed
        invariant nextTick == old(nextTick) + Repeat(signalled, AllInstancesInitialized)
      {
        var instance := events[i];
        assert events[i..][1..] == events[i + 1..];
        ghost var before := instancesPendingInitialization;
        if instance !in before {
          WithoutAbsent(before, instance);
        }
        OnMutableInstanceInitializeCompleted(instance);
        if instance in before {
          ConcatAssociates(removed, [RemoveUpdated(instance)], GuardedRemovals(instancesPendingInitialization, events[i + 1..]));
          AppendAssociates(old(delegateLog), removed, RemoveUpdated(instance));
          removed := removed + [RemoveUpdated(instance)];
          if instancesPendingInitialization == [] {
            AppendAssociates(old(nextTick), Repeat(signalled, AllInstancesInitialized), AllInstancesInitialized);
            signalled := signalled + 1;
          }
        }
        i := i + 1;
      }
    }

    /** `CallOnAllInstancesInitialized`: set a timer for the next tick, nothing more. */
    method CallOnAllInstancesInitialized()
      modifies this`nextTick
      ensures nextTick == old(nextTick) + [AllInstancesInitialized]
    {
      nextTick := nextTick + [AllInstancesInitialized];
    }

    // ---------------------------------------------------------------- initial update

    /**
     * `InitialUpdateMutableComponents`. The pending collection is NOT reset: every distinct
     * instance of a non-null component that is valid to update joins it once and gets one update
     * request bound to the initial-update handler; null components, components without an
     * instance and components not valid to update are skipped. The signal is scheduled when
     * nothing is pending after the loop.
     */
    method InitialUpdateMutableComponents(env: Engine, components: seq<ComponentRef>, ignoreCloseDist: bool, forceHighPriority: bool, log: RequestLog)
      requires Valid()
      modifies this`instancesPendingInitialUpdate, this`nextTick, log
      ensures Valid()
      ensures !old(allComponentsInitialUpdateCompletedBound) ==> unchanged(this) && unchanged(log)
      ensures old(allComponentsInitialUpdateCompletedBound) ==>
        var start := old(instancesPendingInitialUpdate);
        var tracked := AddUniqueAll(start, Candidates(Update, env, components));
        && instancesPendingInitialUpdate == tracked
        && |start| <= |tracked|
        && log.requests == old(log.requests) + UpdateRequests(tracked[|start|..], Some(InitialUpdateCompleted), ignoreCloseDist, forceHighPriority)
        && nextTick == old(nextTick) + (if tracked == [] then [AllComponentsInitialUpdated] else [])
    {
      if !allComponentsInitialUpdateCompletedBound {
        return;
      }
      var start := instancesPendingInitialUpdate;
      var pending := SubmitInitialUpdates(env, start, components, ignoreCloseDist, forceHighPriority, log);
      AddUniqueAllNoDuplicates(start, Candidates(Update, env, components));
      instancesPendingInitialUpdate := pending;

      if |instancesPendingInitialUpdate| == 0 {
        CallOnAllComponentsInitialUpdated();
      }
    }

    /**
     * `OnMutableInstanceInitialUpdateCompleted`: like the initialisation handler, a pending
     * instance leaves the collection and the signal is scheduled when that empties it; any
     * other instance changes nothing.
     */
    method OnMutableInstanceInitialUpdateCompleted(instance: InstanceId)
      requires Valid()
      modifies this`instancesPendingInitialUpdate, this`nextTick
      ensures Valid()
      ensures instancesPendingInitialUpdate == Without(old(instancesPendingInitialUpdate), instance)
      ensures nextTick == old(nextTick)
        + if instance in old(instancesPendingInitialUpdate) && instancesPendingInitialUpdate == [] then [AllComponentsInitialUpdated] else []
    {
      if instance in instancesPendingInitialUpdate {
        WithoutNoDuplicates(instancesPendingInitialUpdate, instance);
        instancesPendingInitialUpdate := Without(instancesPendingInitialUpdate, instance);

        if |instancesPendingInitialUpdate| == 0 {
          CallOnAllComponentsInitialUpdated();
        }
      } else {
        WithoutAbsent(instancesPendingInitialUpdate, instance);
      }
    }

    /**
     * The engine reporting the completions `events`, one after another with no tick in between,
     * to `OnMutableInstanceInitialUpdateCompleted`: every reported instance leaves the
     * collection, and the signals scheduled are the ones `GuardedSignals` counts.
     */
    method ReportInitialUpdateCompleted(events: seq<InstanceId>)
      requires Valid()
      modifies this`instancesPendingInitialUpdate, this`nextTick
      ensures Valid()
      ensures instancesPendingInitialUpdate == WithoutAll(old(instancesPendingInitialUpdate), events)
      ensures nextTick == old(nextTick) + Repeat(GuardedSignals(old(instancesPendingInitialUpdate), events), AllComponentsInitialUpdated)
    {
      ghost var start := instancesPendingInitialUpdate;
      ghost var signalled: nat := 0;
      var i := 0;
      while i < |events|
        invariant 0 <= i <= |events|
        invariant Valid()
        invariant WithoutAll(instancesPendingInitialUpdate, events[i..]) == WithoutAll(start, events)
        invariant signalled + GuardedSignals(instancesPendingInitialUpdate, events[i..]) == GuardedSignals(start, events)
        invariant nextTick == old(nextTick) + Repeat(signalled, AllComponentsInitialUpdated)
      {
        var instance := events[i];
        assert events[i..][1..] == events[i + 1..];
        ghost var before := instancesPendingInitialUpdate;
        if instance !in before {
          WithoutAbsent(before, instance);
        }
        OnMutableInstanceInitialUpdateCompleted(instance);
        if instance in before && instancesPendingInitialUpdate == [] {
          AppendAssociates(old(nextTick), Repeat(signalled, AllComponentsInitialUpdated), AllComponentsInitialUpdated);
          signalled := signalled + 1;
        }
        i := i + 1;
      }
    }

    /** `CallOnAllComponentsInitialUpdated`: set a timer for the next tick, nothing more. */
    method CallOnAllComponentsInitialUpdated()
      modifies this`nextTick
      ensures nextTick == old(nextTick) + [AllComponentsInitialUpdated]
    {
      nextTick := nextTick + [AllComponentsInitialUpdated];
    }

    // ---------------------------------------------------------------- whole barrier runs

    /**
     * One initialisation barrier from start to finish: `InitializeMutableComponents` with its
     * delegate bound, then the completions `events` (no tick in between). The initialisation
     * signal is scheduled exactly once when the pre-initialisation gate is open and every
     * tracked instance has reported, and not at all otherwise, however the events repeat.
     */
    method RunInitializationBarrier(env: Engine, components: seq<ComponentRef>, log: RequestLog, events: seq<InstanceId>)
      requires Valid()
      requires NonNull(components)
      requires allInstancesInitializeCompletedBound
      requires PreInitCandidates(env, components) != [] ==> !hasCompletedInitialization
      modifies this`componentsPendingPreInitialization, this`cachedPreInitializeComponents, this`instancesPendingInitialization
      modifies this`nextTick, this`delegateLog, log
      ensures Valid()
      ensures var gateOpen := AddUniqueAll([], PreInitCandidates(env, components)) == [];
        var tracked := if gateOpen then AddUniqueAll([], Candidates(ExtensionInitialization, env, components)) else [];
        && instancesPendingInitialization == WithoutAll(tracked, events)
        && nextTick == old(nextTick) + Repeat(if gateOpen && AllIn(tracked, events) then 1 else 0, AllInstancesInitialized)
    {
      InitializeMutableComponents(env, components, false, log);
      ghost var gateOpen := componentsPendingPreInitialization == [];
      ghost var tracked := instancesPendingInitialization;
      ghost var mid := nextTick;
      assert !gateOpen ==> tracked == [] && mid == old(nextTick);
      assert gateOpen ==> && tracked == AddUniqueAll([], Candidates(ExtensionInitialization, env, components))
                          && mid == old(nextTick) + (if tracked == [] then [AllInstancesInitialized] else []);
      ReportInitializeCompleted(events);
      GatedBarrierQueue(gateOpen, tracked, events, AllInstancesInitialized, old(nextTick), mid, nextTick);
    }

    /**
     * One initial-update barrier from start to finish: `InitialUpdateMutableComponents` with its
     * delegate bound, then the completions `events` (no tick in between). The instances already
     * pending stay tracked; the signal is scheduled exactly once when every tracked instance has
     * reported, and not at all otherwise.
     */
    method RunInitialUpdateBarrier(env: Engine, components: seq<ComponentRef>, ignoreCloseDist: bool, forceHighPriority: bool,
                                   log: RequestLog, events: seq<InstanceId>)
      requires Valid()
      requires allComponentsInitialUpdateCompletedBound
      modifies this`instancesPendingInitialUpdate, this`nextTick, log
      ensures Valid()
      ensures var tracked := AddUniqueAll(old(instancesPendingInitialUpdate), Candidates(Update, env, components));
        && instancesPendingInitialUpdate == WithoutAll(tracked, events)
        && nextTick == old(nextTick) + Repeat(if AllIn(tracked, events) then 1 else 0, AllComponentsInitialUpdated)
    {
      InitialUpdateMutableComponents(env, components, ignoreCloseDist, forceHighPriority, log);
      ghost var mid := nextTick;
      ReportInitialUpdateCompleted(events);
      GuardedBarrierRun(Update, env, old(instancesPendingInitialUpdate), components, events);
      assert Repeat(1, AllComponentsInitialUpdated) == [AllComponentsInitialUpdated];
      assert mid + Repeat(0, AllComponentsInitialUpdated) == mid;
    }

    // ---------------------------------------------------------------- runtime updates

    /** `IsPendingUpdate(Instance)`: a runtime update for this instance is in flight. */
    function IsPendingUpdate(instance: Option<InstanceId>): (r: bool)
      requires Valid()
      reads this
      ensures r <==> instance.Some? && instance.value in instancesPendingRuntimeUpdate
      ensures r ==> instancesPendingRuntimeUpdate[instance.value].mutableInstance == instance
    {
      instance.Some? && instance.value in instancesPendingRuntimeUpdate
    }

    /** `IsPendingUpdate(Component)`: asks about the component's instance, so it also reports an
        update that another component sharing that instance requested. */
    function IsComponentPendingUpdate(env: Engine, component: ComponentId): (r: bool)
      requires Valid()
      reads this
      ensures r ==> env.InstanceOf(Some(component)).Some?
      ensures r <==> IsPendingUpdate(env.InstanceOf(Some(component)))
    {
      IsPendingUpdate(env.InstanceOf(Some(component)))
    }

    /** `GetIncompletePendingRuntimeUpdate(Instance)`: the in-flight record, present exactly when
        the instance is pending, and then keyed by that instance with its result unset. */
    function GetIncompletePendingRuntimeUpdate(instance: Option<InstanceId>): (r: Option<PendingRuntimeUpdate>)
      requires Valid()
      reads this
      ensures r.Some? <==> IsPendingUpdate(instance)
      ensures r.Some? ==> r.value.mutableInstance == instance && r.value.updateResult == UpdateResult.Error
    {
      if instance.Some? && instance.value in instancesPendingRuntimeUpdate then Some(instancesPendingRuntimeUpdate[instance.value]) else Option.None
    }

    /** `GetIncompletePendingRuntimeUpdate(Component)`: the record for the component's instance. */
    function GetComponentIncompletePendingRuntimeUpdate(env: Engine, component: ComponentId): (r: Option<PendingRuntimeUpdate>)
      requires Valid()
      reads this
      ensures r.Some? <==> IsComponentPendingUpdate(env, component)
      ensures r.Some? ==> r.value.mutableInstance == env.InstanceOf(Some(component)) && r.value.updateResult == UpdateResult.Error
    {
      GetIncompletePendingRuntimeUpdate(env.InstanceOf(Some(component)))
    }

    /**
     * `RuntimeUpdateMutableComponent`. Errors are checked in order: an unbound delegate, then an
     * update already in flight for the component's instance, then a mesh not valid to update;
     * each returns false and leaves the registry and the engine untouched. Otherwise one record
     * keyed by the instance is inserted, one update request bound to the runtime-update handler
     * is issued, and the call returns true with no error.
     */
    method RuntimeUpdateMutableComponent(env: Engine, owningComponent: Option<MeshComponentId>, component: ComponentId,
                                         ignoreCloseDist: bool, forceHighPriority: bool, log: RequestLog)
      returns (ok: bool, error: RuntimeUpdateError)
      requires Valid()
      modifies this`instancesPendingRuntimeUpdate, log
      ensures Valid()
      ensures ok <==> error == RuntimeUpdateError.None
      ensures !old(componentRuntimeUpdateCompletedBound) ==> error == DelegateNotBound
      ensures old(componentRuntimeUpdateCompletedBound) && old(IsComponentPendingUpdate(env, component)) ==> error == AlreadyPendingUpdate
      ensures (old(componentRuntimeUpdateCompletedBound) && !old(IsComponentPendingUpdate(env, component))
               && !IsMutableMeshValidToUpdate(env, Some(component))) ==> error == MeshNotValidToUpdate
      ensures ok <==> && old(componentRuntimeUpdateCompletedBound)
                      && !old(IsComponentPendingUpdate(env, component))
                      && IsMutableMeshValidToUpdate(env, Some(component))
      ensures !ok ==> instancesPendingRuntimeUpdate == old(instancesPendingRuntimeUpdate) && log.requests == old(log.requests)
      ensures ok ==>
        var instance := env.InstanceOf(Some(component)).value;
        && instance !in old(instancesPendingRuntimeUpdate)
        && instancesPendingRuntimeUpdate
           == old(instancesPendingRuntimeUpdate)[instance := NewPendingRuntimeUpdate(Some(instance), Some(component), owningComponent)]
        && log.requests == old(log.requests) + [UpdateAsync(instance, Some(RuntimeUpdateCompleted), ignoreCloseDist, forceHighPriority)]
      // the record inserted is the one the component's lookup now returns
      ensures ok ==> GetComponentIncompletePendingRuntimeUpdate(env, component)
                     == Some(NewPendingRuntimeUpdate(env.InstanceOf(Some(component)), Some(component), owningComponent))
    {
      if !componentRuntimeUpdateCompletedBound {
        error := DelegateNotBound;
        return false, error;
      }

      error := RuntimeUpdateError.None;

      if IsComponentPendingUpdate(env, component) {
        error := AlreadyPendingUpdate;
        return false, error;
      }

      if !IsMutableMeshValidToUpdate(env, Some(component)) {
        error := MeshNotValidToUpdate;
        return false, error;
      }

      ValidToUpdateIsReadable(env, Some(component));
      var instance := env.InstanceOf(Some(component)).value;
      var pendingUpdate := NewPendingRuntimeUpdate(Some(instance), Some(component), owningComponent);
      instancesPendingRuntimeUpdate := instancesPendingRuntimeUpdate[instance := pendingUpdate];

      var accepted := UpdateMutableMeshCallback(env, Some(component), RuntimeUpdateCompleted, ignoreCloseDist, forceHighPriority, log);
      return true, error;
    }

    /**
     * `OnMutableInstanceRuntimeUpdateCompleted`: a record in flight for the instance takes the
     * reported result, leaves the registry, and is handed (as a copy) to the next-tick
     * per-component signal. An instance without a record changes nothing. Either way the
     * instance is no longer pending afterwards.
     */
    method OnMutableInstanceRuntimeUpdateCompleted(instance: InstanceId, result: UpdateResult)
      requires Valid()
      modifies this`instancesPendingRuntimeUpdate, this`nextTick
      ensures Valid()
      ensures !IsPendingUpdate(Some(instance)) && GetIncompletePendingRuntimeUpdate(Some(instance)) == Option.None
      ensures instance !in old(instancesPendingRuntimeUpdate) ==>
        instancesPendingRuntimeUpdate == old(instancesPendingRuntimeUpdate) && nextTick == old(nextTick)
      ensures instance in old(instancesPendingRuntimeUpdate) ==>
        && instancesPendingRuntimeUpdate == old(instancesPendingRuntimeUpdate) - {instance}
        && nextTick == old(nextTick) + [ComponentRuntimeUpdated(old(instancesPendingRuntimeUpdate)[instance].(updateResult := result))]
    {
      if instance in instancesPendingRuntimeUpdate {
        var pendingUpdate := instancesPendingRuntimeUpdate[instance];
        pendingUpdate := pendingUpdate.(updateResult := result);
        instancesPendingRuntimeUpdate := instancesPendingRuntimeUpdate - {instance};
        CallOnComponentRuntimeUpdateCompleted(pendingUpdate);
      }
    }

    /** `CallOnComponentRuntimeUpdateCompleted`: set a timer for the next tick carrying the record. */
    method CallOnComponentRuntimeUpdateCompleted(pendingUpdate: PendingRuntimeUpdate)
      modifies this`nextTick
      ensures nextTick == old(nextTick) + [ComponentRuntimeUpdated(pendingUpdate)]
    {
      nextTick := nextTick + [ComponentRuntimeUpdated(pendingUpdate)];
    }

    // ---------------------------------------------------------------- lifecycle and scheduling

    /** `Initialize`: the three pending collections are emptied; nothing else changes. */
    method Initialize()
      requires Valid()
      modifies this`instancesPendingInitialization, this`instancesPendingInitialUpdate, this`instancesPendingRuntimeUpdate
      ensures Valid()
      ensures instancesPendingInitialization == [] && instancesPendingInitialUpdate == [] && instancesPendingRuntimeUpdate == map[]
    {
      instancesPendingInitialization := [];
      instancesPendingInitialUpdate := [];
      instancesPendingRuntimeUpdate := map[];
    }

    /** `Deinitialize`: the same emptying (the source also frees the memory). */
    method Deinitialize()
      requires Valid()
      modifies this`instancesPendingInitialization, this`instancesPendingInitialUpdate, this`instancesPendingRuntimeUpdate
      ensures Valid()
      ensures instancesPendingInitialization == [] && instancesPendingInitialUpdate == [] && instancesPendingRuntimeUpdate == map[]
    {
      instancesPendingInitialization := [];
      instancesPendingInitialUpdate := [];
      instancesPendingRuntimeUpdate := map[];
    }

    /**
     * The next tick of the world's timer manager: every timer set so far runs, in order. A
     * completion flag becomes true when its timer was among them, and each delegate that is
     * bound is invoked once per timer, seeing its flag already set.
     */
    method Tick()
      requires Valid()
      modifies this`nextTick, this`hasCompletedInitialization, this`hasCompletedInitialUpdate, this`delivered
      ensures Valid()
      ensures nextTick == []
      ensures hasCompletedInitialization == (old(hasCompletedInitialization) || AllInstancesInitialized in old(nextTick))
      ensures hasCompletedInitialUpdate == (old(hasCompletedInitialUpdate) || AllComponentsInitialUpdated in old(nextTick))
      ensures delivered == old(delivered) + Deliveries(old(nextTick), old(hasCompletedInitialization), old(hasCompletedInitialUpdate),
        allInstancesInitializeCompletedBound, allComponentsInitialUpdateCompletedBound, componentRuntimeUpdateCompletedBound)
    {
      ghost var deliveries := Deliveries(nextTick, hasCompletedInitialization, hasCompletedInitialUpdate,
        allInstancesInitializeCompletedBound, allComponentsInitialUpdateCompletedBound, componentRuntimeUpdateCompletedBound);
      var initialized := hasCompletedInitialization || AllInstancesInitialized in nextTick;
      var initialUpdated := hasCompletedInitialUpdate || AllComponentsInitialUpdated in nextTick;
      delivered := delivered + deliveries;
      hasCompletedInitialization, hasCompletedInitialUpdate, nextTick := initialized, initialUpdated, [];
    }
  }
}
