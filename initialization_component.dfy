/**
 * `UMutableInitializationComponent`: an initialisation barrier and an update barrier over the
 * mesh instances of a list of components. Its completion handlers are unguarded: they signal
 * whenever their pending collection is empty, including for instances that were never pending.
 */
module InitializationComponent {
  import opened Wrappers
  import opened ExtensionTypes
  import opened MutableEngine
  import opened FunctionLib
  import opened PendingSets
  import opened Tracking

  /** What a next-tick timer set by the component will do. */
  datatype Signal =
    | AllInstancesInitialized  // CallOnAllInstancesInitialized
    | AllComponentsUpdated     // CallOnAllComponentsUpdated

  /** One delegate invocation made by a timer, with the completion flags as the delegate sees them. */
  datatype Delivery = Delivery(signal: Signal, hasCompletedInitialization: bool, hasCompletedUpdate: bool)

  /** The timers of one tick, in the order they were set: each sets its completion flag and then
      invokes its delegate if that is bound. */
  function Deliveries(timers: seq<Signal>, initialized: bool, updated: bool,
                      initializedBound: bool, updatedBound: bool): seq<Delivery>
    decreases |timers|
  {
    if timers == [] then []
    else
      var signal := timers[0];
      var initialized' := initialized || signal == AllInstancesInitialized;
      var updated' := updated || signal == AllComponentsUpdated;
      var bound := if signal == AllInstancesInitialized then initializedBound else updatedBound;
      (if bound then [Delivery(signal, initialized', updated')] else [])
        + Deliveries(timers[1..], initialized', updated', initializedBound, updatedBound)
  }

  /** Every delegate invoked sees its own completion flag already set, and only bound delegates
      are invoked. */
  lemma {:induction false} DeliveriesFollowFlags(timers: seq<Signal>, initialized: bool, updated: bool,
                                                 initializedBound: bool, updatedBound: bool)
    ensures forall d | d in Deliveries(timers, initialized, updated, initializedBound, updatedBound) ::
      && d.signal in timers
      && (d.signal == AllInstancesInitialized ==> d.hasCompletedInitialization && initializedBound)
      && (d.signal == AllComponentsUpdated ==> d.hasCompletedUpdate && updatedBound)
    decreases |timers|
  {
    if timers != [] {
      var signal := timers[0];
      DeliveriesFollowFlags(timers[1..], initialized || signal == AllInstancesInitialized,
        updated || signal == AllComponentsUpdated, initializedBound, updatedBound);
      assert timers == [signal] + timers[1..];
    }
  }

  class MutableInitializationComponent {
    /** `OnAllInstancesInitialized.IsBound()`. */
    var allInstancesInitializedBound: bool
    /** `OnAllComponentsUpdated.IsBound()`. */
    var allComponentsUpdatedBound: bool

    var hasCompletedInitialization: bool
    var hasCompletedUpdate: bool

    var instancesPendingInitialization: seq<InstanceId>
    var instancesPendingUpdate: seq<InstanceId>

    /** The timers set for the next tick, in the order they were set. */
    var nextTick: seq<Signal>
    /** The delegate invocations those timers have made so far. */
    ghost var delivered: seq<Delivery>
    /** The changes made to engine-owned delegates, oldest first. */
    ghost var delegateLog: seq<DelegateEvent>

    ghost predicate Valid()
      reads this`instancesPendingInitialization, this`instancesPendingUpdate
    {
      NoDuplicates(instancesPendingInitialization) && NoDuplicates(instancesPendingUpdate)
    }

    constructor ()
      ensures Valid()
      ensures !hasCompletedInitialization && !hasCompletedUpdate
      ensures !allInstancesInitializedBound && !allComponentsUpdatedBound
      ensures instancesPendingInitialization == [] && instancesPendingUpdate == []
      ensures nextTick == [] && delivered == [] && delegateLog == []
    {
      allInstancesInitializedBound, allComponentsUpdatedBound := false, false;
      hasCompletedInitialization, hasCompletedUpdate := false, false;
      instancesPendingInitialization, instancesPendingUpdate := [], [];
      nextTick, delivered, delegateLog := [], [], [];
    }

    /**
     * `InitializeMutableComponents`. With the delegate unbound nothing changes. Otherwise the
     * pending collection is rebuilt: each component whose instance has a valid status that is
     * NotGenerated contributes its instance once, and a listener is added for every such
     * component, shared instance or not. The signal is scheduled when nothing is pending.
     * Every component is dereferenced without a null check.
     */
    method InitializeMutableComponents(env: Engine, components: seq<ComponentRef>)
      requires Valid()
      requires NonNull(components)
      modifies this`instancesPendingInitialization, this`delegateLog, this`nextTick
      ensures Valid()
      ensures !allInstancesInitializedBound ==> unchanged(this)
      ensures allInstancesInitializedBound ==>
        var tracked := AddUniqueAll([], Candidates(Initialization, env, components));
        && instancesPendingInitialization == tracked
        && delegateLog == old(delegateLog) + UpdatedListeners(Candidates(Initialization, env, components))
        && nextTick == old(nextTick) + (if tracked == [] then [AllInstancesInitialized] else [])
    {
      if !allInstancesInitializedBound {
        return;
      }

      var pending: seq<InstanceId> := [];
      ghost var listened: seq<InstanceId> := [];
      var i := 0;
      while i < |components|
        invariant 0 <= i <= |components|
        invariant pending == AddUniqueAll([], Candidates(Initialization, env, components[..i]))
        invariant listened == Candidates(Initialization, env, components[..i])
        modifies {}
      {
        TrackStep(Initialization, env, [], components, i);
        assert components[..i + 1][..i] == components[..i];
        var component := components[i];
        var instance := env.InstanceOf(component);
        if instance.Some? {
          var (status, valid) := GetMutableComponentStatus(env, component);
          if valid {
            if status == SkeletalMeshStatus.NotGenerated {
              pending := AddUnique(pending, instance.value);
              listened := listened + [instance.value];
            }
          }
        }
        i := i + 1;
      }
      assert components[..i] == components;
      AddUniqueAllNoDuplicates([], Candidates(Initialization, env, components));
      instancesPendingInitialization := pending;
      delegateLog := delegateLog + UpdatedListeners(listened);

      if |instancesPendingInitialization| == 0 {
        CallOnAllInstancesInitialized();
      }
    }

    /**
     * `OnMutableInstanceInitialized`: the instance leaves the collection if it was there, its
     * listener is removed in every case, and the signal is scheduled whenever the collection is
     * empty afterwards.
     */
    method OnMutableInstanceInitialized(instance: InstanceId)
      requires Valid()
      modifies this`instancesPendingInitialization, this`delegateLog, this`nextTick
      ensures Valid()
      ensures instancesPendingInitialization == Without(old(instancesPendingInitialization), instance)
      ensures instance !in instancesPendingInitialization
      ensures delegateLog == old(delegateLog) + [RemoveUpdated(instance)]
      ensures nextTick == old(nextTick) + if instancesPendingInitialization == [] then [AllInstancesInitialized] else []
    {
      WithoutMembers(instancesPendingInitialization, instance, instance);
      if instance in instancesPendingInitialization {
        WithoutNoDuplicates(instancesPendingInitialization, instance);
        instancesPendingInitialization := Without(instancesPendingInitialization, instance);
      } else {
        WithoutAbsent(instancesPendingInitialization, instance);
      }

      delegateLog := delegateLog + [RemoveUpdated(instance)];

      if |instancesPendingInitialization| == 0 {
        CallOnAllInstancesInitialized();
      }
    }

    /**
     * The engine reporting the completions `events`, one after another with no tick in between,
     * to `OnMutableInstanceInitialized`. Every reported instance leaves the collection, its listener is removed, and
     * the signals scheduled are the ones `UnguardedSignals` counts: one for every report that
     * finds the collection empty afterwards.
     */
    method ReportInstancesInitialized(events: seq<InstanceId>)
      requires Valid()
      modifies this`instancesPendingInitialization, this`delegateLog, this`nextTick
      ensures Valid()
      ensures instancesPendingInitialization == WithoutAll(old(instancesPendingInitialization), events)
      ensures delegateLog == old(delegateLog) + RemovedListeners(events)
      ensures nextTick == old(nextTick) + Repeat(UnguardedSignals(old(instancesPendingInitialization), events), AllInstancesInitialized)
    {
      ghost var start := instancesPendingInitialization;
      ghost var signalled: nat := 0;
      var i := 0;
      while i < |events|
        invariant 0 <= i <= |events|
        invariant Valid()
        invariant WithoutAll(instancesPendingInitialization, events[i..]) == WithoutAll(start, events)
        invariant signalled + UnguardedSignals(instancesPendingInitialization, events[i..]) == UnguardedSignals(start, events)
        invariant delegateLog == old(delegateLog) + RemovedListeners(events[..i])
        invariant nextTick == old(nextTick) + Repeat(signalled, AllInstancesInitialized)
      {
        var instance := events[i];
        assert events[i..][1..] == events[i + 1..];
        assert events[..i + 1] == events[..i] + [instance];
        RemovedListenersAppend(events[..i], instance);
        AppendAssociates(old(delegateLog), RemovedListeners(events[..i]), RemoveUpdated(instance));
        OnMutableInstanceInitialized(instance);
        if instancesPendingInitialization == [] {
          AppendAssociates(old(nextTick), Repeat(signalled, AllInstancesInitialized), AllInstancesInitialized);
          signalled := signalled + 1;
        }
        i := i + 1;
      }
      assert events[..i] == events;
    }

    /** `CallOnAllInstancesInitialized`: set a timer for the next tick, nothing more. */
    method CallOnAllInstancesInitialized()
      modifies this`nextTick
      ensures nextTick == old(nextTick) + [AllInstancesInitialized]
    {
      nextTick := nextTick + [AllInstancesInitialized];
    }

    /**
     * `UpdateMutableComponents`. It is guarded by the INITIALISATION delegate, as written. The
     * pending collection is not reset. Every component is handed to the update guard; each
     * accepted request adds its instance once, and the guard has issued one request per accepted
     * component, shared instance or not. The signal is scheduled when nothing is pending.
     */
    method UpdateMutableComponents(env: Engine, components: seq<ComponentRef>, ignoreCloseDist: bool, forceHighPriority: bool, log: RequestLog)
      requires Valid()
      requires forall k :: 0 <= k < |components| ==> env.PrivateReadable(components[k])
      modifies this`instancesPendingUpdate, this`nextTick, log
      ensures Valid()
      ensures !allInstancesInitializedBound ==> unchanged(this) && unchanged(log)
      ensures allInstancesInitializedBound ==>
        var accepted := Candidates(Update, env, components);
        var tracked := AddUniqueAll(old(instancesPendingUpdate), accepted);
        && instancesPendingUpdate == tracked
        && log.requests == old(log.requests) + UpdateRequests(accepted, Some(ComponentInstanceUpdated), ignoreCloseDist, forceHighPriority)
        && nextTick == old(nextTick) + (if tracked == [] then [AllComponentsUpdated] else [])
    {
      if !allInstancesInitializedBound {
        return;
      }

      var start := instancesPendingUpdate;
      var pending := start;
      ghost var accepted: seq<InstanceId> := [];
      var i := 0;
      while i < |components|
        invariant 0 <= i <= |components|
        invariant accepted == Candidates(Update, env, components[..i])
        invariant pending == AddUniqueAll(start, accepted)
        invariant log.requests == old(log.requests) + UpdateRequests(accepted, Some(ComponentInstanceUpdated), ignoreCloseDist, forceHighPriority)
        modifies log
      {
        assert components[..i + 1][..i] == components[..i];
        UpdateCandidate(env, components[i]);
        var component := components[i];
        ghost var requests := UpdateRequests(accepted, Some(ComponentInstanceUpdated), ignoreCloseDist, forceHighPriority);
        var ok := UpdateMutableMeshCallback(env, component, ComponentInstanceUpdated, ignoreCloseDist, forceHighPriority, log);
        if ok {
          var instance := env.InstanceOf(component).value;
          UpdateRequestsAppend(accepted, instance, Some(ComponentInstanceUpdated), ignoreCloseDist, forceHighPriority);
          AppendAssociates(old(log.requests), requests, UpdateAsync(instance, Some(ComponentInstanceUpdated), ignoreCloseDist, forceHighPriority));
          AddUniqueAllStep(start, accepted, instance);
          pending := AddUnique(pending, instance);
          accepted := accepted + [instance];
        } else {
          assert Candidates(Update, env, components[..i + 1]) == accepted + [];
        }
        i := i + 1;
      }
      assert components[..i] == components;
      AddUniqueAllNoDuplicates(start, accepted);
      instancesPendingUpdate := pending;

      if |instancesPendingUpdate| == 0 {
        CallOnAllComponentsUpdated();
      }
    }

    /**
     * `OnMutableInstanceUpdated`: the instance leaves the collection if it was there, and the
     * signal is scheduled whenever the collection is empty afterwards.
     */
    method OnMutableInstanceUpdated(instance: InstanceId)
      requires Valid()
      modifies this`instancesPendingUpdate, this`nextTick
      ensures Valid()
      ensures instancesPendingUpdate == Without(old(instancesPendingUpdate), instance)
      ensures instance !in instancesPendingUpdate
      ensures nextTick == old(nextTick) + if instancesPendingUpdate == [] then [AllComponentsUpdated] else []
    {
      WithoutMembers(instancesPendingUpdate, instance, instance);
      if instance in instancesPendingUpdate {
        WithoutNoDuplicates(instancesPendingUpdate, instance);
        instancesPendingUpdate := Without(instancesPendingUpdate, instance);
      } else {
        WithoutAbsent(instancesPendingUpdate, instance);
      }

      if |instancesPendingUpdate| == 0 {
        CallOnAllComponentsUpdated();
      }
    }

    /**
     * The engine reporting the completions `events`, one after another with no tick in between,
     * to `OnMutableInstanceUpdated`. Every reported instance leaves the collection, and the
     * signals scheduled are the ones `UnguardedSignals` counts.
     */
    method ReportInstancesUpdated(events: seq<InstanceId>)
      requires Valid()
      modifies this`instancesPendingUpdate, this`nextTick
      ensures Valid()
      ensures instancesPendingUpdate == WithoutAll(old(instancesPendingUpdate), events)
      ensures nextTick == old(nextTick) + Repeat(UnguardedSignals(old(instancesPendingUpdate), events), AllComponentsUpdated)
    {
      ghost var start := instancesPendingUpdate;
      ghost var signalled: nat := 0;
      var i := 0;
      while i < |events|
        invariant 0 <= i <= |events|
        invariant Valid()
        invariant WithoutAll(instancesPendingUpdate, events[i..]) == WithoutAll(start, events)
        invariant signalled + UnguardedSignals(instancesPendingUpdate, events[i..]) == UnguardedSignals(start, events)
        invariant nextTick == old(nextTick) + Repeat(signalled, AllComponentsUpdated)
      {
        var instance := events[i];
        assert events[i..][1..] == events[i + 1..];
        OnMutableInstanceUpdated(instance);
        if instancesPendingUpdate == [] {
          AppendAssociates(old(nextTick), Repeat(signalled, AllComponentsUpdated), AllComponentsUpdated);
          signalled := signalled + 1;
        }
        i := i + 1;
      }
    }

    /** `CallOnAllComponentsUpdated`: set a timer for the next tick, nothing more. */
    method CallOnAllComponentsUpdated()
      modifies this`nextTick
      ensures nextTick == old(nextTick) + [AllComponentsUpdated]
    {
      nextTick := nextTick + [AllComponentsUpdated];
    }

    /**
     * One initialisation barrier from start to finish: `InitializeMutableComponents` with its
     * delegate bound, then the completions `events` (no tick in between). The signals are the
     * enumeration's, when nothing qualifies, plus one for every report that leaves the
     * collection empty; when something is tracked, some signal is scheduled exactly when the
     * events include every tracked instance.
     */
    method RunInitializationBarrier(env: Engine, components: seq<ComponentRef>, events: seq<InstanceId>)
      requires Valid()
      requires NonNull(components)
      requires allInstancesInitializedBound
      modifies this`instancesPendingInitialization, this`delegateLog, this`nextTick
      ensures Valid()
      ensures var tracked := AddUniqueAll([], Candidates(Initialization, env, components));
        && instancesPendingInitialization == WithoutAll(tracked, events)
        && nextTick == old(nextTick) + Repeat((if tracked == [] then 1 else 0) + UnguardedSignals(tracked, events), AllInstancesInitialized)
        && (tracked != [] ==> (|nextTick| > |old(nextTick)| <==> events != [] && AllIn(tracked, events)))
    {
      InitializeMutableComponents(env, components);
      ghost var tracked := instancesPendingInitialization;
      ReportInstancesInitialized(events);
      UnguardedBarrierRun(Initialization, env, [], components, events);
      var n := UnguardedSignals(tracked, events);
      if tracked == [] {
        RepeatCons(n, AllInstancesInitialized);
        ConcatAssociates(old(nextTick), [AllInstancesInitialized], Repeat(n, AllInstancesInitialized));
      } else {
        assert old(nextTick) + [] == old(nextTick);
      }
    }

    /**
     * One update barrier from start to finish: `UpdateMutableComponents` with the initialisation
     * delegate bound, then the completions `events` (no tick in between). The instances already
     * pending stay tracked; when something is tracked, some signal is scheduled exactly when the
     * events include every tracked instance.
     */
    method RunUpdateBarrier(env: Engine, components: seq<ComponentRef>, ignoreCloseDist: bool, forceHighPriority: bool,
                            log: RequestLog, events: seq<InstanceId>)
      requires Valid()
      requires forall k :: 0 <= k < |components| ==> env.PrivateReadable(components[k])
      requires allInstancesInitializedBound
      modifies this`instancesPendingUpdate, this`nextTick, log
      ensures Valid()
      ensures var tracked := AddUniqueAll(old(instancesPendingUpdate), Candidates(Update, env, components));
        && instancesPendingUpdate == WithoutAll(tracked, events)
        && nextTick == old(nextTick) + Repeat((if tracked == [] then 1 else 0) + UnguardedSignals(tracked, events), AllComponentsUpdated)
        && (tracked != [] ==> (|nextTick| > |old(nextTick)| <==> events != [] && AllIn(tracked, events)))
    {
      UpdateMutableComponents(env, components, ignoreCloseDist, forceHighPriority, log);
      ghost var tracked := instancesPendingUpdate;
      ReportInstancesUpdated(events);
      UnguardedBarrierRun(Update, env, old(instancesPendingUpdate), components, events);
      var n := UnguardedSignals(tracked, events);
      if tracked == [] {
        RepeatCons(n, AllComponentsUpdated);
        ConcatAssociates(old(nextTick), [AllComponentsUpdated], Repeat(n, AllComponentsUpdated));
      } else {
        assert old(nextTick) + [] == old(nextTick);
      }
    }

    /** `Initialize`: both pending collections are emptied. */
    method Initialize()
      modifies this`instancesPendingInitialization, this`instancesPendingUpdate
      ensures Valid()
      ensures instancesPendingInitialization == [] && instancesPendingUpdate == []
    {
      instancesPendingInitialization := [];
      instancesPendingUpdate := [];
    }

    /** `Deinitialize`: the same emptying (the source also frees the memory). */
    method Deinitialize()
      modifies this`instancesPendingInitialization, this`instancesPendingUpdate
      ensures Valid()
      ensures instancesPendingInitialization == [] && instancesPendingUpdate == []
    {
      instancesPendingInitialization := [];
      instancesPendingUpdate := [];
    }

    /**
     * The next tick of the world's timer manager: every timer set so far runs, in order. A
     * completion flag becomes true when its timer was among them, and each bound delegate is
     * invoked once per timer, seeing its flag already set.
     */
    method Tick()
      modifies this`nextTick, this`hasCompletedInitialization, this`hasCompletedUpdate, this`delivered
      ensures nextTick == []
      ensures hasCompletedInitialization == (old(hasCompletedInitialization) || AllInstancesInitialized in old(nextTick))
      ensures hasCompletedUpdate == (old(hasCompletedUpdate) || AllComponentsUpdated in old(nextTick))
      ensures delivered == old(delivered) + Deliveries(old(nextTick), old(hasCompletedInitialization), old(hasCompletedUpdate),
        allInstancesInitializedBound, allComponentsUpdatedBound)
    {
      ghost var deliveries := Deliveries(nextTick, hasCompletedInitialization, hasCompletedUpdate,
        allInstancesInitializedBound, allComponentsUpdatedBound);
      var initialized := hasCompletedInitialization || AllInstancesInitialized in nextTick;
      var updated := hasCompletedUpdate || AllComponentsUpdated in nextTick;
      delivered := delivered + deliveries;
      hasCompletedInitialization, hasCompletedUpdate, nextTick := initialized, updated, [];
    }
  }
}
