/**
 * The mesh-generation engine as the plugin sees it. Nothing here is the plugin's own code: the
 * engine is a snapshot of what the plugin reads from it, and a log of what the plugin asks of it.
 */
module MutableEngine {
  import opened Wrappers
  import opened ExtensionTypes

  /** A `UCustomizableSkeletalComponent*` that may be null. */
  type ComponentRef = Option<ComponentId>

  /** Every element of a component list is a non-null pointer. */
  ghost predicate NonNull(components: seq<ComponentRef>) {
    forall k :: 0 <= k < |components| ==> components[k].Some?
  }

  /**
   * What the plugin can read from the engine at the moment of one call:
   * - `instanceOf`: `Component->CustomizableObjectInstance` (absent: null);
   * - `meshStatus`: `Instance->GetPrivate()->SkeletalMeshStatus` (absent: null private data);
   * - `ready`: components whose `IsCustomizableObjectReady()` holds;
   * - `readyOnRequest`: components whose `TryMakeCustomizableObjectReady()` succeeds;
   * - `updatable`: instances whose `CanUpdateInstance()` holds.
   */
  datatype Engine = Engine(
    instanceOf: map<ComponentId, InstanceId>,
    meshStatus: map<InstanceId, SkeletalMeshStatus>,
    ready: set<ComponentId>,
    readyOnRequest: set<ComponentId>,
    updatable: set<InstanceId>)
  {
    /** `Component->CustomizableObjectInstance`, null for a null component. */
    function InstanceOf(component: ComponentRef): Option<InstanceId> {
      if component.Some? && component.value in instanceOf then Some(instanceOf[component.value]) else Option.None
    }

    /** The component's instance, when it has one, has private data to read the status from. */
    predicate PrivateReadable(component: ComponentRef) {
      InstanceOf(component).Some? ==> InstanceOf(component).value in meshStatus
    }
  }

  /** The plugin function a completion delegate handed to the engine is bound to. */
  datatype UpdateHandler =
    | InitialUpdateCompleted    // UMutableExtensionComponent::OnMutableInstanceInitialUpdateCompleted
    | RuntimeUpdateCompleted    // UMutableExtensionComponent::OnMutableInstanceRuntimeUpdateCompleted
    | ComponentInstanceUpdated  // UMutableInitializationComponent::OnMutableInstanceUpdated
    | SubsystemInstanceUpdated  // UMutableExtensionSubsystem::OnMutableInstanceUpdated

  /** An asynchronous request the plugin issues to the engine. */
  datatype EngineRequest =
    | GenerateIfNotGenerated(instance: InstanceId)
    | UpdateAsync(instance: InstanceId, handler: Option<UpdateHandler>, ignoreCloseDist: bool, forceHighPriority: bool)

  /** A change the plugin makes to a delegate owned by an engine object. */
  datatype DelegateEvent =
    | BindReady(component: ComponentId)     // CustomizableObjectReadyDelegate.BindUObject
    | UnbindReady(component: ComponentId)   // CustomizableObjectReadyDelegate.Unbind
    | AddUpdated(instance: InstanceId)      // UpdatedDelegate.AddDynamic
    | RemoveUpdated(instance: InstanceId)   // UpdatedDelegate.RemoveDynamic

  /** The engine's record of the requests issued to it, oldest first. */
  class RequestLog {
    var requests: seq<EngineRequest>

    constructor ()
      ensures requests == []
    {
      requests := [];
    }
  }

  /** One `UpdateInstanceIfNotGenerated` request per instance, in order. */
  function GenerateRequests(instances: seq<InstanceId>): seq<EngineRequest>
    decreases |instances|
  {
    if instances == [] then []
    else GenerateRequests(instances[..|instances| - 1]) + [GenerateIfNotGenerated(instances[|instances| - 1])]
  }

  lemma GenerateRequestsAppend(instances: seq<InstanceId>, instance: InstanceId)
    ensures GenerateRequests(instances + [instance]) == GenerateRequests(instances) + [GenerateIfNotGenerated(instance)]
  {
    assert (instances + [instance])[..|instances|] == instances;
  }

  /** One asynchronous update request per instance, in order, all with the same delegate and flags. */
  function UpdateRequests(instances: seq<InstanceId>, handler: Option<UpdateHandler>, ignoreCloseDist: bool, forceHighPriority: bool): seq<EngineRequest>
    decreases |instances|
  {
    if instances == [] then []
    else
      var last := instances[|instances| - 1];
      UpdateRequests(instances[..|instances| - 1], handler, ignoreCloseDist, forceHighPriority)
        + [UpdateAsync(last, handler, ignoreCloseDist, forceHighPriority)]
  }

  lemma UpdateRequestsAppend(instances: seq<InstanceId>, instance: InstanceId, handler: Option<UpdateHandler>, ignoreCloseDist: bool, forceHighPriority: bool)
    ensures UpdateRequests(instances + [instance], handler, ignoreCloseDist, forceHighPriority)
         == UpdateRequests(instances, handler, ignoreCloseDist, forceHighPriority) + [UpdateAsync(instance, handler, ignoreCloseDist, forceHighPriority)]
  {
    assert (instances + [instance])[..|instances|] == instances;
  }

  /** One ready-delegate binding per component, in order. */
  function ReadyBindings(components: seq<ComponentId>): seq<DelegateEvent>
    decreases |components|
  {
    if components == [] then []
    else ReadyBindings(components[..|components| - 1]) + [BindReady(components[|components| - 1])]
  }

  /** One updated-delegate listener per instance, in order. */
  function UpdatedListeners(instances: seq<InstanceId>): seq<DelegateEvent>
    decreases |instances|
  {
    if instances == [] then []
    else UpdatedListeners(instances[..|instances| - 1]) + [AddUpdated(instances[|instances| - 1])]
  }

  /** One updated-delegate listener removed per instance, in order. */
  function RemovedListeners(instances: seq<InstanceId>): seq<DelegateEvent>
    decreases |instances|
  {
    if instances == [] then []
    else RemovedListeners(instances[..|instances| - 1]) + [RemoveUpdated(instances[|instances| - 1])]
  }

  lemma RemovedListenersAppend(instances: seq<InstanceId>, instance: InstanceId)
    ensures RemovedListeners(instances + [instance]) == RemovedListeners(instances) + [RemoveUpdated(instance)]
  {
    assert (instances + [instance])[..|instances|] == instances;
  }

  /** The generate requests are exactly one per listed instance, in the same order. */
  lemma {:induction false} GenerateRequestsIndexed(instances: seq<InstanceId>)
    ensures |GenerateRequests(instances)| == |instances|
    ensures forall k :: 0 <= k < |instances| ==> GenerateRequests(instances)[k] == GenerateIfNotGenerated(instances[k])
    decreases |instances|
  {
    if instances != [] {
      GenerateRequestsIndexed(instances[..|instances| - 1]);
    }
  }

  /** The update requests are exactly one per listed instance, in the same order, all with the
      given delegate and flags. */
  lemma {:induction false} UpdateRequestsIndexed(instances: seq<InstanceId>, handler: Option<UpdateHandler>, ignoreCloseDist: bool, forceHighPriority: bool)
    ensures |UpdateRequests(instances, handler, ignoreCloseDist, forceHighPriority)| == |instances|
    ensures forall k :: 0 <= k < |instances| ==>
      UpdateRequests(instances, handler, ignoreCloseDist, forceHighPriority)[k] == UpdateAsync(instances[k], handler, ignoreCloseDist, forceHighPriority)
    decreases |instances|
  {
    if instances != [] {
      UpdateRequestsIndexed(instances[..|instances| - 1], handler, ignoreCloseDist, forceHighPriority);
    }
  }

  /** One ready-delegate binding per listed component, in the same order. */
  lemma {:induction false} ReadyBindingsIndexed(components: seq<ComponentId>)
    ensures |ReadyBindings(components)| == |components|
    ensures forall k :: 0 <= k < |components| ==> ReadyBindings(components)[k] == BindReady(components[k])
    decreases |components|
  {
    if components != [] {
      ReadyBindingsIndexed(components[..|components| - 1]);
    }
  }

  /** One updated-delegate listener per listed instance, in the same order. */
  lemma {:induction false} UpdatedListenersIndexed(instances: seq<InstanceId>)
    ensures |UpdatedListeners(instances)| == |instances|
    ensures forall k :: 0 <= k < |instances| ==> UpdatedListeners(instances)[k] == AddUpdated(instances[k])
    decreases |instances|
  {
    if instances != [] {
      UpdatedListenersIndexed(instances[..|instances| - 1]);
    }
  }

  /** One listener removal per listed instance, in the same order. */
  lemma {:induction false} RemovedListenersIndexed(instances: seq<InstanceId>)
    ensures |RemovedListeners(instances)| == |instances|
    ensures forall k :: 0 <= k < |instances| ==> RemovedListeners(instances)[k] == RemoveUpdated(instances[k])
    decreases |instances|
  {
    if instances != [] {
      RemovedListenersIndexed(instances[..|instances| - 1]);
    }
  }
}
