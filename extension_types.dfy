/**
 * The value types the plugin shares with the mesh-generation engine: handles, the engine's
 * status and result enumerations, the runtime-update error kinds and the runtime-update record.
 */
module ExtensionTypes {
  import opened Wrappers

  /** A `UCustomizableObjectInstance`, compared by identity. */
  type InstanceId = nat
  /** A `UCustomizableSkeletalComponent`, compared by identity. */
  type ComponentId = nat
  /** A `USkeletalMeshComponent` (the component a customizable component is attached to). */
  type MeshComponentId = nat

  /** The engine's `ESkeletalMeshStatus`. */
  datatype SkeletalMeshStatus = NotGenerated | Success | Error

  /** The engine's `EUpdateResult`: `Error` is the only enumerator the plugin names; every other
      enumerator is kept opaque by its ordinal. */
  datatype UpdateResult = Error | Other(ordinal: nat)

  /** `EMutableExtensionRuntimeUpdateError`. */
  datatype RuntimeUpdateError = None | DelegateNotBound | AlreadyPendingUpdate | MeshNotValidToUpdate

  /** `FMutablePendingRuntimeUpdate`: one in-flight runtime update, keyed by its instance. */
  datatype PendingRuntimeUpdate = PendingRuntimeUpdate(
    updateResult: UpdateResult,
    mutableInstance: Option<InstanceId>,
    mutableComponent: Option<ComponentId>,
    owningComponent: Option<MeshComponentId>)

  /** The record's constructor: the three handles as given (each defaulting to null) and the
      result at its "not yet reported" value `Error`. */
  function NewPendingRuntimeUpdate(
    inMutableInstance: Option<InstanceId> := Option.None,
    inMutableComponent: Option<ComponentId> := Option.None,
    inOwningComponent: Option<MeshComponentId> := Option.None): (r: PendingRuntimeUpdate)
    ensures r.updateResult == UpdateResult.Error
    ensures r.mutableInstance == inMutableInstance
    ensures r.mutableComponent == inMutableComponent
    ensures r.owningComponent == inOwningComponent
  {
    PendingRuntimeUpdate(UpdateResult.Error, inMutableInstance, inMutableComponent, inOwningComponent)
  }

  /** A default-constructed record holds three null handles and the unset result. */
  lemma DefaultPendingRuntimeUpdate()
    ensures NewPendingRuntimeUpdate() == PendingRuntimeUpdate(UpdateResult.Error, Option.None, Option.None, Option.None)
  {
  }
}
