/**
 * `UMutableFunctionLib`: the status query every barrier branches on, and the guard that decides
 * whether an asynchronous mesh update is issued.
 */
module FunctionLib {
  import opened Wrappers
  import opened ExtensionTypes
  import opened MutableEngine

  /**
   * `GetMutableComponentStatus`: the pair (status, bValidResult). The result is valid exactly
   * when the component, its instance and the instance's private data are all non-null, and then
   * the status is the one the private data holds; otherwise it is `(Error, false)`.
   */
  function GetMutableComponentStatus(env: Engine, component: ComponentRef): (r: (SkeletalMeshStatus, bool))
    ensures r.1 <==> env.InstanceOf(component).Some? && env.InstanceOf(component).value in env.meshStatus
    ensures r.1 ==> r.0 == env.meshStatus[env.InstanceOf(component).value]
    ensures !r.1 ==> r.0 == SkeletalMeshStatus.Error
  {
    if component.None? then (SkeletalMeshStatus.Error, false)
    else
      var instance := env.InstanceOf(component);
      var privateInstance := if instance.Some? && instance.value in env.meshStatus then Some(env.meshStatus[instance.value]) else Option.None;
      if privateInstance.Some? then (privateInstance.value, true) else (SkeletalMeshStatus.Error, false)
  }

  /** `IsMutableMeshValidToUpdate`: the status query is valid and reports a generated mesh. */
  predicate IsMutableMeshValidToUpdate(env: Engine, component: ComponentRef) {
    var (status, valid) := GetMutableComponentStatus(env, component);
    valid && status == SkeletalMeshStatus.Success
  }

  /** A component that is valid to update has an instance whose private data can be read. */
  lemma ValidToUpdateIsReadable(env: Engine, component: ComponentRef)
    requires IsMutableMeshValidToUpdate(env, component)
    ensures env.InstanceOf(component).Some? && env.PrivateReadable(component)
    ensures env.meshStatus[env.InstanceOf(component).value] == SkeletalMeshStatus.Success
  {
  }

  /**
   * `UpdateMutableMesh`: when the component and its instance are non-null and the instance's
   * mesh is generated, issue an asynchronous update without a completion delegate and accept;
   * otherwise reject and issue nothing. The private data is read without a null check, so the
   * caller must not hand in an instance without it.
   */
  method UpdateMutableMesh(env: Engine, mutableMesh: ComponentRef, ignoreCloseDist: bool, forceHighPriority: bool, log: RequestLog)
    returns (accepted: bool)
    requires env.PrivateReadable(mutableMesh)
    modifies log
    ensures accepted <==> IsMutableMeshValidToUpdate(env, mutableMesh)
    ensures log.requests == old(log.requests)
      + if accepted then [UpdateAsync(env.InstanceOf(mutableMesh).value, Option.None, ignoreCloseDist, forceHighPriority)] else []
  {
    accepted := false;
    if mutableMesh.Some? && env.InstanceOf(mutableMesh).Some? {
      var instance := env.InstanceOf(mutableMesh).value;
      var status := env.meshStatus[instance];
      if status == SkeletalMeshStatus.Success {
        log.requests := log.requests + [UpdateAsync(instance, Option.None, ignoreCloseDist, forceHighPriority)];
        accepted := true;
      }
    }
  }

  /** `UpdateMutableMesh_Callback`: the same guard; an accepted request carries the given
      completion delegate. */
  method UpdateMutableMeshCallback(env: Engine, mutableMesh: ComponentRef, handler: UpdateHandler,
                                   ignoreCloseDist: bool, forceHighPriority: bool, log: RequestLog)
    returns (accepted: bool)
    requires env.PrivateReadable(mutableMesh)
    modifies log
    ensures accepted <==> IsMutableMeshValidToUpdate(env, mutableMesh)
    ensures log.requests == old(log.requests)
      + if accepted then [UpdateAsync(env.InstanceOf(mutableMesh).value, Some(handler), ignoreCloseDist, forceHighPriority)] else []
  {
    accepted := false;
    if mutableMesh.Some? && env.InstanceOf(mutableMesh).Some? {
      var instance := env.InstanceOf(mutableMesh).value;
      var status := env.meshStatus[instance];
      if status == SkeletalMeshStatus.Success {
        log.requests := log.requests + [UpdateAsync(instance, Some(handler), ignoreCloseDist, forceHighPriority)];
        accepted := true;
      }
    }
  }
}
