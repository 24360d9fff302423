/**
 * Which instances (and, for the pre-initialisation gate, which components) a barrier's
 * enumeration loop takes into its pending collection, component by component.
 */
module Tracking {
  import opened Wrappers
  import opened ExtensionTypes
  import opened MutableEngine
  import opened FunctionLib
  import opened PendingSets

  /** The condition one barrier's enumeration applies to each component. */
  datatype Criterion =
    | Initialization           // the initialisation loops of the initialisation component and the subsystem
    | ExtensionInitialization  // the extension component's initialisation loop, which also asks CanUpdateInstance
    | Update                   // the update loops: the request is valid to issue

  /** The instance one component contributes under a criterion, built from the status query as
      the loops are. */
  function Candidate(criterion: Criterion, env: Engine, component: ComponentRef): Option<InstanceId> {
    var instance := env.InstanceOf(component);
    if instance.None? then Option.None
    else
      var (status, valid) := GetMutableComponentStatus(env, component);
      var takes :=
        match criterion
        case Initialization => valid && status == SkeletalMeshStatus.NotGenerated
        case ExtensionInitialization => valid && status == SkeletalMeshStatus.NotGenerated && instance.value in env.updatable
        case Update => IsMutableMeshValidToUpdate(env, component);
      if takes then instance else Option.None
  }

  /** The contributed instances, in component order, repeats kept. */
  function Candidates(criterion: Criterion, env: Engine, components: seq<ComponentRef>): seq<InstanceId>
    decreases |components|
  {
    if components == [] then []
    else
      var last := Candidate(criterion, env, components[|components| - 1]);
      Candidates(criterion, env, components[..|components| - 1]) + (if last.Some? then [last.value] else [])
  }

  /** The update criterion is the guard of the update request. */
  lemma UpdateCandidate(env: Engine, component: ComponentRef)
    ensures Candidate(Update, env, component) == if IsMutableMeshValidToUpdate(env, component) then env.InstanceOf(component) else Option.None
    ensures IsMutableMeshValidToUpdate(env, component) ==> env.InstanceOf(component).Some?
  {
  }

  /** The extension component's criterion, as its loop tests it. */
  lemma ExtensionInitializationCandidate(env: Engine, component: ComponentRef)
    ensures var instance := env.InstanceOf(component);
      var (status, valid) := GetMutableComponentStatus(env, component);
      Candidate(ExtensionInitialization, env, component)
        == if instance.Some? && valid && status == SkeletalMeshStatus.NotGenerated && instance.value in env.updatable then instance else Option.None
  {
  }

  /** The same conditions stated directly on what the engine reports. */
  ghost predicate Tracks(criterion: Criterion, env: Engine, component: ComponentRef, instance: InstanceId) {
    && env.InstanceOf(component) == Some(instance)
    && instance in env.meshStatus
    && match criterion
       case Initialization => env.meshStatus[instance] == SkeletalMeshStatus.NotGenerated
       case ExtensionInitialization => env.meshStatus[instance] == SkeletalMeshStatus.NotGenerated && instance in env.updatable
       case Update => env.meshStatus[instance] == SkeletalMeshStatus.Success
  }

  lemma CandidateTracks(criterion: Criterion, env: Engine, component: ComponentRef, instance: InstanceId)
    ensures Candidate(criterion, env, component) == Some(instance) <==> Tracks(criterion, env, component, instance)
  {
  }

  lemma {:induction false} CandidatesMembers(criterion: Criterion, env: Engine, components: seq<ComponentRef>, instance: InstanceId)
    ensures instance in Candidates(criterion, env, components)
        <==> exists k :: 0 <= k < |components| && Tracks(criterion, env, components[k], instance)
    decreases |components|
  {
    if components != [] {
      var n := |components| - 1;
      var init := components[..n];
      CandidatesMembers(criterion, env, init, instance);
      CandidateTracks(criterion, env, components[n], instance);
      if exists k :: 0 <= k < |components| && Tracks(criterion, env, components[k], instance) {
        var k :| 0 <= k < |components| && Tracks(criterion, env, components[k], instance);
        if k < n { assert init[k] == components[k]; }
      }
      if exists k :: 0 <= k < |init| && Tracks(criterion, env, init[k], instance) {
        var k :| 0 <= k < |init| && Tracks(criterion, env, init[k], instance);
        assert components[k] == init[k];
      }
    }
  }

  /**
   * After an enumeration starting from `start`, an instance is pending exactly when it was
   * pending before or some listed component passes the criterion with it; the collection keeps
   * no duplicates, keeps `start` in front, and starting from empty holds one entry per distinct
   * qualifying instance.
   */
  lemma TrackedInstances(criterion: Criterion, env: Engine, start: seq<InstanceId>, components: seq<ComponentRef>, instance: InstanceId)
    requires NoDuplicates(start)
    ensures var tracked := AddUniqueAll(start, Candidates(criterion, env, components));
      && NoDuplicates(tracked)
      && |start| <= |tracked| && tracked[..|start|] == start
      && (instance in tracked <==> instance in start || exists k :: 0 <= k < |components| && Tracks(criterion, env, components[k], instance))
  {
    var xs := Candidates(criterion, env, components);
    AddUniqueAllNoDuplicates(start, xs);
    AddUniqueAllExtends(start, xs);
    AddUniqueAllMembers(start, xs, instance);
    CandidatesMembers(criterion, env, components, instance);
  }

  /**
   * A whole barrier run with GUARDED completion handlers (the extension component): the run
   * signals at the end of the enumeration when nothing is pending, and otherwise through the
   * completions. Either way the aggregate signal is scheduled exactly once when every tracked
   * instance reports, and not at all otherwise, however the events repeat or interleave.
   */
  lemma GuardedBarrierRun(criterion: Criterion, env: Engine, start: seq<InstanceId>, components: seq<ComponentRef>, events: seq<InstanceId>)
    requires NoDuplicates(start)
    ensures var tracked := AddUniqueAll(start, Candidates(criterion, env, components));
      (if tracked == [] then 1 else 0) + GuardedSignals(tracked, events) == (if AllIn(tracked, events) then 1 else 0)
  {
    var tracked := AddUniqueAll(start, Candidates(criterion, env, components));
    AddUniqueAllNoDuplicates(start, Candidates(criterion, env, components));
    BarrierRunSignalsOnce(tracked, events);
  }

  /**
   * A whole barrier run with UNGUARDED completion handlers (the initialisation component and the
   * subsystem): when something is tracked, the completions signal at least once exactly when
   * some event arrives after every tracked instance has reported.
   */
  lemma UnguardedBarrierRun(criterion: Criterion, env: Engine, start: seq<InstanceId>, components: seq<ComponentRef>, events: seq<InstanceId>)
    requires NoDuplicates(start)
    ensures var tracked := AddUniqueAll(start, Candidates(criterion, env, components));
      UnguardedSignals(tracked, events) > 0 <==> events != [] && AllIn(tracked, events)
  {
    var tracked := AddUniqueAll(start, Candidates(criterion, env, components));
    AddUniqueAllNoDuplicates(start, Candidates(criterion, env, components));
    UnguardedSignalsIff(tracked, events);
  }

  /** One step of an enumeration loop: component `i` adds its candidate, if any. */
  lemma TrackStep(criterion: Criterion, env: Engine, start: seq<InstanceId>, components: seq<ComponentRef>, i: nat)
    requires i < |components|
    ensures var before := AddUniqueAll(start, Candidates(criterion, env, components[..i]));
      var candidate := Candidate(criterion, env, components[i]);
      AddUniqueAll(start, Candidates(criterion, env, components[..i + 1]))
        == if candidate.Some? then AddUnique(before, candidate.value) else before
  {
    assert components[..i + 1][..i] == components[..i];
    var candidate := Candidate(criterion, env, components[i]);
    var before := Candidates(criterion, env, components[..i]);
    assert Candidates(criterion, env, components[..i + 1]) == before + (if candidate.Some? then [candidate.value] else []);
    if candidate.Some? {
      AddUniqueAllStep(start, before, candidate.value);
    } else {
      assert before + [] == before;
    }
  }

  /** Line 42-44 of the extension component: not ready, and cannot be made ready right now. */
  predicate NeedsPreInitialization(env: Engine, component: ComponentId) {
    component !in env.ready && component !in env.readyOnRequest
  }

  /** The components that need pre-initialisation, in order, repeats kept. */
  function PreInitCandidates(env: Engine, components: seq<ComponentRef>): seq<ComponentId>
    decreases |components|
  {
    if components == [] then []
    else
      var last := components[|components| - 1];
      PreInitCandidates(env, components[..|components| - 1])
        + (if last.Some? && NeedsPreInitialization(env, last.value) then [last.value] else [])
  }

  lemma {:induction false} PreInitCandidatesMembers(env: Engine, components: seq<ComponentRef>, component: ComponentId)
    ensures component in PreInitCandidates(env, components)
        <==> NeedsPreInitialization(env, component) && Some(component) in components
    decreases |components|
  {
    if components != [] {
      var n := |components| - 1;
      PreInitCandidatesMembers(env, components[..n], component);
      assert components == components[..n] + [components[n]];
    }
  }

  /** The pre-initialisation gate holds each component at most once, and holds a component
      exactly when it is listed and is neither ready nor can be made ready. */
  lemma PendingPreInitialization(env: Engine, components: seq<ComponentRef>, component: ComponentId)
    ensures var gate := AddUniqueAll([], PreInitCandidates(env, components));
      && NoDuplicates(gate)
      && (component in gate <==> Some(component) in components && NeedsPreInitialization(env, component))
  {
    AddUniqueAllNoDuplicates([], PreInitCandidates(env, components));
    AddUniqueAllMembers([], PreInitCandidates(env, components), component);
    PreInitCandidatesMembers(env, components, component);
  }

  /** One step of the pre-initialisation loop. */
  lemma PreInitStep(env: Engine, components: seq<ComponentRef>, i: nat)
    requires i < |components|
    ensures var before := AddUniqueAll([], PreInitCandidates(env, components[..i]));
      var c := components[i];
      AddUniqueAll([], PreInitCandidates(env, components[..i + 1]))
        == if c.Some? && NeedsPreInitialization(env, c.value) then AddUnique(before, c.value) else before
  {
    assert components[..i + 1][..i] == components[..i];
    var c := components[i];
    var takes := c.Some? && NeedsPreInitialization(env, c.value);
    var before := PreInitCandidates(env, components[..i]);
    assert PreInitCandidates(env, components[..i + 1]) == before + (if takes then [c.value] else []);
    if takes {
      AddUniqueAllStep([], before, c.value);
    } else {
      assert before + [] == before;
    }
  }

  /** Every listed component is ready or can be made ready: what the `check` assertion at line 69 of the
      extension component demands. */
  ghost predicate AllReady(env: Engine, components: seq<ComponentRef>) {
    forall k :: 0 <= k < |components| && components[k].Some? ==>
      components[k].value in env.ready || components[k].value in env.readyOnRequest
  }

  /** With no component left waiting for pre-initialisation, every listed component is ready or
      can be made ready, so the `check` assertion at line 69 of the extension component cannot fail. */
  lemma NoPreInitMeansReady(env: Engine, components: seq<ComponentRef>)
    requires AddUniqueAll([], PreInitCandidates(env, components)) == []
    ensures AllReady(env, components)
  {
    forall k | 0 <= k < |components| && components[k].Some?
      ensures components[k].value in env.ready || components[k].value in env.readyOnRequest
    {
      var c := components[k].value;
      AddUniqueAllMembers([], PreInitCandidates(env, components), c);
      PreInitCandidatesMembers(env, components, c);
    }
  }
}
