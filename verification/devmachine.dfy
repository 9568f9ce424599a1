/** The machine life cycle of `dev_machine.py`: `create_ec2_instance` (allow-list gate,
    context-name gate, launch, Docker context, marker, and the rollback when anything after
    the launch fails) and `terminate_instance` / `_remove_instance`. The cloud, the Docker
    context store and the marker directory form one `World` value; what AWS answers is
    passed in. */
module DevMachine {
  import opened Wrappers
  import opened PyStr
  import opened SshHost
  import opened InstanceTags
  import opened Markers
  import opened DockerContexts

  /** The EC2 instance states. */
  datatype State = Pending | Running | ShuttingDown | Terminated | Stopping | Stopped

  /** An instance as the code reads it. */
  datatype Instance = Instance(id: string, state: State, ip: Option<string>, tags: seq<Tag>)

  /** The state outside the program: the Docker contexts, the marker directory and the
      instances of the account, each in listing order. */
  datatype World = World(contexts: Store, markers: Directory, instances: seq<Instance>)

  /** The exceptions the modelled code lets escape. */
  datatype Failure =
    | TagNotAllowed(tag: string)       // "tag ... must be one of ...", line 54
    | NoTagSpecification               // KeyError/IndexError reading TagSpecifications[0]['Tags']
    | ContextExists(name: string)      // ContextAlreadyExists, re-raised at line 60
    | NoneHasNoAttribute               // AttributeError: the handler reads `None.state`, line 86
    | WaiterFailed(id: string)         // `wait_until_running` gave up
    | ContextFailed(error: ContextError) // the Docker library refused a context operation
    | NoneInConcatenation              // TypeError: None joined into a string

  /** The world after an operation, and the exception it raised, if any. */
  datatype Step = Step(world: World, raised: Option<Failure>)

  // ---------------------------------------------------------------------------------------
  // The consistency of markers and contexts

  /** Every marker names a context and the address that context points at. */
  predicate MarkersTracked(w: World) {
    forall m :: m in w.markers ==>
      exists c :: c in w.contexts && m == MarkerName(c.name, HostIp(c))
  }

  /** What the program keeps true between commands: context names are unique (the Docker
      library sees to that), the directory lists each file once, and markers are tracked. */
  predicate Consistent(w: World) {
    UniqueNames(w.contexts) && NoRepeats(w.markers) && MarkersTracked(w)
  }

  // ---------------------------------------------------------------------------------------
  // terminate_instance and _remove_instance

  predicate RunningWithId(inst: Instance, id: string) {
    inst.state == Running && inst.id == id
  }

  /** The position of the first running instance with the id: the listing filtered on
      `instance-state-name == running` is searched in order. */
  function FirstRunning(instances: seq<Instance>, id: string): (r: Option<nat>)
    ensures r.None? <==> forall k :: 0 <= k < |instances| ==> !RunningWithId(instances[k], id)
    ensures r.Some? ==> r.value < |instances| && RunningWithId(instances[r.value], id)
    ensures r.Some? ==> forall k :: 0 <= k < r.value ==> !RunningWithId(instances[k], id)
  {
    if |instances| == 0 then None
    else if RunningWithId(instances[0], id) then Some(0)
    else
      var r := FirstRunning(instances[1..], id);
      assert forall k :: 1 <= k < |instances| ==> instances[k] == instances[1..][k - 1];
      if r.Some? then Some(r.value + 1) else None
  }

  /** The instance at `k` after `instance.terminate()`: EC2 reports it shutting down. */
  function Terminated(instances: seq<Instance>, k: nat): seq<Instance>
    requires k < |instances|
  {
    instances[k := instances[k].(state := ShuttingDown)]
  }

  /** The context `_remove_instance` looks up for an instance: the first context whose
      address is its public IP; an instance without one matches none. */
  function ContextOf(w: World, inst: Instance): Option<string> {
    if inst.ip.Some? then FindContextName(w.contexts, inst.ip.value) else None
  }

  /** `_remove_instance`: look up the context by the instance's IP, terminate the instance,
      remove the context (a refusal of the library escapes), then deregister the marker
      `context@ip`. Without a context, `deregister_instance(None, ip)` raises TypeError after
      the instance is already terminated. */
  function RemoveInstance(w: World, k: nat, refused: set<string>): (r: Step)
    requires k < |w.instances|
    ensures r.world.instances == Terminated(w.instances, k)
    ensures r.raised == Some(NoneInConcatenation) <==> ContextOf(w, w.instances[k]).None?
    ensures ContextOf(w, w.instances[k]).Some? ==>
              (r.raised.None? <==> ContextOf(w, w.instances[k]).value !in refused)
    ensures ContextOf(w, w.instances[k]).Some? && ContextOf(w, w.instances[k]).value in refused ==>
              r.raised == Some(ContextFailed(Refused(ContextOf(w, w.instances[k]).value)))
    ensures r.raised.Some? ==> r.world.contexts == w.contexts && r.world.markers == w.markers
    ensures r.raised.None? ==>
              var name := ContextOf(w, w.instances[k]).value;
              && w.instances[k].ip.Some?
              && name !in refused
              && r.world.contexts == WithoutName(w.contexts, name)
              && r.world.markers == Deregister(w.markers, name, w.instances[k].ip.value)
  {
    var inst := w.instances[k];
    var ctx := ContextOf(w, inst);
    var stopped := w.(instances := Terminated(w.instances, k));
    if ctx.None? then Step(stopped, Some(NoneInConcatenation))
    else
      match RemoveContext(w.contexts, ctx.value, refused)
      case Failure(e) => Step(stopped, Some(ContextFailed(e)))
      case Success(store) =>
        Step(stopped.(contexts := store, markers := Deregister(w.markers, ctx.value, inst.ip.value)),
             None)
  }

  /** `terminate_instance(instance_id)`: nothing for a None id; otherwise the first running
      instance with that id is removed, and without one nothing changes. */
  function TerminateInstance(w: World, id: Option<string>, refused: set<string>): (r: Step)
    ensures id.None? ==> r == Step(w, None)
    ensures id.Some? && FirstRunning(w.instances, id.value).None? ==> r == Step(w, None)
    ensures id.Some? && FirstRunning(w.instances, id.value).Some? ==>
              r == RemoveInstance(w, FirstRunning(w.instances, id.value).value, refused)
  {
    if id.None? then Step(w, None)
    else
      match FirstRunning(w.instances, id.value)
      case None => Step(w, None)
      case Some(k) => RemoveInstance(w, k, refused)
  }

  /** Terminating changes one instance at most, and only the first running one with the id. */
  lemma TerminateTouchesOneInstance(w: World, id: string, refused: set<string>, j: nat)
    requires j < |w.instances|
    requires !(RunningWithId(w.instances[j], id)
               && forall k :: 0 <= k < j ==> !RunningWithId(w.instances[k], id))
    ensures |TerminateInstance(w, Some(id), refused).world.instances| == |w.instances|
    ensures TerminateInstance(w, Some(id), refused).world.instances[j] == w.instances[j]
  {
  }

  /** When a context is found for the instance and the library does not refuse to remove
      it, termination raises nothing, and the context removed is the one whose address is
      the instance's IP: the first such context in listing order; every other context stays. */
  lemma TerminateRemovesOnlyItsContext(w: World, id: string, refused: set<string>, c: Context)
    requires c in w.contexts
    requires FirstRunning(w.instances, id).Some?
    requires var k := FirstRunning(w.instances, id).value;
             ContextOf(w, w.instances[k]).Some? && ContextOf(w, w.instances[k]).value !in refused
    ensures TerminateInstance(w, Some(id), refused).raised.None?
    ensures var k := FirstRunning(w.instances, id).value;
            c in TerminateInstance(w, Some(id), refused).world.contexts
            <==> c.name != ContextOf(w, w.instances[k]).value
  {
  }

  /** A context named in `refused` that is found for the instance stays, the instance is
      terminated all the same, and the marker stays. */
  lemma TerminateWithRefusedContext(w: World, id: string, refused: set<string>)
    requires FirstRunning(w.instances, id).Some?
    requires var k := FirstRunning(w.instances, id).value;
             ContextOf(w, w.instances[k]).Some? && ContextOf(w, w.instances[k]).value in refused
    ensures var r := TerminateInstance(w, Some(id), refused);
            && r.raised.Some? && r.raised.value.ContextFailed?
            && r.world.contexts == w.contexts && r.world.markers == w.markers
            && r.world.instances[FirstRunning(w.instances, id).value].state == ShuttingDown
  {
  }

  /** Terminating keeps markers and contexts consistent. */
  lemma TerminateKeepsConsistent(w: World, id: Option<string>, refused: set<string>)
    requires Consistent(w)
    ensures Consistent(TerminateInstance(w, id, refused).world)
  {
    var r := TerminateInstance(w, id, refused);
    if id.Some? && FirstRunning(w.instances, id.value).Some? && r.raised.None? {
      var k := FirstRunning(w.instances, id.value).value;
      var ip := w.instances[k].ip.value;
      var name := ContextOf(w, w.instances[k]).value;
      RemovalKeepsConsistent(w, name, ip);
    }
  }

  /** Removing the first context whose address is `ip`, and the marker `name@ip`, keeps
      markers and contexts consistent. */
  lemma RemovalKeepsConsistent(w: World, name: string, ip: string)
    requires Consistent(w)
    requires FindContextName(w.contexts, ip) == Some(name)
    ensures Consistent(w.(contexts := WithoutName(w.contexts, name),
                          markers := Deregister(w.markers, name, ip)))
  {
    var store := WithoutName(w.contexts, name);
    var dir := Deregister(w.markers, name, ip);
    WithoutNameKeepsUnique(w.contexts, name);
    var i: nat :| FirstWithIp(w.contexts, ip, i) && w.contexts[i].name == name;
    forall m | m in dir
      ensures exists c :: c in store && m == MarkerName(c.name, HostIp(c))
    {
      var c :| c in w.contexts && m == MarkerName(c.name, HostIp(c));
      assert c in store;
    }
  }

  // ---------------------------------------------------------------------------------------
  // create_ec2_instance

  /** The launch parameters the code reads: the tag list of the first tag specification, the
      instance type and the key name (None when the key is missing). */
  datatype LaunchParams = LaunchParams(tags: Option<seq<Tag>>, instanceType: Option<string>,
                                       keyName: Option<string>)

  /** What AWS answers during one creation: the allow-list object's body, the IAM user name
      and id, the id of the launched instance (None when the launch raised), whether
      `wait_until_running` returned, and the public IP after `reload`. */
  datatype CloudAnswers = CloudAnswers(allowList: string, userName: string, userId: string,
                                       launched: Option<string>, running: bool,
                                       ip: Option<string>)

  /** The outcome of `create_ec2_instance`: the world after it and the instance or the
      exception. */
  datatype Creation = Creation(world: World, outcome: Result<Instance, Failure>)

  /** The checks made before any instance is requested (lines 49-60): the project tag must be
      on the allow-list, the parameters must carry a tag list to rewrite, and the context
      name must be free. */
  function Gate(w: World, name: string, projectTag: string, params: LaunchParams,
                cloud: CloudAnswers): (r: Option<Failure>)
    ensures r.None? <==>
              projectTag in ParseProjectTags(cloud.allowList) && params.tags.Some?
              && !HasName(w.contexts, name)
    ensures r.Some? ==>
              r.value == TagNotAllowed(projectTag) || r.value == NoTagSpecification
              || r.value == ContextExists(name)
  {
    if projectTag !in ParseProjectTags(cloud.allowList) then Some(TagNotAllowed(projectTag))
    else if params.tags.None? then Some(NoTagSpecification)
    else if HasName(w.contexts, name) then Some(ContextExists(name))
    else None
  }

  /** The instance as the launch leaves it: running with its public IP once the waiter
      returned, still pending otherwise. */
  function LaunchedInstance(id: string, cloud: CloudAnswers, tags: seq<Tag>): Instance {
    if cloud.running then Instance(id, Running, cloud.ip, tags) else Instance(id, Pending, None, tags)
  }

  /** The exception raised after the launch (lines 74-81), if any: the waiter gives up, the
      IP is None (`"ssh://ubuntu@" + None` is a TypeError), or the Docker library refuses
      the context. */
  function AfterLaunch(w: World, name: string, id: string, cloud: CloudAnswers,
                       contextRefused: bool): Option<Failure>
  {
    if !cloud.running then Some(WaiterFailed(id))
    else if cloud.ip.None? then Some(NoneInConcatenation)
    else
      match CreateContext(w.contexts, name, cloud.ip.value, DefaultPort, DefaultUser, contextRefused)
      case Failure(e) => Some(ContextFailed(e))
      case Success(_) => None
  }

  /** The handler at lines 83-90 once an instance exists: `instance.state` is a dict, never
      one of the two strings, so the instance is always handed to `terminate_instance`, and
      the original exception is re-raised unless the termination raised one of its own. */
  function Rollback(w: World, id: string, original: Failure, refused: set<string>): (r: Creation)
    ensures r.world == TerminateInstance(w, Some(id), refused).world
    ensures TerminateInstance(w, Some(id), refused).raised.None? ==> r.outcome == Failure(original)
    ensures TerminateInstance(w, Some(id), refused).raised.Some? ==>
              r.outcome == Failure(TerminateInstance(w, Some(id), refused).raised.value)
  {
    var t := TerminateInstance(w, Some(id), refused);
    Creation(t.world, Failure(if t.raised.Some? then t.raised.value else original))
  }

  /** Lines 62-95 once the gate has passed and EC2 has returned the instance `id` tagged
      `tags`: wait for it, create its context, register its marker, and roll back when
      anything after the launch fails. */
  function LaunchAndRegister(w: World, name: string, id: string, tags: seq<Tag>,
                             cloud: CloudAnswers, contextRefused: bool, refused: set<string>)
    : (r: Creation)
    ensures r.outcome.Success? ==> r.world.instances == w.instances + [r.outcome.value]
    ensures r.outcome.Success? ==> r.outcome.value.state == Running && r.outcome.value.ip.Some?
  {
    var inst := LaunchedInstance(id, cloud, tags);
    var launched := w.(instances := w.instances + [inst]);
    var failure := AfterLaunch(w, name, id, cloud, contextRefused);
    if failure.Some? then Rollback(launched, id, failure.value, refused)
    else
      var ip := cloud.ip.value;
      var context := Context(name, ContextHost(ip, DefaultPort, DefaultUser));
      Creation(launched.(contexts := w.contexts + [context], markers := Register(w.markers, name, ip)),
               Success(inst))
  }

  /** `create_ec2_instance(name, project_tag, **params)`. `contextRefused` says whether the
      Docker library refuses the new context; `refused` names the contexts it refuses to
      remove during a rollback. The tag list is rewritten by `AddInstanceTags`. */
  function CreateEc2Instance(w: World, name: string, projectTag: string, params: LaunchParams,
                             cloud: CloudAnswers, contextRefused: bool, refused: set<string>)
    : (r: Creation)
    ensures Gate(w, name, projectTag, params, cloud).Some? ==>
              r == Creation(w, Failure(Gate(w, name, projectTag, params, cloud).value))
    ensures Gate(w, name, projectTag, params, cloud).None?
            && (params.instanceType.None? || params.keyName.None? || cloud.launched.None?) ==>
              r == Creation(w, Failure(NoneHasNoAttribute))
    ensures r.outcome.Success? ==> r.world.instances == w.instances + [r.outcome.value]
    ensures r.outcome.Success? ==> r.outcome.value.state == Running && r.outcome.value.ip.Some?
  {
    var gate := Gate(w, name, projectTag, params, cloud);
    if gate.Some? then Creation(w, Failure(gate.value))
    else if params.instanceType.None? || params.keyName.None? || cloud.launched.None? then
      // the handler evaluates `instance.state` on None before `&` can decide
      Creation(w, Failure(NoneHasNoAttribute))
    else
      var tags := AddInstanceTags(params.tags.value, projectTag, cloud.userName, cloud.userId);
      LaunchAndRegister(w, name, cloud.launched.value, tags, cloud, contextRefused, refused)
  }

  /** Every instance was requested: the gate passed and EC2 returned one. */
  predicate Requested(w: World, name: string, projectTag: string, params: LaunchParams,
                      cloud: CloudAnswers)
  {
    && Gate(w, name, projectTag, params, cloud).None?
    && params.instanceType.Some? && params.keyName.Some? && cloud.launched.Some?
  }

  /** The tags the launched instance carries. */
  function RequestedTags(projectTag: string, params: LaunchParams, cloud: CloudAnswers): seq<Tag>
    requires params.tags.Some?
  {
    AddInstanceTags(params.tags.value, projectTag, cloud.userName, cloud.userId)
  }

  /** Past the gate, creating is the launch of an instance tagged by `AddInstanceTags`. */
  lemma CreateIsLaunch(w: World, name: string, projectTag: string, params: LaunchParams,
                       cloud: CloudAnswers, contextRefused: bool, refused: set<string>)
    requires Requested(w, name, projectTag, params, cloud)
    ensures params.tags.Some?
    ensures CreateEc2Instance(w, name, projectTag, params, cloud, contextRefused, refused)
            == LaunchAndRegister(w, name, cloud.launched.value,
                                 RequestedTags(projectTag, params, cloud), cloud, contextRefused, refused)
  {
  }

  /** The creation above tags the instance with the intended rewrite. Whenever no two user
      tags stand next to each other in the given list, that is exactly the launch the code
      as written performs, whatever happens after it. */
  lemma CreateAsWrittenWhenSeparated(w: World, name: string, projectTag: string, params: LaunchParams,
                                     cloud: CloudAnswers, contextRefused: bool, refused: set<string>)
    requires Requested(w, name, projectTag, params, cloud)
    requires params.tags.Some? && NoAdjacentUserTags(params.tags.value)
    ensures CreateEc2Instance(w, name, projectTag, params, cloud, contextRefused, refused)
            == LaunchAndRegister(w, name, cloud.launched.value,
                                 AddInstanceTagsAsWritten(params.tags.value, projectTag,
                                                          cloud.userName, cloud.userId),
                                 cloud, contextRefused, refused)
  {
    CreateIsLaunch(w, name, projectTag, params, cloud, contextRefused, refused);
    AsWrittenAgreesWhenSeparated(params.tags.value, projectTag, cloud.userName, cloud.userId);
  }

  /** The allow-list is checked first, then the tag list, then the context name; a failed
      check leaves the world as it was, so no instance is requested. */
  lemma GateOrder(w: World, name: string, projectTag: string, params: LaunchParams,
                  cloud: CloudAnswers, contextRefused: bool, refused: set<string>)
    ensures var r := CreateEc2Instance(w, name, projectTag, params, cloud, contextRefused, refused);
            && (projectTag !in ParseProjectTags(cloud.allowList) ==>
                  r == Creation(w, Failure(TagNotAllowed(projectTag))))
            && (projectTag in ParseProjectTags(cloud.allowList) && params.tags.None? ==>
                  r == Creation(w, Failure(NoTagSpecification)))
            && (projectTag in ParseProjectTags(cloud.allowList) && params.tags.Some?
                && HasName(w.contexts, name) ==>
                  r == Creation(w, Failure(ContextExists(name))))
  {
  }

  /** A launch succeeds with the instance running and tagged, the context for its address
      created, exactly one marker `name@ip` added, and looking the address up finds the new
      context when no older context points at it. */
  lemma LaunchSucceeds(w: World, name: string, id: string, tags: seq<Tag>,
                       cloud: CloudAnswers, contextRefused: bool, refused: set<string>)
    requires LaunchAndRegister(w, name, id, tags, cloud, contextRefused, refused).outcome.Success?
    ensures var r := LaunchAndRegister(w, name, id, tags, cloud, contextRefused, refused);
            var ip := r.outcome.value.ip.value;
            && r.outcome.value == Instance(id, Running, cloud.ip, tags)
            && r.world.contexts == w.contexts + [Context(name, ContextHost(ip, DefaultPort, DefaultUser))]
            && r.world.markers == Register(w.markers, name, ip)
            && (forall m :: m in r.world.markers <==> m in w.markers || m == MarkerName(name, ip))
            && (':' !in ip && '@' !in ip && (forall i :: 0 <= i < |w.contexts| ==> HostIp(w.contexts[i]) != ip)
                ==> FindContextName(r.world.contexts, ip) == Some(name))
  {
    var ip := cloud.ip.value;
    assert AfterLaunch(w, name, id, cloud, contextRefused).None?;
    if ':' !in ip && '@' !in ip && (forall i :: 0 <= i < |w.contexts| ==> HostIp(w.contexts[i]) != ip) {
      FindAfterCreate(w.contexts, name, ip, DefaultPort, DefaultUser, contextRefused);
    }
  }

  /** On success the new instance carries the tags `AddInstanceTags` makes, and the context
      and marker of `LaunchSucceeds` were added. */
  lemma CreateSucceeds(w: World, name: string, projectTag: string, params: LaunchParams,
                       cloud: CloudAnswers, contextRefused: bool, refused: set<string>)
    requires CreateEc2Instance(w, name, projectTag, params, cloud, contextRefused, refused).outcome.Success?
    ensures var r := CreateEc2Instance(w, name, projectTag, params, cloud, contextRefused, refused);
            var ip := r.outcome.value.ip.value;
            && Requested(w, name, projectTag, params, cloud)
            && r.outcome.value == Instance(cloud.launched.value, Running, cloud.ip,
                                           RequestedTags(projectTag, params, cloud))
            && r.world.contexts == w.contexts + [Context(name, ContextHost(ip, DefaultPort, DefaultUser))]
            && (forall m :: m in r.world.markers <==> m in w.markers || m == MarkerName(name, ip))
  {
    assert Requested(w, name, projectTag, params, cloud);
    CreateIsLaunch(w, name, projectTag, params, cloud, contextRefused, refused);
    LaunchSucceeds(w, name, cloud.launched.value, RequestedTags(projectTag, params, cloud),
                   cloud, contextRefused, refused);
  }

  /** A failure after the launch rolls back through `terminate_instance(instance.id)` on the
      world that holds the new instance, and no marker is added. The bare `raise` re-raises
      the original exception unless the termination raised one of its own, which then
      escapes in its place. */
  lemma LaunchRollsBack(w: World, name: string, id: string, tags: seq<Tag>,
                        cloud: CloudAnswers, contextRefused: bool, refused: set<string>)
    requires AfterLaunch(w, name, id, cloud, contextRefused).Some?
    ensures var r := LaunchAndRegister(w, name, id, tags, cloud, contextRefused, refused);
            var launched := w.(instances := w.instances + [LaunchedInstance(id, cloud, tags)]);
            var t := TerminateInstance(launched, Some(id), refused);
            && r.world == t.world
            && (t.raised.None? ==> r.outcome == Failure(AfterLaunch(w, name, id, cloud, contextRefused).value))
            && (t.raised.Some? ==> r.outcome == Failure(t.raised.value))
            && forall m :: m in r.world.markers ==> m in w.markers
  {
  }

  /** When the waiter gives up, the instance is still pending, so the rollback's search of
      the running instances misses it: it is left alive and the waiter's error escapes. */
  lemma PendingInstanceSurvivesRollback(w: World, name: string, id: string, tags: seq<Tag>,
                                        cloud: CloudAnswers, contextRefused: bool,
                                        refused: set<string>)
    requires !cloud.running
    requires forall k :: 0 <= k < |w.instances| ==> !RunningWithId(w.instances[k], id)
    ensures var r := LaunchAndRegister(w, name, id, tags, cloud, contextRefused, refused);
            && r.outcome == Failure(WaiterFailed(id))
            && |r.world.instances| == |w.instances| + 1
            && r.world.instances[|w.instances|].state == Pending
            && r.world.contexts == w.contexts && r.world.markers == w.markers
  {
    var all := w.instances + [LaunchedInstance(id, cloud, tags)];
    assert forall k :: 0 <= k < |all| ==> !RunningWithId(all[k], id) by {
      assert forall k :: 0 <= k < |w.instances| ==> all[k] == w.instances[k];
    }
  }

  /** Without a public IP the rollback finds no context for the instance: it is terminated
      and then `deregister_instance(None, None)` raises TypeError, which escapes in place of
      the original error. */
  lemma MissingIpRaisesTypeError(w: World, name: string, id: string, tags: seq<Tag>,
                                 cloud: CloudAnswers, contextRefused: bool, refused: set<string>)
    requires cloud.running && cloud.ip.None?
    requires forall k :: 0 <= k < |w.instances| ==> !RunningWithId(w.instances[k], id)
    ensures var r := LaunchAndRegister(w, name, id, tags, cloud, contextRefused, refused);
            && r.outcome == Failure(NoneInConcatenation)
            && |r.world.instances| == |w.instances| + 1
            && r.world.instances[|w.instances|].state == ShuttingDown
  {
    var all := w.instances + [LaunchedInstance(id, cloud, tags)];
    var k := |w.instances|;
    assert forall j :: 0 <= j < k ==> all[j] == w.instances[j];
    assert RunningWithId(all[k], id);
    assert FirstRunning(all, id) == Some(k);
    var launched := w.(instances := all);
    var t := RemoveInstance(launched, k, refused);
    assert t.raised == Some(NoneInConcatenation);
    assert TerminateInstance(launched, Some(id), refused) == t;
  }

  /** Creating keeps markers and contexts consistent, whatever the outcome, provided the
      address EC2 assigns is a plain IPv4 or host name (no `:` and no `@`). */
  lemma LaunchKeepsConsistent(w: World, name: string, id: string, tags: seq<Tag>,
                              cloud: CloudAnswers, contextRefused: bool, refused: set<string>)
    requires Consistent(w)
    requires cloud.ip.Some? ==> ':' !in cloud.ip.value && '@' !in cloud.ip.value
    ensures Consistent(LaunchAndRegister(w, name, id, tags, cloud, contextRefused, refused).world)
  {
    var r := LaunchAndRegister(w, name, id, tags, cloud, contextRefused, refused);
    var launched := w.(instances := w.instances + [LaunchedInstance(id, cloud, tags)]);
    if AfterLaunch(w, name, id, cloud, contextRefused).Some? {
      TerminateKeepsConsistent(launched, Some(id), refused);
    } else {
      var ip := cloud.ip.value;
      var context := Context(name, ContextHost(ip, DefaultPort, DefaultUser));
      CreateKeepsNamesUnique(w.contexts, name, ip, DefaultPort, DefaultUser, contextRefused);
      ContextHostParses(ip, DefaultPort, DefaultUser);
      assert HostIp(context) == ip;
      forall m | m in r.world.markers
        ensures exists c :: c in r.world.contexts && m == MarkerName(c.name, HostIp(c))
      {
        if m == MarkerName(name, ip) {
          assert context in r.world.contexts;
        } else {
          var c :| c in w.contexts && m == MarkerName(c.name, HostIp(c));
          assert c in r.world.contexts;
        }
      }
    }
  }

  /** `create_ec2_instance` keeps markers and contexts consistent whatever the outcome. */
  lemma CreateKeepsConsistent(w: World, name: string, projectTag: string, params: LaunchParams,
                              cloud: CloudAnswers, contextRefused: bool, refused: set<string>)
    requires Consistent(w)
    requires cloud.ip.Some? ==> ':' !in cloud.ip.value && '@' !in cloud.ip.value
    ensures Consistent(CreateEc2Instance(w, name, projectTag, params, cloud, contextRefused, refused).world)
  {
    if Requested(w, name, projectTag, params, cloud) {
      CreateIsLaunch(w, name, projectTag, params, cloud, contextRefused, refused);
      LaunchKeepsConsistent(w, name, cloud.launched.value, RequestedTags(projectTag, params, cloud),
                            cloud, contextRefused, refused);
    }
  }
}
