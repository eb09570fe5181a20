/** The parts of a DaemonSet's pod template the operator manages. */
module Deployments {
  import opened Common

  datatype VolumeSource =
    | HostPath(path: string, kind: string)
    | ConfigMap(name: string, mode: int)

  datatype Volume = Volume(name: string, source: VolumeSource)

  datatype VolumeMount = VolumeMount(name: string, mountPath: string)

  datatype EnvValue = Literal(value: string) | FieldRef(fieldPath: string)

  datatype InitContainer = InitContainer(
    image: string, imagePullPolicy: string, name: string, env: seq<(string, EnvValue)>,
    seLinuxType: string, privileged: bool, readOnlyRootFilesystem: bool, volumeMounts: seq<VolumeMount>)

  /** `None` stands for a nil slice. */
  datatype PodSpec = PodSpec(
    image: string, args: seq<string>, initContainers: Option<seq<InitContainer>>, volumes: seq<Volume>,
    nodeSelector: map<string, string>, tolerations: Option<seq<string>>)

  class DaemonSet {
    var image: string
    var args: seq<string>
    var initContainers: Option<seq<InitContainer>>
    var volumes: seq<Volume>
    var nodeSelector: map<string, string>
    var tolerations: Option<seq<string>>

    ghost function Spec(): PodSpec
      reads this
    {
      PodSpec(image, args, initContainers, volumes, nodeSelector, tolerations)
    }

    constructor (spec: PodSpec)
      ensures Spec() == spec
    {
      image, args, initContainers := spec.image, spec.args, spec.initContainers;
      volumes, nodeSelector, tolerations := spec.volumes, spec.nodeSelector, spec.tolerations;
    }
  }

  predicate Has(volumes: seq<Volume>, name: string) { exists v | v in volumes :: v.name == name }

  /** The volumes with other names. */
  function Without(volumes: seq<Volume>, name: string): seq<Volume> {
    if volumes == [] then []
    else
      var last := volumes[|volumes|-1];
      Without(volumes[..|volumes|-1], name) + if last.name == name then [] else [last]
  }

  /** The volume is added unless there is one of its name. */
  function WithVolume(volumes: seq<Volume>, v: Volume): seq<Volume> {
    if Has(volumes, v.name) then volumes else volumes + [v]
  }

  method AddVolumeIfMissing(ds: DaemonSet, v: Volume)
    modifies ds`volumes
    ensures ds.volumes == WithVolume(old(ds.volumes), v)
  {
    for i := 0 to |ds.volumes|
      invariant ds.volumes == old(ds.volumes)
      invariant forall k | 0 <= k < i :: ds.volumes[k].name != v.name
    {
      if ds.volumes[i].name == v.name { return; }
    }
    ds.volumes := ds.volumes + [v];
  }

  lemma {:induction false} WithoutAbsent(volumes: seq<Volume>, name: string)
    requires !Has(volumes, name)
    ensures Without(volumes, name) == volumes
  {
    if volumes == [] {
    } else {
      var front, last := volumes[..|volumes|-1], volumes[|volumes|-1];
      assert volumes == front + [last];
      assert last in volumes;
      WithoutAbsent(front, name);
    }
  }

  /** A custom resource without selector gets the default one. */
  function SelectorFor(wanted: map<string, string>, default: map<string, string>): map<string, string> {
    if |wanted| > 0 then wanted else default
  }

  /** `HasTolerationsChanged`. */
  predicate HasTolerationsChanged(before: Option<seq<string>>, after: Option<seq<string>>) {
    if before.None? && after.None? then false
    else if before.None? || after.None? then true
    else before.value != after.value
  }

  /** The value a program finds for a flag on a command line of flags and values; the last one
      counts. */
  function FlagValue(args: seq<string>, name: string): Option<string> {
    if |args| < 2 then None
    else
      match FlagValue(args[2..], name)
      case Some(value) => Some(value)
      case None => if args[0] == name then Some(args[1]) else None
  }

  lemma FlagFirst(name: string, value: string, rest: seq<string>, flag: string)
    ensures FlagValue([name, value] + rest, flag) ==
            if FlagValue(rest, flag).Some? then FlagValue(rest, flag)
            else if name == flag then Some(value) else None
  {
    assert ([name, value] + rest)[2..] == rest;
  }
}
