/** Reconciling the DLB plugin's DaemonSet (pkg/controllers/dlb/controller.go). */
module DlbController {
  import opened Common
  import opened Text
  import opened Deployments

  /** What deployments/dlb_plugin/base/intel-dlb-plugin.yaml and the controller's constants
      provide: the volumes of the plugin, its selector, the init container (up to its image)
      and the two volumes that go with it. */
  datatype Template = Template(volumes: seq<Volume>, nodeSelector: map<string, string>, init: InitContainer,
                               sysfsDevices: Volume, sysfsDriver: Volume)

  const DLB := Template(
    [Volume("devfs", HostPath("/dev", "")),
     Volume("sysfs", HostPath("/sys/class/dlb2", "")),
     Volume("kubeletsockets", HostPath("/var/lib/kubelet/device-plugins", ""))],
    map["kubernetes.io/arch" := "amd64"],
    InitContainer("", "IfNotPresent", "enable-vfs", [], "", true, true,
                  [VolumeMount("sysfs-devices", "/sys/devices"),
                   VolumeMount("sysfs-driver-dlb2", "/sys/bus/pci/drivers/dlb2")]),
    Volume("sysfs-devices", HostPath("/sys/devices", "DirectoryOrCreate")),
    Volume("sysfs-driver-dlb2", HostPath("/sys/bus/pci/drivers/dlb2", "DirectoryOrCreate")))

  /** The volumes of the init container are not among those of the plugin. */
  predicate Proper(t: Template) {
    && t.sysfsDevices.name != t.sysfsDriver.name
    && !Has(t.volumes, t.sysfsDevices.name) && !Has(t.volumes, t.sysfsDriver.name)
  }

  lemma DlbIsProper()
    ensures Proper(DLB)
  {
    assert |"devfs"| == 5 && |"sysfs"| == 5 && |"kubeletsockets"| == 14;
    assert |"sysfs-devices"| == 13 && |"sysfs-driver-dlb2"| == 17;
  }

  datatype DlbSpec = DlbSpec(image: string, initImage: string, nodeSelector: map<string, string>,
                             tolerations: Option<seq<string>>, logLevel: nat)

  // ------------------------------------------------------------ specification

  function PodArgs(dp: DlbSpec): seq<string> { ["-v", Itoa(dp.logLevel)] }

  function WithInit(t: Template, volumes: seq<Volume>): seq<Volume> {
    WithVolume(WithVolume(volumes, t.sysfsDevices), t.sysfsDriver)
  }

  function WithoutInit(t: Template, volumes: seq<Volume>): seq<Volume> {
    Without(Without(volumes, t.sysfsDevices.name), t.sysfsDriver.name)
  }

  /** What the custom resource asks for. */
  function Desired(t: Template, dp: DlbSpec): PodSpec {
    PodSpec(dp.image, PodArgs(dp),
            if dp.initImage == "" then None else Some([t.init.(image := dp.initImage)]),
            if dp.initImage == "" then t.volumes else Full(t),
            SelectorFor(dp.nodeSelector, t.nodeSelector), dp.tolerations)
  }

  predicate InitCurrent(s: PodSpec, dp: DlbSpec) {
    s.initContainers.Some? && |s.initContainers.value| == 1 && s.initContainers.value[0].image == dp.initImage
  }

  /** The init containers and volumes after one pass. */
  function InitUpdated(t: Template, s: PodSpec, dp: DlbSpec): PodSpec {
    if dp.initImage == "" then
      if s.initContainers.None? then s else s.(initContainers := None, volumes := WithoutInit(t, s.volumes))
    else if InitCurrent(s, dp) then s
    else s.(initContainers := Some([t.init.(image := dp.initImage)]), volumes := WithInit(t, s.volumes))
  }

  /** Selector, arguments and tolerations after one pass; arguments are compared as text. */
  function RestUpdated(t: Template, s: PodSpec, dp: DlbSpec): PodSpec {
    s.(args := if Join(s.args, " ") == Join(PodArgs(dp), " ") then s.args else PodArgs(dp),
       nodeSelector := SelectorFor(dp.nodeSelector, t.nodeSelector),
       tolerations := dp.tolerations)
  }

  /** The pod spec after one pass. */
  function Updated(t: Template, s: PodSpec, dp: DlbSpec): PodSpec {
    RestUpdated(t, InitUpdated(t, s.(image := dp.image), dp), dp)
  }

  // ------------------------------------------------------------------ methods

  /** `removeVolume(volumes, a, b)`: a volume is kept when the last name is reached without a
      match. */
  method RemoveVolumes(volumes: seq<Volume>, a: string, b: string) returns (r: seq<Volume>)
    ensures r == Without(Without(volumes, a), b)
  {
    var names := [a, b];
    r := [];
    for i := 0 to |volumes|
      invariant r == Without(Without(volumes[..i], a), b)
    {
      var v := volumes[i];
      RemoveStep(volumes, i, a, b);
      var keep := NoMatch(v, names);
      assert keep <==> v.name != names[0] && v.name != names[1];
      if keep { r := r + [v]; }
    }
    assert volumes[..|volumes|] == volumes;
  }

  /** The inner loop over the names. */
  method NoMatch(v: Volume, names: seq<string>) returns (keep: bool)
    ensures keep <==> names != [] && v.name !in names
  {
    keep := false;
    for i := 0 to |names|
      invariant v.name !in names[..i]
      invariant keep <==> names != [] && i == |names|
    {
      if v.name == names[i] { return; }
      if i == |names| - 1 { keep := true; }
    }
    assert names[..|names|] == names;
  }

  lemma RemoveStep(volumes: seq<Volume>, i: nat, a: string, b: string)
    requires i < |volumes|
    ensures var before := Without(Without(volumes[..i], a), b);
            Without(Without(volumes[..i+1], a), b) ==
            if volumes[i].name == a || volumes[i].name == b then before else before + [volumes[i]]
  {
    assert volumes[..i+1] == volumes[..i] + [volumes[i]];
    RemoveOne(volumes[..i], volumes[i], a, b);
  }

  lemma RemoveOne(w: seq<Volume>, v: Volume, a: string, b: string)
    ensures Without(Without(w + [v], a), b) ==
            if v.name == a || v.name == b then Without(Without(w, a), b) else Without(Without(w, a), b) + [v]
  {
    var x, y := Without(w, a), Without(w + [v], a);
    if v.name == a {
      assert y == x;
    } else {
      assert y == x + [v];
    }
  }

  method SetInitContainer(t: Template, ds: DaemonSet, dp: DlbSpec)
    modifies ds`initContainers, ds`volumes
    ensures ds.initContainers == Some([t.init.(image := dp.initImage)]) && ds.volumes == WithInit(t, old(ds.volumes))
  {
    ds.initContainers := Some([t.init.(image := dp.initImage)]);
    AddVolumeIfMissing(ds, t.sysfsDevices);
    AddVolumeIfMissing(ds, t.sysfsDriver);
  }

  method RemoveInitContainer(t: Template, ds: DaemonSet)
    modifies ds`initContainers, ds`volumes
    ensures ds.initContainers == None && ds.volumes == WithoutInit(t, old(ds.volumes))
  {
    ds.initContainers := None;
    var volumes := RemoveVolumes(ds.volumes, t.sysfsDevices.name, t.sysfsDriver.name);
    ds.volumes := volumes;
  }

  method AddInit(t: Template, dp: DlbSpec, ds: DaemonSet)
    requires Proper(t) && ds.volumes == t.volumes
    modifies ds`initContainers, ds`volumes
    ensures ds.initContainers == Desired(t, dp).initContainers && ds.volumes == Desired(t, dp).volumes
  {
    if dp.initImage == "" {
      InitAbsent(t);
      RemoveInitContainer(t, ds);
    } else {
      SetInitContainer(t, ds, dp);
    }
  }

  method NewDaemonSet(t: Template, dp: DlbSpec, imagePlaceholder: string) returns (ds: DaemonSet)
    requires Proper(t)
    ensures fresh(ds) && ds.Spec() == Desired(t, dp)
  {
    ds := new DaemonSet(PodSpec(imagePlaceholder, [], None, t.volumes, t.nodeSelector, None));
    if |dp.nodeSelector| > 0 { ds.nodeSelector := dp.nodeSelector; }
    if dp.tolerations.Some? { ds.tolerations := dp.tolerations; }
    AddInit(t, dp, ds);
    ds.args := PodArgs(dp);
    ds.image := dp.image;
  }

  /** The part of the pass that deals with the init container. */
  method UpdateInit(t: Template, dp: DlbSpec, ds: DaemonSet) returns (updated: bool)
    modifies ds
    ensures ds.Spec() == InitUpdated(t, old(ds.Spec()), dp)
    ensures updated <==> ds.initContainers != old(ds.initContainers)
  {
    updated := false;
    if dp.initImage == "" {
      if ds.initContainers.Some? {
        RemoveInitContainer(t, ds);
        updated := true;
      }
    } else {
      var containers := ds.initContainers;
      if containers.None? || |containers.value| != 1 || containers.value[0].image != dp.initImage {
        SetInitContainer(t, ds, dp);
        updated := true;
      }
    }
  }

  /** The part that deals with selector, arguments and tolerations. */
  method UpdateRest(t: Template, dp: DlbSpec, ds: DaemonSet) returns (updated: bool)
    modifies ds
    ensures ds.Spec() == RestUpdated(t, old(ds.Spec()), dp)
    ensures updated <==> ds.Spec() != old(ds.Spec())
  {
    updated := false;
    if |dp.nodeSelector| > 0 {
      if ds.nodeSelector != dp.nodeSelector {
        ds.nodeSelector := dp.nodeSelector;
        updated := true;
      }
    } else if ds.nodeSelector != t.nodeSelector {
      ds.nodeSelector := t.nodeSelector;
      updated := true;
    }
    var newargs := PodArgs(dp);
    if Join(ds.args, " ") != Join(newargs, " ") {
      ds.args := newargs;
      updated := true;
    }
    if HasTolerationsChanged(ds.tolerations, dp.tolerations) {
      ds.tolerations := dp.tolerations;
      updated := true;
    }
  }

  /** Reports a change exactly when it makes one. */
  method UpdateDaemonSet(t: Template, dp: DlbSpec, ds: DaemonSet) returns (updated: bool)
    modifies ds
    ensures ds.Spec() == Updated(t, old(ds.Spec()), dp)
    ensures updated <==> ds.Spec() != old(ds.Spec())
  {
    updated := ds.image != dp.image;
    ds.image := dp.image;
    var initUpdated := UpdateInit(t, dp, ds);
    var restUpdated := UpdateRest(t, dp, ds);
    updated := updated || initUpdated || restUpdated;
  }

  // --------------------------------------------------------------- properties

  /** Whatever the DaemonSet looks like, a second pass finds nothing to change. */
  lemma Fixpoint(t: Template, s: PodSpec, dp: DlbSpec)
    ensures Updated(t, Updated(t, s, dp), dp) == Updated(t, s, dp)
  {
  }

  /** The volumes with an init container. */
  function Full(t: Template): seq<Volume> { t.volumes + [t.sysfsDevices] + [t.sysfsDriver] }

  lemma InitAbsent(t: Template)
    requires Proper(t)
    ensures WithoutInit(t, t.volumes) == t.volumes
  {
    WithoutAbsent(t.volumes, t.sysfsDevices.name);
    WithoutAbsent(t.volumes, t.sysfsDriver.name);
  }

  lemma InitRemoved(t: Template)
    requires Proper(t)
    ensures WithoutInit(t, Full(t)) == t.volumes
  {
    var a, b, v := t.sysfsDevices, t.sysfsDriver, t.volumes;
    WithoutAbsent(v, a.name);
    assert v + [] == v;
    assert Without(v + [a] + [b], a.name) == v + [b];
    WithoutAbsent(v, b.name);
  }

  lemma ArgsDetermined(dp: DlbSpec, dq: DlbSpec)
    requires Join(PodArgs(dp), " ") == Join(PodArgs(dq), " ")
    ensures PodArgs(dp) == PodArgs(dq)
  {
    assert Itoa(dp.logLevel) == ("-v" + " " + Itoa(dp.logLevel))[3..];
    assert Itoa(dq.logLevel) == ("-v" + " " + Itoa(dq.logLevel))[3..];
  }

  /** One pass turns the DaemonSet of any other version of the custom resource into the
      desired one. */
  lemma UpdateReachesDesired(t: Template, previous: DlbSpec, dp: DlbSpec)
    requires Proper(t)
    ensures Updated(t, Desired(t, previous), dp) == Desired(t, dp)
  {
    InitReachesDesired(t, previous, dp);
    if Join(PodArgs(previous), " ") == Join(PodArgs(dp), " ") { ArgsDetermined(previous, dp); }
  }

  lemma InitReachesDesired(t: Template, previous: DlbSpec, dp: DlbSpec)
    requires Proper(t)
    ensures var s := Desired(t, previous).(image := dp.image);
            InitUpdated(t, s, dp) == s.(initContainers := Desired(t, dp).initContainers, volumes := Desired(t, dp).volumes)
  {
    if dp.initImage == "" {
      InitRemoved(t);
    } else {
      InitAdded(t);
      InitKept(t);
    }
  }

  lemma InitAdded(t: Template)
    requires Proper(t)
    ensures WithInit(t, t.volumes) == Full(t)
  {
    assert !Has(t.volumes + [t.sysfsDevices], t.sysfsDriver.name);
  }

  lemma InitKept(t: Template)
    requires Proper(t)
    ensures WithInit(t, Full(t)) == Full(t)
  {
    var v := t.volumes + [t.sysfsDevices] + [t.sysfsDriver];
    assert v[|t.volumes|] == t.sysfsDevices && v[|t.volumes| + 1] == t.sysfsDriver;
    assert t.sysfsDevices in v && t.sysfsDriver in v;
  }

  /** The DaemonSet after creation for the first and reconciliation with each later version of
      the custom resource. */
  function Reconciled(t: Template, versions: seq<DlbSpec>): PodSpec
    requires versions != []
  {
    if |versions| == 1 then Desired(t, versions[0])
    else Updated(t, Reconciled(t, versions[..|versions|-1]), versions[|versions|-1])
  }

  /** Level-triggered: only the last version matters. */
  lemma {:induction false} OnlyLastVersionMatters(t: Template, versions: seq<DlbSpec>)
    requires Proper(t) && versions != []
    ensures Reconciled(t, versions) == Desired(t, versions[|versions|-1])
  {
    if |versions| > 1 {
      var front := versions[..|versions|-1];
      OnlyLastVersionMatters(t, front);
      UpdateReachesDesired(t, front[|front|-1], versions[|versions|-1]);
    }
  }

  /** The plugin finds its log level on the command line. */
  lemma ArgsSay(dp: DlbSpec)
    ensures FlagValue(PodArgs(dp), "-v") == Some(Itoa(dp.logLevel)) && Atoi(Itoa(dp.logLevel)) == dp.logLevel
  {
    assert PodArgs(dp) == ["-v", Itoa(dp.logLevel)] + [];
    FlagFirst("-v", Itoa(dp.logLevel), [], "-v");
    AtoiItoa(dp.logLevel);
  }

  /** After any history the DaemonSet is what the last version of the custom resource says, field by
      field. */
  lemma ReconciledSays(t: Template, versions: seq<DlbSpec>)
    requires Proper(t) && versions != []
    ensures var s, dp := Reconciled(t, versions), versions[|versions|-1];
            && s.image == dp.image && s.tolerations == dp.tolerations
            && FlagValue(s.args, "-v") == Some(Itoa(dp.logLevel))
            && s.nodeSelector == (if dp.nodeSelector == map[] then t.nodeSelector else dp.nodeSelector)
            && (s.initContainers.Some? <==> dp.initImage != "")
            && (dp.initImage == "" ==> s.volumes == t.volumes)
            && (dp.initImage != "" ==>
                  && s.initContainers == Some([t.init.(image := dp.initImage)])
                  && s.volumes == t.volumes + [t.sysfsDevices, t.sysfsDriver])
  {
    var dp := versions[|versions|-1];
    OnlyLastVersionMatters(t, versions);
    ArgsSay(dp);
    assert t.volumes + [t.sysfsDevices] + [t.sysfsDriver] == t.volumes + [t.sysfsDevices, t.sysfsDriver];
  }

  /** For the plugin's own deployment, too, only the last version matters. */
  lemma DlbReconciles(versions: seq<DlbSpec>)
    requires versions != []
    ensures Reconciled(DLB, versions) == Desired(DLB, versions[|versions|-1])
  {
    DlbIsProper();
    OnlyLastVersionMatters(DLB, versions);
  }
}
