/** Reconciling the QAT plugin's DaemonSet (pkg/controllers/qat/controller.go). */
module QatController {
  import opened Common
  import opened Text
  import opened Deployments

  /** Names of the plugin's command line flags and their default values. */
  datatype Flags = Flags(verbosity: string, dpdkDriver: string, kernelVfDrivers: string, maxNumDevices: string,
                         allocationPolicy: string, defaultDpdkDriver: string, defaultKernelVfDrivers: string,
                         defaultMaxNumDevices: string)

  /** What deployments/qat_plugin/base/intel-qat-plugin.yaml and the controller's constants
      provide. `init` is the init container without image, PCI ids and configuration mount. */
  datatype Template = Template(volumes: seq<Volume>, nodeSelector: map<string, string>, init: InitContainer,
                               sysfs: Volume, configName: string, configMode: int, configMount: VolumeMount,
                               pciIdsVar: string, pciIds: map<string, string>, flags: Flags)

  const QAT_FLAGS := Flags("-v", "-dpdk-driver", "-kernel-vf-drivers", "-max-num-devices", "-allocation-policy",
                           "vfio-pci", "c6xxvf,4xxxvf", "32")

  /** The physical functions behind each driver of virtual functions. */
  const PCI_IDS := map["dh895xccvf" := "0434 0435", "c3xxxvf" := "19e2", "c6xxvf" := "37c8", "d15xxvf" := "6f54",
                       "4xxxvf" := "4940 4942 4944", "420xxvf" := "4946", "c4xxxvf" := "18a0"]

  const QAT := Template(
    [Volume("devdir", HostPath("/dev/vfio", "")),
     Volume("debugfsdir", HostPath("/sys/kernel/debug", "")),
     Volume("pcidir", HostPath("/sys/bus/pci", "")),
     Volume("kubeletsockets", HostPath("/var/lib/kubelet/device-plugins", ""))],
    map["kubernetes.io/arch" := "amd64"],
    InitContainer("", "IfNotPresent", "intel-qat-initcontainer", [("NODE_NAME", FieldRef("spec.nodeName"))],
                  "container_device_plugin_init_t", true, true, [VolumeMount("sysfs", "/sys")]),
    Volume("sysfs", HostPath("/sys", "DirectoryOrCreate")),
    "intel-qat-config-volume", 288 /* 0440 */, VolumeMount("intel-qat-config-volume", "/qat-init/conf"),
    "ENABLED_QAT_PF_PCIIDS",
    PCI_IDS, QAT_FLAGS)

  predicate Blankless(s: string) { ' ' !in s }

  predicate BlanklessFlags(f: Flags) {
    && Blankless(f.verbosity) && Blankless(f.dpdkDriver) && Blankless(f.kernelVfDrivers) && Blankless(f.maxNumDevices)
    && Blankless(f.allocationPolicy) && Blankless(f.defaultDpdkDriver) && Blankless(f.defaultKernelVfDrivers)
    && Blankless(f.defaultMaxNumDevices)
  }

  /** The volumes of the init container are not among those of the plugin. */
  predicate Proper(t: Template) {
    && t.sysfs.name != t.configName
    && !Has(t.volumes, t.sysfs.name) && !Has(t.volumes, t.configName)
    && BlanklessFlags(t.flags)
  }

  lemma QatIsProper()
    ensures Proper(QAT)
  {
    assert |"devdir"| == 6 && |"debugfsdir"| == 10 && |"pcidir"| == 6 && |"kubeletsockets"| == 14;
    assert |"sysfs"| == 5 && |"intel-qat-config-volume"| == 23;
    FlagsAreBlankless();
  }

  lemma FlagsAreBlankless()
    ensures BlanklessFlags(QAT_FLAGS)
  {
    FlagNamesAreBlankless();
    assert Blankless("-v") && Blankless("vfio-pci") && Blankless("32") && Blankless("c6xxvf,4xxxvf");
  }

  lemma FlagNamesAreBlankless()
    ensures Blankless("-dpdk-driver") && Blankless("-kernel-vf-drivers")
    ensures Blankless("-max-num-devices") && Blankless("-allocation-policy")
  {
  }

  datatype QatSpec = QatSpec(
    image: string, initImage: string, provisioningConfig: string, preferredAllocationPolicy: string,
    dpdkDriver: string, nodeSelector: map<string, string>, kernelVfDrivers: seq<string>,
    tolerations: Option<seq<string>>, maxNumDevices: int, logLevel: nat)

  /** What the validation of the custom resource implies: policies and drivers are enumerated
      names. */
  predicate BlanklessNames(dp: QatSpec) {
    && Blankless(dp.dpdkDriver) && Blankless(dp.preferredAllocationPolicy)
    && forall d | d in dp.kernelVfDrivers :: Blankless(d)
  }

  // ------------------------------------------------------------ specification

  function PodArgs(f: Flags, dp: QatSpec): seq<string> {
    [f.verbosity, Itoa(dp.logLevel),
     f.dpdkDriver, if dp.dpdkDriver != "" then dp.dpdkDriver else f.defaultDpdkDriver,
     f.kernelVfDrivers, if |dp.kernelVfDrivers| > 0 then Join(dp.kernelVfDrivers, ",") else f.defaultKernelVfDrivers,
     f.maxNumDevices, if dp.maxNumDevices > 0 then Itoa(dp.maxNumDevices) else f.defaultMaxNumDevices] +
    if dp.preferredAllocationPolicy != "" then [f.allocationPolicy, dp.preferredAllocationPolicy] else []
  }

  /** The PCI ids of the physical functions behind the drivers; an unknown driver has none. */
  function PciIds(t: Template, drivers: seq<string>): seq<string> {
    seq(|drivers|, i requires 0 <= i < |drivers| => if drivers[i] in t.pciIds then t.pciIds[drivers[i]] else "")
  }

  /** The drivers the custom resource allows (the enumeration in
      pkg/apis/deviceplugin/v1/qatdeviceplugin_types.go). */
  const ALLOWED_DRIVERS :=
    ["dh895xccvf", "c6xxvf", "c3xxxvf", "d15xxvf", "4xxxvf", "420xxvf", "c4xxxvf", "6xxxvf"]

  /** Of these, exactly 6xxxvf has no PCI id: the init container enables nothing for it. */
  lemma DriversWithIds(i: nat)
    requires i < |ALLOWED_DRIVERS|
    ensures var d := ALLOWED_DRIVERS[i]; (d in PCI_IDS && PCI_IDS[d] != "") <==> d != "6xxxvf"
  {
    assert "6xxxvf" !in PCI_IDS by {
      assert |"6xxxvf"| == 6 && |"c6xxvf"| == 6 && |"4xxxvf"| == 6;
      assert "6xxxvf"[0] == '6' && "c6xxvf"[0] == 'c' && "4xxxvf"[0] == '4';
      assert |"dh895xccvf"| == 10 && |"c3xxxvf"| == 7 && |"d15xxvf"| == 7 && |"420xxvf"| == 7 && |"c4xxxvf"| == 7;
    }
  }

  function InitFor(t: Template, dp: QatSpec, drivers: seq<string>): InitContainer {
    t.init.(image := dp.initImage,
            env := [(t.pciIdsVar, Literal(Join(PciIds(t, drivers), " ")))] + t.init.env,
            volumeMounts := t.init.volumeMounts + if dp.provisioningConfig == "" then [] else [t.configMount])
  }

  function ConfigVolume(t: Template, config: string): Volume { Volume(t.configName, ConfigMap(config, t.configMode)) }

  /** Every volume of that name is replaced. */
  function Replaced(volumes: seq<Volume>, v: Volume): (r: seq<Volume>)
    ensures |r| == |volumes|
  {
    seq(|volumes|, i requires 0 <= i < |volumes| => if volumes[i].name == v.name then v else volumes[i])
  }

  /** The name of the config map in the first configuration volume; "" if there is none. */
  function CurrentConfig(t: Template, volumes: seq<Volume>): string {
    if volumes == [] then ""
    else if volumes[0].name == t.configName then
      if volumes[0].source.ConfigMap? then volumes[0].source.name else ""
    else CurrentConfig(t, volumes[1..])
  }

  /** The volumes once the init container has been set. */
  function InitVolumes(t: Template, volumes: seq<Volume>, config: string): seq<Volume> {
    if config == "" then WithVolume(Without(volumes, t.configName), t.sysfs)
    else
      var v := WithVolume(volumes, t.sysfs);
      if Has(v, t.configName) then Replaced(v, ConfigVolume(t, config)) else v + [ConfigVolume(t, config)]
  }

  predicate InitCurrent(t: Template, s: PodSpec, dp: QatSpec) {
    && s.initContainers.Some? && |s.initContainers.value| == 1 && s.initContainers.value[0].image == dp.initImage
    && CurrentConfig(t, s.volumes) == dp.provisioningConfig
  }

  function DesiredVolumes(t: Template, initImage: string, config: string): seq<Volume> {
    if initImage == "" then t.volumes
    else if config == "" then t.volumes + [t.sysfs]
    else t.volumes + [t.sysfs] + [ConfigVolume(t, config)]
  }

  /** What the custom resource asks for, with an init container that enables `drivers`. */
  function DesiredWith(t: Template, dp: QatSpec, drivers: seq<string>): PodSpec {
    PodSpec(dp.image, PodArgs(t.flags, dp), if dp.initImage == "" then None else Some([InitFor(t, dp, drivers)]),
            DesiredVolumes(t, dp.initImage, dp.provisioningConfig),
            SelectorFor(dp.nodeSelector, t.nodeSelector), dp.tolerations)
  }

  function Desired(t: Template, dp: QatSpec): PodSpec { DesiredWith(t, dp, dp.kernelVfDrivers) }

  /** The init containers and volumes after one pass. */
  function InitUpdated(t: Template, s: PodSpec, dp: QatSpec): PodSpec {
    if dp.initImage == "" then
      if s.initContainers.None? then s
      else s.(initContainers := None, volumes := Without(Without(s.volumes, t.sysfs.name), t.configName))
    else if InitCurrent(t, s, dp) then s
    else s.(initContainers := Some([InitFor(t, dp, dp.kernelVfDrivers)]),
            volumes := InitVolumes(t, s.volumes, dp.provisioningConfig))
  }

  /** Selector, arguments and tolerations after one pass; arguments are compared as text. */
  function RestUpdated(t: Template, s: PodSpec, dp: QatSpec): PodSpec {
    s.(args := if Join(s.args, " ") == Join(PodArgs(t.flags, dp), " ") then s.args else PodArgs(t.flags, dp),
       nodeSelector := SelectorFor(dp.nodeSelector, t.nodeSelector),
       tolerations := dp.tolerations)
  }

  /** The pod spec after one pass. */
  function Updated(t: Template, s: PodSpec, dp: QatSpec): PodSpec {
    RestUpdated(t, InitUpdated(t, s.(image := dp.image), dp), dp)
  }

  // ------------------------------------------------------------------ methods

  method RemoveVolume(volumes: seq<Volume>, name: string) returns (r: seq<Volume>)
    ensures r == Without(volumes, name)
  {
    r := [];
    for i := 0 to |volumes|
      invariant r == Without(volumes[..i], name)
    {
      assert volumes[..i+1] == volumes[..i] + [volumes[i]];
      if volumes[i].name != name { r := r + [volumes[i]]; }
    }
    assert volumes[..|volumes|] == volumes;
  }

  method ProvisioningConfigChanged(t: Template, ds: DaemonSet, provisioningConfig: string) returns (changed: bool)
    ensures changed <==> CurrentConfig(t, ds.volumes) != provisioningConfig
  {
    var currentConfig := "";
    for i := 0 to |ds.volumes|
      invariant currentConfig == ""
      invariant CurrentConfig(t, ds.volumes) == CurrentConfig(t, ds.volumes[i..])
    {
      assert ds.volumes[i..][0] == ds.volumes[i] && ds.volumes[i..][1..] == ds.volumes[i+1..];
      if ds.volumes[i].name == t.configName {
        if ds.volumes[i].source.ConfigMap? { currentConfig := ds.volumes[i].source.name; }
        return currentConfig != provisioningConfig;
      }
    }
    return currentConfig != provisioningConfig;
  }

  /** The loop that replaces configuration volumes, or adds one. */
  method SetConfigVolume(ds: DaemonSet, v: Volume)
    modifies ds`volumes
    ensures ds.volumes == if Has(old(ds.volumes), v.name) then Replaced(old(ds.volumes), v) else old(ds.volumes) + [v]
  {
    ghost var before := ds.volumes;
    var volumeUpdated := false;
    for idx := 0 to |ds.volumes|
      invariant |ds.volumes| == |before|
      invariant ds.volumes[..idx] == Replaced(before, v)[..idx] && ds.volumes[idx..] == before[idx..]
      invariant volumeUpdated <==> exists k | 0 <= k < idx :: before[k].name == v.name
    {
      assert ds.volumes[idx] == ds.volumes[idx..][0] == before[idx];
      if ds.volumes[idx].name == v.name {
        ds.volumes := ds.volumes[idx := v];
        volumeUpdated := true;
      }
    }
    if !volumeUpdated {
      assert Replaced(before, v) == before;
      ds.volumes := ds.volumes + [v];
    }
  }

  method SetInitContainer(t: Template, ds: DaemonSet, dp: QatSpec)
    modifies ds
    ensures ds.Spec() == old(ds.Spec()).(initContainers := Some([InitFor(t, dp, dp.kernelVfDrivers)]),
                                         volumes := ds.volumes)
    ensures ds.volumes == if dp.provisioningConfig == "" then WithVolume(old(ds.volumes), t.sysfs)
                          else InitVolumes(t, old(ds.volumes), dp.provisioningConfig)
  {
    var enablingPfPciIDs: seq<string> := [];
    for i := 0 to |dp.kernelVfDrivers|
      invariant enablingPfPciIDs == PciIds(t, dp.kernelVfDrivers)[..i]
    {
      var driver := dp.kernelVfDrivers[i];
      enablingPfPciIDs := enablingPfPciIDs + [if driver in t.pciIds then t.pciIds[driver] else ""];
    }
    assert enablingPfPciIDs == PciIds(t, dp.kernelVfDrivers);
    assert t.init.volumeMounts + [] == t.init.volumeMounts;
    var init := t.init.(image := dp.initImage, env := [(t.pciIdsVar, Literal(Join(enablingPfPciIDs, " ")))] + t.init.env);
    AddVolumeIfMissing(ds, t.sysfs);
    if dp.provisioningConfig != "" {
      SetConfigVolume(ds, ConfigVolume(t, dp.provisioningConfig));
      init := init.(volumeMounts := init.volumeMounts + [t.configMount]);
    }
    ds.initContainers := Some([init]);
  }

  method NewDaemonSet(t: Template, dp: QatSpec, imagePlaceholder: string) returns (ds: DaemonSet)
    requires Proper(t)
    ensures fresh(ds) && ds.Spec() == Desired(t, dp)
  {
    ds := new DaemonSet(PodSpec(imagePlaceholder, [], None, t.volumes, t.nodeSelector, None));
    if dp.tolerations.Some? { ds.tolerations := dp.tolerations; }
    if |dp.nodeSelector| > 0 { ds.nodeSelector := dp.nodeSelector; }
    if dp.initImage != "" {
      WithoutAbsent(t.volumes, t.configName);
      VolumesFollow(t, "", "", dp.initImage, dp.provisioningConfig);
      SetInitContainer(t, ds, dp);
    }
    ds.args := PodArgs(t.flags, dp);
    ds.image := dp.image;
  }

  /** The part of the pass that deals with the init container. */
  method UpdateInit(t: Template, dp: QatSpec, ds: DaemonSet) returns (updated: bool)
    modifies ds
    ensures ds.Spec() == InitUpdated(t, old(ds.Spec()), dp)
    ensures updated <==> !(if dp.initImage == "" then old(ds.initContainers).None? else InitCurrent(t, old(ds.Spec()), dp))
  {
    updated := false;
    if dp.initImage == "" {
      if ds.initContainers.Some? {
        ds.initContainers := None;
        var volumes := RemoveVolume(ds.volumes, t.sysfs.name);
        volumes := RemoveVolume(volumes, t.configName);
        ds.volumes := volumes;
        updated := true;
      }
    } else {
      var containers := ds.initContainers;
      var changed := ProvisioningConfigChanged(t, ds, dp.provisioningConfig);
      if containers.None? || |containers.value| != 1 || containers.value[0].image != dp.initImage || changed {
        if dp.provisioningConfig == "" {
          var volumes := RemoveVolume(ds.volumes, t.configName);
          ds.volumes := volumes;
        }
        SetInitContainer(t, ds, dp);
        updated := true;
      }
    }
  }

  method UpdateRest(t: Template, dp: QatSpec, ds: DaemonSet) returns (updated: bool)
    modifies ds
    ensures ds.Spec() == RestUpdated(t, old(ds.Spec()), dp)
    ensures updated <==> ds.Spec() != old(ds.Spec())
  {
    updated := false;
    if |dp.nodeSelector| > 0 {
      if ds.nodeSelector != dp.nodeSelector {
        ds.nodeSelector := dp.nodeSelector;
        updated := true;
      }
    } else if ds.nodeSelector != t.nodeSelector {
      ds.nodeSelector := t.nodeSelector;
      updated := true;
    }
    var newargs := PodArgs(t.flags, dp);
    if Join(ds.args, " ") != Join(newargs, " ") {
      ds.args := newargs;
      updated := true;
    }
    if HasTolerationsChanged(ds.tolerations, dp.tolerations) {
      ds.tolerations := dp.tolerations;
      updated := true;
    }
  }

  /** Reports a change exactly when it makes one. */
  method UpdateDaemonSet(t: Template, dp: QatSpec, ds: DaemonSet) returns (updated: bool)
    requires t.sysfs.name != t.configName
    modifies ds
    ensures ds.Spec() == Updated(t, old(ds.Spec()), dp)
    ensures updated <==> ds.Spec() != old(ds.Spec())
  {
    updated := ds.image != dp.image;
    ds.image := dp.image;
    InitChangeShows(t, ds.Spec(), dp);
    var initUpdated := UpdateInit(t, dp, ds);
    var restUpdated := UpdateRest(t, dp, ds);
    updated := updated || initUpdated || restUpdated;
  }

  // ----------------------------------------------------------------- fixpoint

  lemma {:induction false} ReplacedConfig(t: Template, volumes: seq<Volume>, config: string)
    requires Has(volumes, t.configName)
    ensures CurrentConfig(t, Replaced(volumes, ConfigVolume(t, config))) == config
  {
    var v := ConfigVolume(t, config);
    if volumes[0].name != t.configName {
      assert Replaced(volumes, v)[1..] == Replaced(volumes[1..], v);
      var x :| x in volumes && x.name == t.configName;
      assert x in volumes[1..];
      ReplacedConfig(t, volumes[1..], config);
    }
  }

  lemma {:induction false} AppendedConfig(t: Template, volumes: seq<Volume>, v: Volume)
    requires !Has(volumes, t.configName)
    ensures CurrentConfig(t, volumes) == ""
    ensures CurrentConfig(t, volumes + [v]) == CurrentConfig(t, [v])
  {
    if volumes == [] {
      assert volumes + [v] == [v];
    } else {
      assert volumes[0] in volumes;
      assert (volumes + [v])[1..] == volumes[1..] + [v];
      AppendedConfig(t, volumes[1..], v);
    }
  }

  lemma {:induction false} WithoutHasNot(volumes: seq<Volume>, name: string)
    ensures !Has(Without(volumes, name), name)
  {
    if volumes == [] {
    } else {
      WithoutHasNot(volumes[..|volumes|-1], name);
    }
  }

  /** Setting the init container makes the configuration current. */
  lemma InitVolumesCurrent(t: Template, volumes: seq<Volume>, config: string)
    requires t.sysfs.name != t.configName
    ensures CurrentConfig(t, InitVolumes(t, volumes, config)) == config
  {
    if config == "" {
      var w := Without(volumes, t.configName);
      WithoutHasNot(volumes, t.configName);
      AppendedConfig(t, w, t.sysfs);
      assert [t.sysfs][1..] == [];
    } else {
      var w := WithVolume(volumes, t.sysfs);
      if Has(w, t.configName) {
        ReplacedConfig(t, w, config);
      } else {
        AppendedConfig(t, w, ConfigVolume(t, config));
      }
    }
  }

  /** A pass that deals with the init container changes it. */
  lemma InitChangeShows(t: Template, s: PodSpec, dp: QatSpec)
    requires t.sysfs.name != t.configName
    ensures InitUpdated(t, s, dp) == s <==> if dp.initImage == "" then s.initContainers.None? else InitCurrent(t, s, dp)
    ensures dp.initImage != "" ==> InitCurrent(t, InitUpdated(t, s, dp), dp)
  {
    InitVolumesCurrent(t, s.volumes, dp.provisioningConfig);
  }

  /** Whatever the DaemonSet looks like, a second pass finds nothing to change. */
  lemma Fixpoint(t: Template, s: PodSpec, dp: QatSpec)
    requires t.sysfs.name != t.configName
    ensures Updated(t, Updated(t, s, dp), dp) == Updated(t, s, dp)
  {
    InitChangeShows(t, s.(image := dp.image), dp);
    var s' := Updated(t, s, dp);
    InitChangeShows(t, s', dp);
  }

  // -------------------------------------------------------------- convergence

  lemma Members(t: Template, c: Volume)
    requires Proper(t) && c.name == t.configName
    ensures Has(t.volumes + [t.sysfs], t.sysfs.name) && !Has(t.volumes + [t.sysfs], t.configName)
    ensures Has(t.volumes + [t.sysfs] + [c], t.sysfs.name) && Has(t.volumes + [t.sysfs] + [c], t.configName)
  {
    var w := t.volumes + [t.sysfs] + [c];
    assert w[|t.volumes|] == t.sysfs && w[|t.volumes| + 1] == c;
    assert t.sysfs in w && c in w;
    assert (t.volumes + [t.sysfs])[|t.volumes|] == t.sysfs;
  }

  lemma RemovedFromPlain(t: Template)
    requires Proper(t)
    ensures Without(t.volumes, t.sysfs.name) == Without(t.volumes, t.configName) == t.volumes
  {
    WithoutAbsent(t.volumes, t.sysfs.name);
    WithoutAbsent(t.volumes, t.configName);
  }

  lemma RemovedFromInit(t: Template)
    requires Proper(t)
    ensures Without(t.volumes + [t.sysfs], t.sysfs.name) == t.volumes
    ensures Without(t.volumes + [t.sysfs], t.configName) == t.volumes + [t.sysfs]
  {
    RemovedFromPlain(t);
    assert t.volumes + [] == t.volumes;
  }

  lemma RemovedFromConfigured(t: Template, c: Volume)
    requires Proper(t) && c.name == t.configName
    ensures Without(t.volumes + [t.sysfs] + [c], t.configName) == t.volumes + [t.sysfs]
    ensures Without(t.volumes + [t.sysfs] + [c], t.sysfs.name) == t.volumes + [c]
    ensures Without(t.volumes + [c], t.configName) == t.volumes
  {
    RemovedFromPlain(t);
    RemovedFromInit(t);
    var v1 := t.volumes + [t.sysfs];
    assert t.volumes + [] == t.volumes && v1 + [] == v1;
  }

  /** Setting or removing the init container turns the volumes of one version into those of
      another. */
  lemma VolumesFollow(t: Template, initImage: string, config: string, initImage': string,
                                         config': string)
    requires Proper(t)
    ensures var w := DesiredVolumes(t, initImage, config);
            if initImage' == "" then Without(Without(w, t.sysfs.name), t.configName) == t.volumes
            else InitVolumes(t, w, config') == DesiredVolumes(t, initImage', config')
  {
    if initImage' == "" {
      InitRemoved(t, initImage, config);
    } else if config' == "" {
      ConfigRemoved(t, initImage, config);
    } else {
    }
  }

  lemma InitRemoved(t: Template, initImage: string, config: string)
    requires Proper(t)
    ensures Without(Without(DesiredVolumes(t, initImage, config), t.sysfs.name), t.configName) == t.volumes
  {
    RemovedFromPlain(t);
    if initImage != "" {
      if config == "" { RemovedFromInit(t); } else { RemovedFromConfigured(t, ConfigVolume(t, config)); }
    }
  }

  lemma ConfigRemoved(t: Template, initImage: string, config: string)
    requires Proper(t)
    ensures InitVolumes(t, DesiredVolumes(t, initImage, config), "") == t.volumes + [t.sysfs]
  {
    Members(t, ConfigVolume(t, config));
    if initImage == "" {
      RemovedFromPlain(t);
    } else if config == "" {
      RemovedFromInit(t);
    } else {
      RemovedFromConfigured(t, ConfigVolume(t, config));
    }
  }

  lemma ConfigShows(t: Template, initImage: string, config: string)
    requires Proper(t) && initImage != ""
    ensures CurrentConfig(t, DesiredVolumes(t, initImage, config)) == config
  {
    VolumesFollow(t, "", "", initImage, config);
    InitVolumesCurrent(t, t.volumes, config);
  }

  lemma {:induction false} BlanklessJoin(parts: seq<string>)
    requires forall p | p in parts :: Blankless(p)
    ensures Blankless(Join(parts, ","))
  {
    if |parts| == 1 {
      assert parts[0] in parts;
    } else if |parts| > 1 {
      assert parts[0] in parts;
      BlanklessJoin(parts[1..]);
    }
  }

  lemma BlanklessArgs(f: Flags, dp: QatSpec)
    requires BlanklessFlags(f) && BlanklessNames(dp)
    ensures forall a | a in PodArgs(f, dp) :: ' ' !in a
  {
    BlanklessJoin(dp.kernelVfDrivers);
    assert Blankless(Itoa(dp.logLevel));
    if dp.maxNumDevices > 0 { assert Blankless(Itoa(dp.maxNumDevices)); }
    forall a | a in PodArgs(f, dp)
      ensures Blankless(a)
    {
    }
  }

  /** Arguments that read the same are the same. */
  lemma ArgsDetermined(f: Flags, dp: QatSpec, dq: QatSpec)
    requires BlanklessFlags(f) && BlanklessNames(dp) && BlanklessNames(dq)
    requires Join(PodArgs(f, dp), " ") == Join(PodArgs(f, dq), " ")
    ensures PodArgs(f, dp) == PodArgs(f, dq)
  {
    BlanklessArgs(f, dp);
    BlanklessArgs(f, dq);
    SplitJoin(PodArgs(f, dp), ' ');
    SplitJoin(PodArgs(f, dq), ' ');
  }

  /** Whether a pass over the DaemonSet of `previous` leaves its init container alone. */
  predicate KeepsInit(previous: QatSpec, dp: QatSpec) {
    dp.initImage != "" && previous.initImage == dp.initImage && previous.provisioningConfig == dp.provisioningConfig
  }

  lemma InitFollows(t: Template, previous: QatSpec, drivers: seq<string>, dp: QatSpec)
    requires Proper(t)
    ensures var s := DesiredWith(t, previous, drivers).(image := dp.image);
            var d := DesiredWith(t, dp, if KeepsInit(previous, dp) then drivers else dp.kernelVfDrivers);
            InitUpdated(t, s, dp) == s.(initContainers := d.initContainers, volumes := d.volumes)
  {
    VolumesFollow(t, previous.initImage, previous.provisioningConfig, dp.initImage, dp.provisioningConfig);
    if previous.initImage != "" { ConfigShows(t, previous.initImage, previous.provisioningConfig); }
  }

  /** One pass turns the DaemonSet of another version into the one asked for, except that an
      init container whose image and configuration did not change keeps enabling the drivers
      it was made for. */
  lemma UpdateFollows(t: Template, previous: QatSpec, drivers: seq<string>, dp: QatSpec)
    requires Proper(t) && BlanklessNames(previous) && BlanklessNames(dp)
    ensures Updated(t, DesiredWith(t, previous, drivers), dp) ==
            DesiredWith(t, dp, if KeepsInit(previous, dp) then drivers else dp.kernelVfDrivers)
  {
    InitFollows(t, previous, drivers, dp);
    if Join(PodArgs(t.flags, previous), " ") == Join(PodArgs(t.flags, dp), " ") { ArgsDetermined(t.flags, previous, dp); }
  }

  /** The DaemonSet after creation for the first and reconciliation with each later version of
      the custom resource. */
  function Reconciled(t: Template, versions: seq<QatSpec>): PodSpec
    requires versions != []
  {
    if |versions| == 1 then Desired(t, versions[0])
    else Updated(t, Reconciled(t, versions[..|versions|-1]), versions[|versions|-1])
  }

  /** The drivers of the last version that made the init container anew. */
  function Enabled(versions: seq<QatSpec>): seq<string>
    requires versions != []
  {
    var n := |versions|;
    if n > 1 && KeepsInit(versions[n-2], versions[n-1]) then Enabled(versions[..n-1]) else versions[n-1].kernelVfDrivers
  }

  /** The DaemonSet after any history of the custom resource. */
  lemma {:induction false} ReconciledExact(t: Template, versions: seq<QatSpec>)
    requires Proper(t) && versions != [] && forall v | v in versions :: BlanklessNames(v)
    ensures Reconciled(t, versions) == DesiredWith(t, versions[|versions|-1], Enabled(versions))
  {
    var n := |versions|;
    assert versions[n-1] in versions;
    if n > 1 {
      assert versions[n-2] in versions;
      ReconciledExact(t, versions[..n-1]);
      UpdateFollows(t, versions[n-2], Enabled(versions[..n-1]), versions[n-1]);
    }
  }

  /** Only the last version matters exactly when there is no init container to keep, or the one
      kept enables the same PCI ids. */
  lemma OnlyLastVersionMatters(t: Template, versions: seq<QatSpec>)
    requires Proper(t) && versions != [] && forall v | v in versions :: BlanklessNames(v)
    ensures var last := versions[|versions|-1];
            Reconciled(t, versions) == Desired(t, last) <==>
            last.initImage == "" ||
            Join(PciIds(t, Enabled(versions)), " ") == Join(PciIds(t, last.kernelVfDrivers), " ")
  {
    ReconciledExact(t, versions);
    var last := versions[|versions|-1];
    var a, b := InitFor(t, last, Enabled(versions)), InitFor(t, last, last.kernelVfDrivers);
    assert a.env[0] == (t.pciIdsVar, Literal(Join(PciIds(t, Enabled(versions)), " ")));
    assert b.env[0] == (t.pciIdsVar, Literal(Join(PciIds(t, last.kernelVfDrivers), " ")));
  }

  /** Changing the drivers alone leaves an init container that enables the old ones. */
  lemma DriversNotPropagated(dp: QatSpec)
    requires dp.initImage != "" && dp.kernelVfDrivers == ["4xxxvf"] && BlanklessNames(dp)
    ensures var dq := dp.(kernelVfDrivers := ["c6xxvf"]);
            Reconciled(QAT, [dp, dq]) != Desired(QAT, dq)
  {
    var dq := dp.(kernelVfDrivers := ["c6xxvf"]);
    QatIsProper();
    OnlyLastVersionMatters(QAT, [dp, dq]);
    assert [dp, dq][..1] == [dp];
    PciIdsDiffer();
  }

  lemma PciIdsDiffer()
    ensures Join(PciIds(QAT, ["4xxxvf"]), " ") != Join(PciIds(QAT, ["c6xxvf"]), " ")
  {
    assert |PciIds(QAT, ["4xxxvf"])[0]| == 14 && |PciIds(QAT, ["c6xxvf"])[0]| == 4;
  }

  // ---------------------------------------------------------- what it amounts to

  predicate DistinctFlags(f: Flags) {
    && f.verbosity != f.dpdkDriver && f.verbosity != f.kernelVfDrivers && f.verbosity != f.maxNumDevices
    && f.verbosity != f.allocationPolicy && f.dpdkDriver != f.kernelVfDrivers && f.dpdkDriver != f.maxNumDevices
    && f.dpdkDriver != f.allocationPolicy && f.kernelVfDrivers != f.maxNumDevices
    && f.kernelVfDrivers != f.allocationPolicy && f.maxNumDevices != f.allocationPolicy
  }

  lemma FlagsAreDistinct()
    ensures DistinctFlags(QAT_FLAGS)
  {
    assert |"-v"| == 2 && |"-dpdk-driver"| == 12 && |"-max-num-devices"| == 16;
    assert |"-kernel-vf-drivers"| == 18 && |"-allocation-policy"| == 18;
    assert "-kernel-vf-drivers"[1] == 'k' && "-allocation-policy"[1] == 'a';
  }

  lemma FourFlags(a: string, x: string, b: string, y: string, c: string, z: string, d: string, w: string,
                  rest: seq<string>, flag: string)
    requires FlagValue(rest, flag).None? && a != b && a != c && a != d && b != c && b != d && c != d
    ensures FlagValue([a, x, b, y, c, z, d, w] + rest, flag) ==
            if flag == a then Some(x) else if flag == b then Some(y) else if flag == c then Some(z)
            else if flag == d then Some(w) else None
  {
    assert [a, x, b, y, c, z, d, w] + rest == [a, x] + ([b, y] + ([c, z] + ([d, w] + rest)));
    FlagFirst(d, w, rest, flag);
    FlagFirst(c, z, [d, w] + rest, flag);
    FlagFirst(b, y, [c, z] + ([d, w] + rest), flag);
    FlagFirst(a, x, [b, y] + ([c, z] + ([d, w] + rest)), flag);
  }

  lemma FifthFlag(a: string, x: string, b: string, y: string, c: string, z: string, d: string, w: string,
                  rest: seq<string>, flag: string)
    requires FlagValue(rest, flag).Some?
    ensures FlagValue([a, x, b, y, c, z, d, w] + rest, flag) == FlagValue(rest, flag)
  {
    assert [a, x, b, y, c, z, d, w] + rest == [a, x] + ([b, y] + ([c, z] + ([d, w] + rest)));
    FlagFirst(d, w, rest, flag);
    FlagFirst(c, z, [d, w] + rest, flag);
    FlagFirst(b, y, [c, z] + ([d, w] + rest), flag);
    FlagFirst(a, x, [b, y] + ([c, z] + ([d, w] + rest)), flag);
  }

  /** What the custom resource says about a flag; where it says nothing the default counts, and there
      is none for the policy. */
  function Wanted(f: Flags, dp: QatSpec, flag: string): Option<string> {
    if flag == f.verbosity then Some(Itoa(dp.logLevel))
    else if flag == f.dpdkDriver then Some(if dp.dpdkDriver == "" then f.defaultDpdkDriver else dp.dpdkDriver)
    else if flag == f.kernelVfDrivers then
      Some(if dp.kernelVfDrivers == [] then f.defaultKernelVfDrivers else Join(dp.kernelVfDrivers, ","))
    else if flag == f.maxNumDevices then
      Some(if dp.maxNumDevices <= 0 then f.defaultMaxNumDevices else Itoa(dp.maxNumDevices))
    else if flag == f.allocationPolicy && dp.preferredAllocationPolicy != "" then Some(dp.preferredAllocationPolicy)
    else None
  }

  /** The plugin finds on its command line what the custom resource says about every flag. */
  lemma ArgsSay(f: Flags, dp: QatSpec, flag: string)
    requires DistinctFlags(f)
    ensures FlagValue(PodArgs(f, dp), flag) == Wanted(f, dp, flag)
  {
    var rest := if dp.preferredAllocationPolicy != "" then [f.allocationPolicy, dp.preferredAllocationPolicy] else [];
    var driver := if dp.dpdkDriver != "" then dp.dpdkDriver else f.defaultDpdkDriver;
    var drivers := if |dp.kernelVfDrivers| > 0 then Join(dp.kernelVfDrivers, ",") else f.defaultKernelVfDrivers;
    var number := if dp.maxNumDevices > 0 then Itoa(dp.maxNumDevices) else f.defaultMaxNumDevices;
    if dp.preferredAllocationPolicy != "" {
      assert rest == [f.allocationPolicy, dp.preferredAllocationPolicy] + [];
      FlagFirst(f.allocationPolicy, dp.preferredAllocationPolicy, [], flag);
    }
    if FlagValue(rest, flag).Some? {
      FifthFlag(f.verbosity, Itoa(dp.logLevel), f.dpdkDriver, driver, f.kernelVfDrivers, drivers,
                f.maxNumDevices, number, rest, flag);
    } else {
      FourFlags(f.verbosity, Itoa(dp.logLevel), f.dpdkDriver, driver, f.kernelVfDrivers, drivers,
                f.maxNumDevices, number, rest, flag);
    }
  }

  /** The flags by their names. */
  lemma QatArgsSay(dp: QatSpec)
    ensures var args := PodArgs(QAT_FLAGS, dp);
            && FlagValue(args, "-v") == Some(Itoa(dp.logLevel))
            && FlagValue(args, "-dpdk-driver") == Some(if dp.dpdkDriver == "" then "vfio-pci" else dp.dpdkDriver)
            && FlagValue(args, "-max-num-devices") ==
               Some(if dp.maxNumDevices <= 0 then "32" else Itoa(dp.maxNumDevices))
            && FlagValue(args, "-allocation-policy") ==
               if dp.preferredAllocationPolicy == "" then None else Some(dp.preferredAllocationPolicy)
  {
    FlagsAreDistinct();
    ArgsSay(QAT_FLAGS, dp, QAT_FLAGS.verbosity);
    ArgsSay(QAT_FLAGS, dp, QAT_FLAGS.dpdkDriver);
    ArgsSay(QAT_FLAGS, dp, QAT_FLAGS.maxNumDevices);
    ArgsSay(QAT_FLAGS, dp, QAT_FLAGS.allocationPolicy);
  }

  /** The values read back: numbers as they were, and the drivers one by one. */
  lemma ValuesReadBack(dp: QatSpec)
    ensures Atoi(Itoa(dp.logLevel)) == dp.logLevel
    ensures dp.maxNumDevices > 0 ==> Atoi(Itoa(dp.maxNumDevices)) == dp.maxNumDevices
    ensures dp.kernelVfDrivers != [] && (forall d | d in dp.kernelVfDrivers :: ',' !in d) ==>
              Split(Join(dp.kernelVfDrivers, ","), ',') == dp.kernelVfDrivers
  {
    AtoiItoa(dp.logLevel);
    if dp.maxNumDevices > 0 { AtoiItoa(dp.maxNumDevices); }
    if dp.kernelVfDrivers != [] && forall d | d in dp.kernelVfDrivers :: ',' !in d {
      SplitJoin(dp.kernelVfDrivers, ',');
    }
  }

  /** After any history the DaemonSet is what the last version of the custom resource says, field by
      field, except for the drivers the init container enables. */
  lemma ReconciledSays(t: Template, versions: seq<QatSpec>, flag: string)
    requires Proper(t) && DistinctFlags(t.flags) && versions != [] && forall v | v in versions :: BlanklessNames(v)
    ensures var s, dp := Reconciled(t, versions), versions[|versions|-1];
            && s.image == dp.image && s.tolerations == dp.tolerations
            && FlagValue(s.args, flag) == Wanted(t.flags, dp, flag)
            && s.nodeSelector == (if dp.nodeSelector == map[] then t.nodeSelector else dp.nodeSelector)
            && (s.initContainers.Some? <==> dp.initImage != "")
            && (dp.initImage == "" ==> s.volumes == t.volumes)
            && (dp.initImage != "" ==>
                  && |s.initContainers.value| == 1 && s.initContainers.value[0].image == dp.initImage
                  && s.volumes == t.volumes + [t.sysfs] +
                                  (if dp.provisioningConfig == "" then []
                                   else [Volume(t.configName, ConfigMap(dp.provisioningConfig, t.configMode))]))
  {
    ReconciledExact(t, versions);
    ArgsSay(t.flags, versions[|versions|-1], flag);
    assert t.volumes + [t.sysfs] + [] == t.volumes + [t.sysfs];
  }

  /** The init container is told the PCI ids of the drivers it enables, in their order. */
  lemma InitSays(t: Template, dp: QatSpec, drivers: seq<string>)
    requires forall d | d in drivers :: d in t.pciIds
    ensures var env := InitFor(t, dp, drivers).env;
            && env != [] && env[0].0 == t.pciIdsVar && env[0].1.Literal?
            && exists ids: seq<string> ::
                 && |ids| == |drivers| && env[0].1.value == Join(ids, " ")
                 && forall i | 0 <= i < |drivers| :: drivers[i] in t.pciIds && ids[i] == t.pciIds[drivers[i]]
  {
    var ids := PciIds(t, drivers);
    assert forall i | 0 <= i < |drivers| :: drivers[i] in drivers;
    assert InitFor(t, dp, drivers).env[0] == (t.pciIdsVar, Literal(Join(ids, " ")));
  }
}
