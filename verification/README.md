# Verified models of the Intel device plugins for Kubernetes

Dafny models of the algorithmic parts of the Intel device plugins, their FPGA admission
webhook and OCI hook, their label printers and their operator, with machine-checked proofs of
what these parts promise. `dafny verify dfyconfig.toml` checks everything.

| area | modules | main results |
|---|---|---|
| shared | `Common`, `Sorting`, `Text` | sorting is unique, strings with a common prefix are contiguous when sorted, split and join undo each other, decimal numbers read back |
| FPGA webhook and hook | `Containers`, `PatcherState`, `Registrations`, `PatchOps`, `PatchMeaning`, `Webhook`, `PodRequests`, `CriHook`, `Programming`, `HookRuns` | what is registered and reference counts over every history, the meaning of the generated JSON patch, idempotence with its exact condition, the round trip from request to the hook's list, and exactly which requests end up with all their ports programmed |
| device plugin framework | `DeviceTrees`, `PluginServer`, `Pipeline`, `Lifetimes` | every interleaving of scanner, manager and servers delivers every update once and in order, and settles on the last scan |
| preferred allocation | `GpuPolicy`, `QatPolicy` | spread, fairness, optimality and packing of the allocation policies |
| labels | `LabelSplit`, `XeLinks`, `Labeler`, `NodeLabels` | labels decode back to the data they were printed from, have values Kubernetes accepts, and are as few as possible |
| naming | `DevTypes`, `IdNumbers` | meaning, length, injectivity and legality of AFU device types |
| topology | `Topology`, `HintSources` | where NUMA hints come from, termination, soundness and independence of map order |
| operator | `Deployments`, `DlbController`, `QatController` | reconciliation reaches a fixpoint in one pass and is level-triggered, with the exact exception |

Conventions:

- A Go `for range` over a map becomes a loop over an explicit order; `Enumerates(order, keys)`
  says that the order lists every key once. Results that do not mention the order hold for all.
  In `Topology` the order may also differ at every visit of a map (`Listing`, `Visit`).
- Code that updates state in place is a class or a method with loops, proved equal to a
  specification function; the lemmas are about these functions.
- Errors are `Result` or `Option` values. The texts of error messages are not compared.
- Quantities are signed 64-bit numbers whose additions wrap around (`Int64`, `Plus64`). Limits and
  requests are compared as they are written, as Go compares the structs: 1k is not 1000.
- A patch is a list of operations (`Op`) with an interpreter that follows sections 4.1 and 4.2
  of RFC 6902; resource names in paths are escaped as in section 3 of RFC 6901.

## What the proofs show about the code

- Re-registering a name that is registered already leaks one reference of its old mapping for
  good: the count is exactly the number of names plus the number of such re-registrations
  (`PatcherState.IdentityCountExact`), so a mapping can stay accepted although nothing stands for
  it any more (`PatcherState.RemovedButAccepted`).
- A function whose ids make no device type is refused, and yet replaces the stored function of a name
  that stays registered (`Registrations.RefusedButStored`), so that the devices of this name get its
  ids (`PodRequests.RegionDevices`).
- A device type that is removed before its server has come up leaves a server behind that nobody
  stops: kubelet is given its devices although no scan finds them any more
  (`Lifetimes.StaleServer`). Servers stopped later always end (`Lifetimes.RemovedIsClosed`).
- The webhook is idempotent exactly when no actual resource name is itself registered, or some
  but not all are and these share one known mode (`Webhook.Idempotent`, `Webhook.NotIdempotent`).
  Registering a region under the name of another region's devices breaks it
  (`Webhook.ShadowedNotIdempotent`).
- For a container that mixes registered and actual names the verdict depends on the order of the
  Go map unless it asks for no actual resource or for nothing the loop can fail on
  (`Webhook.SameInEveryOrder`, `Webhook.OrderMatters`); a name nobody registered next to an actual
  one is enough (`Webhook.UnknownOrderMatters`).
- Sums of quantities are exact if and only if they fit 64 bits (`PatchMeaning.TotalsFit`).
- Two devices of one interface always get the same port from the hook
  (`CriHook.PortsDistinctExactly`, `CriHook.SharedPort`), and a successful hook may leave ports
  unprogrammed, because it ends at the first port that has its function already
  (`Programming.EarlyEnd`). Whatever order Go chooses, all ports end up programmed if and only if
  pairs of one interface have one AFU and either every port has its AFU before, or none has and the
  interfaces are all different or all the same (`HookRuns.HookProgramsExactly`). Two devices of one
  interface and one of another are not safe, even on fresh ports
  (`HookRuns.ThirdPortUnprogrammed`).
- A link and its mirror print alike unless they join two different tiles of one device
  (`XeLinks.MirrorPrintsAlike`).
- AFU device types of ids of different lengths can collide (`DevTypes.DevTypeCollision`), and ids
  the custom resource allows are rejected when their digits do not pair up
  (`DevTypes.DevTypeFits`).
- Kubernetes refuses the device type of some ids that the custom resource allows: those with a
  multiple of three bytes whose last six bits are written `-` or `_` (`IdNumbers.DevTypeLegal`,
  `IdNumbers.DevTypeIllegal`).
- A negative NUMA id makes `GetTopologyInfo` return no topology and no error, because a nil error
  is wrapped; an error comes only from a device that does not resolve or an id that is no number
  (`Topology.GetTopologyInfo`, `Topology.InfoOfNegative`).
- A change of the QAT kernel drivers alone does not reach the init container
  (`QatController.DriversNotPropagated`); `QatController.OnlyLastVersionMatters` says exactly
  when reconciliation ends in what the custom resource asks for. Of the drivers it allows, 6xxxvf
  has no PCI id, so the init container enables nothing for it (`QatController.DriversWithIds`).
- The QAT balanced policy cuts off fields after the third: its order is a permutation of the
  available ids exactly when all are PCI addresses (`QatPolicy.BalancedOrder`), and it can hand out
  ids that are not available (`QatPolicy.ShortIdHandedOut`).
- The deprecated label with the names of the cards lists all of them exactly when the joined names
  fit one label value (`NodeLabels.LabelsReadBack`).

## Model

| member | source | states |
|---|---|---|
| Containers.GetRequestedResources | pkg/internal/containers/containers.go:26-65 | succeeds exactly when every request of the namespace has the same limit, written alike, and every limit is a whole number with the same request; then returns the quantities of exactly these names |
| Containers.CheckRequests | pkg/internal/containers/containers.go:29-40 | the first loop accepts exactly when every request of the namespace has the same limit |
| PatcherState.UnescapeEscape | pkg/fpgacontroller/patcher/patcher.go:69-71 | escaping a resource name for a JSON pointer and evaluating the token gives the name back, for every string |
| PatcherState.Patcher.constructor | pkg/fpgacontroller/patcher/patcher.go:91-99 | a new patcher is empty |
| PatcherState.Patcher.RegisterAf | pkg/fpgacontroller/patcher/patcher.go:115-139 | the new state is the specified step also when the device type cannot be made, in which case only the afMap entry is written and an error returned |
| PatcherState.Patcher.RegisterRegion | pkg/fpgacontroller/patcher/patcher.go:141-149 | the new state is the specified step |
| PatcherState.Patcher.UnregisterAf | pkg/fpgacontroller/patcher/patcher.go:151-161 | the new state is the specified step, which removes mode, mapping and function (`Registrations.RegisteredExactly`) |
| PatcherState.Patcher.UnregisterRegion | pkg/fpgacontroller/patcher/patcher.go:163-172 | the new state is the specified step |
| PatcherState.RunConsistent | pkg/fpgacontroller/patcher/patcher.go:101-172 | after every history the mode and resource maps have the same keys, region-mode names have an afMap entry and mappings are escaped names of the namespace |
| PatcherState.CountStep | pkg/fpgacontroller/patcher/patcher.go:101-172 | no event changes the difference between a count and its number of names, except that overwriting a name with this mapping adds one |
| PatcherState.IdentityCountExact | pkg/fpgacontroller/patcher/patcher.go:101-172 | after every history the count of a mapping is the number of names for it plus the number of times such a name was registered again |
| PatcherState.FreshAddsCountExact | pkg/fpgacontroller/patcher/patcher.go:101-172 | when every add is for an unregistered name, counts equal numbers of names, and an identity is accepted exactly while some name stands for it |
| PatcherState.AcceptedExactly | pkg/fpgacontroller/patcher/patcher.go:101-172 | after every history an identity is accepted exactly when some name stands for it or a reference has leaked |
| PatcherState.RemovedButAccepted | pkg/fpgacontroller/patcher/patcher.go:141-172 | a region registered twice and removed: nothing stands for its mapping, and the mapping stays accepted |
| PatcherState.MappingsAreIdentities | pkg/fpgacontroller/patcher/patcher.go:85-88 | after every history every actual resource some name stands for is accepted |
| Registrations.RegisteredExactly | pkg/fpgacontroller/patcher/patcher.go:101-172 | after every history a name is registered exactly when an event that registers it was not followed by another one for it or by its removal; it has the mode and the mapping that event says |
| Registrations.OnlyFullNames | pkg/fpgacontroller/patcher/patcher.go:101-172 | nothing but names of the FPGA namespace is ever registered |
| Registrations.FunctionExactly | pkg/fpgacontroller/patcher/patcher.go:115-161 | the function stored for a name is that of the last event about one, refused or not, unless it was removed since |
| Registrations.FunctionStands | pkg/fpgacontroller/patcher/patcher.go:115-139 | a name registered by a function has this function exactly when the last such event carries the same one |
| Registrations.RefusedButStored | pkg/fpgacontroller/patcher/patcher.go:119-127 | a refused function replaces the stored one of a name that stays registered |
| PatchOps.SanitizeEnv | pkg/fpgacontroller/patcher/patcher.go:174-194 | compacts the slice in place: the prefix is the environment without FPGA_REGION and FPGA_AFU variables, the rest of the array is untouched |
| PatchOps.SanitizedContents | pkg/fpgacontroller/patcher/patcher.go:174-194 | exactly the variables with other names remain |
| PatchOps.AddVars | pkg/fpgacontroller/patcher/patcher.go:235-243 | numbers the next devices of a pair consecutively; none for a quantity that is not positive |
| PatchOps.GetNoopsOrError | pkg/fpgacontroller/patcher/patcher.go:196-204 | an unregistered name is left alone exactly when it is an actual resource, otherwise it is an error |
| PatchOps.ScanContinues | pkg/fpgacontroller/patcher/patcher.go:223-257 | the loop reaches its end exactly when all requested names are registered in one known mode |
| PatchOps.ScanStops | pkg/fpgacontroller/patcher/patcher.go:223-257 | an early exit decides the result whatever names follow |
| PatchOps.ResolveRequests | pkg/fpgacontroller/patcher/patcher.go:223-265 | exits early as the scan specifies; otherwise sums, variables and operations are those of all requested names |
| PatchOps.GetPatchOps | pkg/fpgacontroller/patcher/patcher.go:206-300 | for every container and map order: an error, no operations or the compiled operations, as specified |
| PatchOps.ApplyConcat | pkg/fpgacontroller/patcher/patcher.go:262-299 | applying two lists of operations one after the other is applying their concatenation, failures included |
| PatchMeaning.ApplyRemoves | pkg/fpgacontroller/patcher/patcher.go:262-264 | the remove operations find their targets and remove exactly the requested names from limits and requests |
| PatchMeaning.ApplyAdds | pkg/fpgacontroller/patcher/patcher.go:267-273 | the add operations set exactly the sums, under the unescaped names, in limits and requests |
| PatchMeaning.AddAllResolves | pkg/fpgacontroller/patcher/patcher.go:267-273 | the order in which sums are added does not matter: the result is the other resources plus the sums |
| PatchMeaning.PatchApplies | pkg/fpgacontroller/patcher/patcher.go:206-300 | for names registered in one known mode the operations are generated, apply without failure and give the container in which every name is replaced by its mapping with summed quantities, other resources and variables kept |
| PatchMeaning.PatchedResources | pkg/fpgacontroller/patcher/patcher.go:259-274 | names outside the FPGA namespace keep their quantities; of the others exactly those remain that a requested name is registered for, with the 64-bit sum of what was asked for, in limits and requests alike |
| PatchMeaning.TotalsIgnoreOrder | pkg/fpgacontroller/patcher/patcher.go:223-273 | every order of the Go map gives the same resources |
| PatchMeaning.TotalsConserve | pkg/fpgacontroller/patcher/patcher.go:259-273 | the sums over actual resources add up to the sum over requested names |
| PatchMeaning.TotalsFit | pkg/fpgacontroller/patcher/patcher.go:260 | a 64-bit sum is the exact sum if and only if that fits 64 bits |
| Webhook.ApplyPodIsLocal | pkg/fpgacontroller/patcher/patchermanager.go:113-120 | operations generated for one container change that container of the pod only |
| Webhook.Mutate | pkg/fpgacontroller/patcher/patchermanager.go:111-126 | an accepted pod's patch applies and admits every container; a pod is refused only for a container with disagreeing quantities or on which the loop can fail |
| Webhook.ReachableAccepting | pkg/fpgacontroller/patcher/patcher.go:85-88 | every reachable state accepts the resources its names stand for |
| Webhook.PatchedAsks | pkg/fpgacontroller/patcher/patcher.go:206-273 | a patched container has agreeing limits and requests and asks for exactly the actual resources |
| Webhook.ScanMixed | pkg/fpgacontroller/patcher/patcher.go:223-227 | with compatible registered names and accepted other ones the loop ends with no operations as soon as one name is not registered, in every order |
| Webhook.Idempotent | pkg/fpgacontroller/patcher/patcher.go:85-88 | patching a patched container again gives no operations, in every order, when its actual resources are stable |
| Webhook.NotIdempotent | pkg/fpgacontroller/patcher/patcher.go:223-227 | when they are not stable, some order of the Go map gives operations or an error |
| Webhook.ShadowedNotIdempotent | pkg/fpgacontroller/patcher/patcher.go:223-227 | a reachable family of failures: after registering a region under the name of another region's devices, patching a container twice changes it or fails |
| Webhook.SameInEveryOrder | pkg/fpgacontroller/patcher/patcher.go:223-257 | when a request has no actual resource, or nothing the loop could fail on, the verdict is the same in every order, and which one it is |
| Webhook.OrderMatters | pkg/fpgacontroller/patcher/patcher.go:223-257 | in all other cases one order leaves the container alone and another refuses it |
| Webhook.UnknownOrderMatters | pkg/fpgacontroller/patcher/patcher.go:223-257 | a reachable family: after registering one region, a container that asks for its actual resource and for an unknown name is left alone in one order and refused in another |
| PodRequests.RegisteredIsPatched | pkg/fpgacontroller/patcher/patcher.go:141-300 | after any history, a container that asks for a registered name gets as many of the resource the name's last event stands for, and nothing else |
| PodRequests.RegionDevices | pkg/fpgacontroller/patcher/patcher.go:234-243 | in region mode every device gets the ids of the name's last function event |
| PodRequests.UnregisteredIsRefused | pkg/fpgacontroller/patcher/patcher.go:195-227 | a name that is neither registered nor an accepted resource is refused |
| CriHook.CanonizeLowerHex | pkg/fpga/fpga_linux.go:40-42 | lowercase hexadecimal ids are canonical already |
| CriHook.CanonizeUuid | pkg/fpga/fpga_linux.go:40-42 | for digits of either case with dashes, and white space around them, the canonical id is the same digits in lower case |
| CriHook.ReadEnv | cmd/fpga_crihook/main.go:138-151 | the two maps hold the canonical values of the numbered variables, later entries winning |
| CriHook.ParseExactly | cmd/fpga_crihook/main.go:142-151 | a number is in one of the two maps exactly when an entry of that prefix has it, with the canonical value of the last such entry |
| CriHook.LookForPort | cmd/fpga_crihook/main.go:172-202 | finds a port exactly when some port has the interface and every port before it opens with another one; it is the first such port |
| CriHook.FindPortExactly | cmd/fpga_crihook/main.go:172-202 | the same for the specification the other results speak of |
| CriHook.FoundPortFits | cmd/fpga_crihook/main.go:172-202 | a port found is a listed port device whose interface id is the wanted one |
| CriHook.GetFPGAParams | cmd/fpga_crihook/main.go:137-210 | succeeds exactly when there is a region variable, every region has its AFU variable and a port; then returns one entry per number |
| CriHook.MergedKeepsReserved | pkg/fpgacontroller/patcher/patcher.go:276-279 | variables of the pod never overwrite or add to the generated ones |
| CriHook.PatchedReserved | pkg/fpgacontroller/patcher/patcher.go:275-297 | the reserved variables of a patched container are exactly the generated ones |
| CriHook.PatchedKeepsOwn | pkg/fpgacontroller/patcher/patcher.go:276-298 | the other variables of a patched container are exactly its own, each with the value of its last entry, and no name is there twice; without numbered devices the list is unchanged |
| CriHook.HookReadsPairs | cmd/fpga_crihook/main.go:137-151 | from the environment the webhook wrote the hook reads exactly the numbered pairs |
| CriHook.HookRoundTrip | cmd/fpga_crihook/main.go:137-210 | whatever the hook returns is the multiset of generated pairs, each on the first port of its own interface, in every map order |
| CriHook.PairsCount | pkg/fpgacontroller/patcher/patcher.go:235-243 | a pair is generated as often as devices of names registered with it are requested |
| CriHook.WebhookToHook | cmd/fpga_crihook/main.go:137-210 | from request to hook: the returned list has every pair as often as the container asked for it |
| CriHook.PortDeterminesRegion | cmd/fpga_crihook/main.go:172-202 | with distinct device names, different interfaces get different ports and one interface always the same |
| CriHook.PortsDistinctExactly | cmd/fpga_crihook/main.go:163-207 | the returned entries have ports of their own if and only if the requested interfaces are all different |
| CriHook.EnvironmentComplete | cmd/fpga_crihook/main.go:137-210 | for all pairs of lowercase ids with ports, the environment the webhook writes is one the hook accepts, and by number it lists the pairs as requested |
| CriHook.SharedPort | cmd/fpga_crihook/main.go:172-202 | a pair requested twice gets two entries with one port |
| Programming.Process | cmd/fpga_crihook/main.go:247-275 | the loop over the parameters gives the specified outcome and port states, all error exits included |
| Programming.SucceedsExactly | cmd/fpga_crihook/main.go:247-275 | the hook succeeds exactly when every entry up to the first port that has its function already can be opened, found and loaded |
| Programming.ProgrammedExactly | cmd/fpga_crihook/main.go:247-275 | for one order of the list, success leaves every port with its function if and only if entries for one port agree and none that still has to be programmed comes after one that has not |
| Programming.OwnPortsAreProgrammed | cmd/fpga_crihook/main.go:247-275 | with ports of their own and none programmed before, success means that all are programmed |
| Programming.EarlyEnd | cmd/fpga_crihook/main.go:253-256 | after a port that has its function already the others are not programmed, without an error |
| Programming.EveryOrderProgrammed | cmd/fpga_crihook/main.go:247-275 | if entries for one port agree and all ports have their functions, or none has and the entries are for different ports or all for one, then success in any order leaves every port with its function |
| Programming.SomeOrderUnprogrammed | cmd/fpga_crihook/main.go:247-275 | otherwise some order, which succeeds when every single step does, leaves a port without its function |
| HookRuns.HookProgramsAll | cmd/fpga_crihook/main.go:163-275 | for a safe request, stated on the requested pairs and the ports before, success in any order of the Go map leaves every port with its function |
| HookRuns.HookProgramsExactly | cmd/fpga_crihook/main.go:163-275 | when every single step works, the hook programs all ports in every order of the Go map if and only if the request is safe |
| HookRuns.ThirdPortUnprogrammed | cmd/fpga_crihook/main.go:172-256 | two devices of one interface and one of another on fresh ports: the hook succeeds and leaves the third port unprogrammed |
| DeviceTrees.DiffExact | pkg/deviceplugin/manager.go:49-74 | the difference of two trees is empty exactly when they are equal, its parts are disjoint and hold nothing unchanged, and carrying it out turns one into the other |
| DeviceTrees.Notifier.constructor | pkg/deviceplugin/manager.go:43-47 | a notifier starts from the empty tree |
| DeviceTrees.Notifier.Notify | pkg/deviceplugin/manager.go:49-74 | keeps the new tree and sends the difference exactly when there is one |
| DeviceTrees.Manager.HandleUpdate | pkg/deviceplugin/manager.go:114-164 | makes the calls of a plan for the update in some map order; the server map follows the key sets, keeps other servers and gets new ones for added types; no two device types ever share a server |
| DeviceTrees.Manager.CreateServers | pkg/deviceplugin/manager.go:117-151 | a creation and a first update per added type, with consecutively numbered new servers; the others keep theirs |
| DeviceTrees.Manager.UpdateServers | pkg/deviceplugin/manager.go:153-155 | each changed type's server is given the new devices |
| DeviceTrees.Manager.StopServers | pkg/deviceplugin/manager.go:157-163 | each removed type's server is stopped and forgotten |
| DeviceTrees.PlanSettles | pkg/deviceplugin/manager.go:114-164 | in every map order each call finds the server it needs and the servers end up with the new tree |
| PluginServer.DevicePluginServer.constructor | pkg/deviceplugin/server.go:80-96 | a new server has no devices and an empty queue |
| PluginServer.DevicePluginServer.Update | pkg/deviceplugin/server.go:240-242 | appends to the open, non-full queue |
| PluginServer.DevicePluginServer.StopServer | pkg/deviceplugin/server.go:227-237 | closes the queue; before Serve it fails and leaves it open |
| PluginServer.DevicePluginServer.SendDevices | pkg/deviceplugin/server.go:109-127 | sends a list with exactly the current devices, each with its state and topology |
| PluginServer.DevicePluginServer.StartWatching | pkg/deviceplugin/server.go:129-134 | the stream starts with the current devices |
| PluginServer.DevicePluginServer.WatchOne | pkg/deviceplugin/server.go:136-140 | takes the oldest update, makes it current and sends it |
| PluginServer.StepsFaithful | pkg/deviceplugin/server.go:109-143 | every step keeps: lists sent and queued are the initial one and then the updates, in order, none lost or repeated |
| PluginServer.DrainedIsCurrent | pkg/deviceplugin/server.go:129-143 | a watched server with an empty queue has sent the list it was given last |
| Pipeline.StepKeeps | pkg/deviceplugin/manager.go:49-164 | every step of scanner, manager, server and kubelet keeps the invariant |
| Pipeline.RunKeeps | pkg/deviceplugin/manager.go:49-164 | the invariant holds after every interleaving |
| Pipeline.NothingLost | pkg/deviceplugin/server.go:109-143 | in every run each server's lists are its initial list and its updates in order, up to those still queued |
| Pipeline.CallsAreSafe | pkg/deviceplugin/manager.go:114-164 | in every run the manager's next call never meets a missing or closed server and never replaces a live one |
| Pipeline.ServerMapFollowsTree | pkg/deviceplugin/manager.go:114-164 | when an update has been handled the server map has the keys of the notifier's tree |
| Pipeline.ScannedIsLastScan | pkg/deviceplugin/manager.go:49-74 | the notifier takes in every scan |
| Pipeline.ScanNotifies | pkg/deviceplugin/manager.go:49-74 | a scan has exactly the message on its way that the notifier returns for the tree of the scan before |
| Lifetimes.ServingExactly | pkg/deviceplugin/server.go:258-280 | a server has its gRPC server exactly once that has come up |
| Lifetimes.LiveExactly | pkg/deviceplugin/manager.go:139-163 | a server is in the manager's map from its creation until it is stopped |
| Lifetimes.ClosedExactly | pkg/deviceplugin/server.go:227-237 | the queue of a server is closed exactly when it was stopped after its gRPC server had come up |
| Lifetimes.RemovedIsClosed | pkg/deviceplugin/manager.go:157-163 | a server that is not in the map was stopped, and has ended unless that was before its gRPC server came up |
| Lifetimes.StaleServer | pkg/deviceplugin/server.go:227-230 | a run after which a removed type is still served |
| Pipeline.KubeletSeesLastScan | pkg/deviceplugin/manager.go:96-164 | in every run, when nothing is on its way, what kubelet sees is exactly the tree of the last scan among the steps |
| Pipeline.StepDecreases | pkg/deviceplugin/manager.go:96-164 | every step but a scan lowers a weight |
| Pipeline.Progress | pkg/deviceplugin/manager.go:96-164 | while something is on its way some step other than a scan is possible: no deadlock, full queues included |
| Pipeline.NoEndlessRun | pkg/deviceplugin/manager.go:96-164 | without scans a run is no longer than the weight it starts with, whatever the interleaving |
| Pipeline.EventuallyCurrent | pkg/deviceplugin/manager.go:96-164 | every run can be completed without further scans, and then kubelet sees the tree of its last scan |
| GpuPolicy.NonePolicy | cmd/gpu_plugin/allocationpolicy.go:29-79 | returns n distinct available ids on min(n, number of cards) cards |
| GpuPolicy.OnePerCard | cmd/gpu_plugin/allocationpolicy.go:39-51 | the first loop takes at most one id per card, and stops short of n only when every card is used |
| GpuPolicy.FillUp | cmd/gpu_plugin/allocationpolicy.go:55-66 | the second loop fills up to n ids and keeps every card covered |
| GpuPolicy.NoneCoversMost | cmd/gpu_plugin/allocationpolicy.go:29-79 | no choice of n ids covers more cards |
| GpuPolicy.PackedContents | cmd/gpu_plugin/allocationpolicy.go:141-151 | the packed choice has as many different available ids as asked for |
| GpuPolicy.CardOfId | cmd/gpu_plugin/allocationpolicy.go:40 | the card of an id is the text before its first dash |
| GpuPolicy.PackedOnePartial | cmd/gpu_plugin/allocationpolicy.go:141-151 | at most one card is partially taken |
| GpuPolicy.PartialIsAtCut | cmd/gpu_plugin/allocationpolicy.go:141-151 | a partially taken card is the one of the first id not taken |
| GpuPolicy.FullestIsMax | cmd/gpu_plugin/allocationpolicy.go:111-121 | the scan finds a card with the most ids left |
| GpuPolicy.FindFullest | cmd/gpu_plugin/allocationpolicy.go:111-121 | the loop finds that card, the first of its kind in sorted order |
| GpuPolicy.GroupByCard | cmd/gpu_plugin/allocationpolicy.go:85-101 | files all ids by card, sorted, with their numbers |
| GpuPolicy.BalancedPolicy | cmd/gpu_plugin/allocationpolicy.go:82-138 | the loops return the ids of the specified greedy choice |
| GpuPolicy.HandedContents | cmd/gpu_plugin/allocationpolicy.go:110-133 | greedy rounds hand out distinct ids, and what is left is all the others |
| GpuPolicy.GreedyKeepsLevel | cmd/gpu_plugin/allocationpolicy.go:110-133 | greedy rounds leave every card taken from within one of the fullest |
| GpuPolicy.BalancedIgnoresOrder | cmd/gpu_plugin/allocationpolicy.go:82-138 | the result does not depend on the order of the available ids |
| GpuPolicy.BalancedIsFair | cmd/gpu_plugin/allocationpolicy.go:82-138 | the ids are distinct, available and as many as asked for, and every card taken from is left within one of the fullest card |
| GpuPolicy.LevelIsOptimal | cmd/gpu_plugin/allocationpolicy.go:82-138 | any level choice has the smallest possible largest leftover |
| GpuPolicy.BalancedIsOptimal | cmd/gpu_plugin/allocationpolicy.go:82-138 | no choice of n ids has a smaller largest leftover |
| QatPolicy.SwapBDF | cmd/qat_plugin/dpdkdrv/dpdkdrv.go:76-85 | swaps every id, keeping their order |
| QatPolicy.SwapInvolution | cmd/qat_plugin/dpdkdrv/dpdkdrv.go:76-85 | swapping twice gives an id back exactly when it has three fields |
| QatPolicy.ShortenedExactly | cmd/qat_plugin/dpdkdrv/dpdkdrv.go:76-104 | swapping all ids twice gives them back exactly when all are PCI addresses |
| QatPolicy.BalancedPolicy | cmd/qat_plugin/dpdkdrv/dpdkdrv.go:97-104 | returns the first n of the ids, shortened to three fields, in the order of their swapped forms |
| QatPolicy.BalancedOrder | cmd/qat_plugin/dpdkdrv/dpdkdrv.go:97-104 | swapping, sorting and swapping back is a permutation of the shortened ids, and of the available ones if and only if all of these are PCI addresses |
| QatPolicy.ShortIdHandedOut | cmd/qat_plugin/dpdkdrv/dpdkdrv.go:76-104 | offered one id with more than three fields, the policy hands out one that is not available |
| QatPolicy.BalancedContents | cmd/qat_plugin/dpdkdrv/dpdkdrv.go:97-104 | n distinct available ids |
| QatPolicy.SplitOnlyAtCut | cmd/qat_plugin/dpdkdrv/dpdkdrv.go:97-104 | a virtual function taken from one physical function but not from another that offers it is the one at the cut |
| QatPolicy.BalancedIsFair | cmd/qat_plugin/dpdkdrv/dpdkdrv.go:97-104 | for any addresses, the number taken from one physical function exceeds that from another by at most one plus the functions only the first offers |
| QatPolicy.BalancedIsEven | cmd/qat_plugin/dpdkdrv/dpdkdrv.go:97-104 | physical functions that offer the same virtual functions are used evenly: the numbers taken differ by at most one |
| QatPolicy.FunctionsCount | cmd/qat_plugin/dpdkdrv/dpdkdrv.go:97-104 | the counted virtual functions of a physical function are as many as its ids |
| QatPolicy.PackedOnePartial | cmd/qat_plugin/dpdkdrv/dpdkdrv.go:107-113 | at most one physical function is partially taken |
| LabelSplit.CutIndex | cmd/internal/pluginutils/labels.go:73-87 | the last position in the window after a letter or digit, 0 if there is none |
| LabelSplit.LastAlphaNum | cmd/internal/pluginutils/labels.go:73-87 | the backward loop finds that position |
| LabelSplit.SplitAtLastAlphaNum | cmd/internal/pluginutils/labels.go:47-99 | terminates with the specified chunks, empty when the limit does not exceed the marker or a window has no letter or digit |
| LabelSplit.ConcatAlphaNumSplitChunks | cmd/internal/pluginutils/labels.go:101-118 | joins the chunks without their markers |
| LabelSplit.PiecesAreGood | cmd/internal/pluginutils/labels.go:47-99 | pieces make up the string, fit the limits, end alphanumeric but for the last, and are as long as possible |
| LabelSplit.GoodPiecesUnique | cmd/internal/pluginutils/labels.go:47-99 | there is only one cut whose pieces are all as long as possible |
| LabelSplit.FewestPieces | cmd/internal/pluginutils/labels.go:47-99 | whenever any cut within the limits with alphanumeric ends exists the split finds one, and none has fewer pieces |
| LabelSplit.SplitRejoin | cmd/internal/pluginutils/labels.go:47-118 | for every string, limit and marker a non-empty result rejoins to the string; chunks fit the limit, end alphanumeric but for the last, and start with the marker but for the first |
| LabelSplit.SplitExists | cmd/internal/pluginutils/labels.go:47-99 | strings without adjacent separators are always split |
| LabelSplit.ChunksAreLegal | cmd/internal/pluginutils/labels.go:47-99 | the chunks of text without adjacent separators and with alphanumeric ends are values Kubernetes accepts |
| XeLinks.PrintedAlike | cmd/xpumanager_sidecar/main.go:337-345 | two valid cells print alike exactly when they are the same canonical link |
| XeLinks.CanonicalJoins | cmd/xpumanager_sidecar/main.go:337-345 | the link of a cell joins the two ends the cell reports, smaller device first |
| XeLinks.CellReadsBack | cmd/xpumanager_sidecar/main.go:337-345 | reading the text of a cell gives its link |
| XeLinks.LinkFormat | cmd/xpumanager_sidecar/main.go:331-383 | the literal form of links and label keys |
| XeLinks.MirrorPrintsAlike | cmd/xpumanager_sidecar/main.go:337-345 | a valid cell and its mirror print alike exactly when they join different devices or a tile with itself |
| XeLinks.LinksContents | cmd/xpumanager_sidecar/main.go:347-367 | the links are distinct and are exactly those of cells with enough lanes |
| XeLinks.LinksGrow | cmd/xpumanager_sidecar/main.go:347-367 | links keep their first-seen order when cells follow |
| XeLinks.MirrorAppearsOnce | cmd/xpumanager_sidecar/main.go:347-367 | adding the mirror of a link between two devices changes nothing |
| XeLinks.WriteLinks | cmd/xpumanager_sidecar/main.go:347-367 | the loop prints exactly the links, separated |
| XeLinks.CreateLabels | cmd/xpumanager_sidecar/main.go:331-383 | one numbered label line per chunk of the printed links |
| XeLinks.XeLinkRoundTrip | cmd/xpumanager_sidecar/main.go:331-383 | for every list of valid cells the label values are ones Kubernetes accepts and, rejoined and parsed, give exactly the links |
| Labeler.GetPCIPathParts | cmd/internal/labeler/labeler.go:82-110 | the specified part of the path from its first PCI folder on |
| Labeler.PciPathExactly | cmd/internal/labeler/labeler.go:82-110 | the group of a path is named by so many folders from the first pci one on; a path with too few of them has none |
| Labeler.GroupByPath | cmd/internal/labeler/labeler.go:276-292 | GPUs are grouped by that part, in the order of the list |
| Labeler.GroupedContents | cmd/internal/labeler/labeler.go:284-292 | a group holds exactly the GPUs of its key, in order |
| Labeler.CreatePCIGroupLabel | cmd/internal/labeler/labeler.go:276-311 | prints the groups in the order of their sorted keys |
| Labeler.PciLabelRoundTrip | cmd/internal/labeler/labeler.go:276-311 | the printed text decodes to the groups in key order and is safe to split |
| Labeler.PciLabelEmpty | cmd/internal/labeler/labeler.go:276-311 | the text is empty exactly when no GPU has a usable path |
| Labeler.CreateNumaNodeMappingLabel | cmd/internal/labeler/labeler.go:393-412 | prints the nodes in ascending order with their GPUs |
| Labeler.NumaLabelRoundTrip | cmd/internal/labeler/labeler.go:393-412 | the printed text decodes to the mapping with ascending nodes and is safe to split |
| Labeler.LabelFormats | cmd/internal/labeler/labeler.go:294-308 | the literal form of group and NUMA labels and of numbered keys |
| NodeLabels.Labels.AddSplittableString | cmd/internal/labeler/labeler.go:263-272 | stores the chunks under the numbered keys and changes no other label |
| NodeLabels.Labels.AddNumericLabel | cmd/internal/labeler/labeler.go:251-259 | adds to the number the label holds, wrapping around at 64 bits |
| Labeler.PutContents | cmd/internal/labeler/labeler.go:263-272 | exactly the numbered keys are written |
| Labeler.PutReadsBack | cmd/internal/labeler/labeler.go:263-272 | for values without adjacent separators there is a first chunk, and the numbered labels hold chunks that fit 63 characters and rejoin to the value; with alphanumeric ends they are values Kubernetes accepts |
| Labeler.StoredChunksUnique | cmd/internal/labeler/labeler.go:263-272 | the numbered labels determine the chunks |
| NodeLabels.Labels.ReadCards | cmd/internal/labeler/labeler.go:330-357 | the loop over the cards adds up tiles and memory as 64-bit numbers and groups the cards by known NUMA node |
| NodeLabels.Labels.CreateLabels | cmd/internal/labeler/labeler.go:314-386 | writes exactly the specified labels, lists and numbers, never indexing an empty chunk list |
| NodeLabels.LabelsReadBack | cmd/internal/labeler/labeler.go:359-386 | card numbers, NUMA mapping, PCI groups and the totals of tiles, memory and millicores all read back from one label map, with or without cards; there is a memory label exactly when some card has an amount; the deprecated list of names is complete exactly when it fits one value |
| NodeLabels.TotalsAreSums | cmd/internal/labeler/labeler.go:330-357 | the totals are sums over the cards; memory counts only when its amount is below the largest 64-bit number |
| NodeLabels.NumaMapping | cmd/internal/labeler/labeler.go:330-357 | every NUMA node is mapped to exactly the cards on it, in their order |
| NodeLabels.PciMapping | cmd/internal/labeler/labeler.go:284-292 | every PCI path is mapped to exactly the cards below it, in their order |
| NodeLabels.LabelsLegal | cmd/internal/labeler/labeler.go:314-386 | Kubernetes accepts the values of all labels if and only if no total wraps around to a negative number |
| DevTypes.HexInjective | pkg/fpga/devtypes.go:30 | lowercase hexadecimal text (section 8 of RFC 4648) is determined by its bytes |
| DevTypes.Base64UrlRoundTrip | pkg/fpga/devtypes.go:35 | unpadded base64url (section 5 of RFC 4648) decodes back and has the expected length, for all bytes |
| DevTypes.DevTypesEqual | pkg/fpga/devtypes.go:25-36 | two lowercase id pairs share a device type exactly when their concatenations are equal and the AFU ids start alike |
| DevTypes.DevTypeInjective | pkg/fpga/devtypes.go:25-36 | for interface ids of one length the device type determines both ids |
| DevTypes.DevTypeCollision | pkg/fpga/devtypes.go:25-36 | allowed ids of different lengths can share a device type |
| DevTypes.DevTypeFits | pkg/apis/fpga/v2/acceleratorfunction_types.go:23-27 | an allowed pair gets a device type exactly when its number of digits is even, and then one of at most 63 characters |
| IdNumbers.EncodedNumber | pkg/fpga/devtypes.go:30-37 | the encoded part is the number both ids write in base 16, written in base 64 with zero bits at the end |
| IdNumbers.Base64Table | pkg/fpga/devtypes.go:36 | digits of base 64 are written with the characters of table 2 of RFC 4648 |
| IdNumbers.HexTable | pkg/fpga/devtypes.go:31 | hexadecimal digits read as their places, in either case |
| IdNumbers.DevTypeLegal | pkg/fpga/devtypes.go:26-37 | Kubernetes accepts the name exactly when the bytes are no multiple of three or their last six bits are below 62 |
| IdNumbers.DevTypeIllegal | pkg/fpga/devtypes.go:26-37 | allowed ids whose name Kubernetes refuses |
| Topology.GetTopologyHint | pkg/topology/topology.go:88-139 | terminates with the specified hint |
| Topology.CollectTexts | pkg/topology/topology.go:110-121 | collects exactly the CPU and NUMA texts of the parent's hints |
| Topology.NewTopologyHints | pkg/topology/topology.go:143-176 | terminates with the hints of the device, its parents and the devices behind it |
| HintSources.HintFromFiles | pkg/topology/topology.go:88-136 | the hint of a directory, by its two files and, if these are broken, by the entries of the parent's hints |
| HintSources.ClimbExactly | pkg/topology/topology.go:151-161 | the own hint is that of the nearest ancestor whose files say something; there is none exactly when no ancestor does, and an error exactly when one that cannot be read comes first |
| HintSources.HintsExactly | pkg/topology/topology.go:142-178 | the hints of a device are its own one and those of its slaves and IOMMU group members, and nothing else; exactly when the lookup fails |
| HintSources.HintsFromFiles | pkg/topology/topology.go:142-178 | whatever device a hint is found for, it is the one its own directory gives |
| HintSources.AllTokensExactly | pkg/topology/topology.go:293-330 | the ids looked at are exactly the entries of the NUMA lists in the hints of the devices |
| Topology.HintsSound | pkg/topology/topology.go:88-176 | on every tree that descends a rank no hint has NUMA nodes without CPUs, and hints are filed under their own path |
| Topology.AddHints | pkg/topology/topology.go:313-331 | collects every NUMA id of the hints once; gives up with an error only for an id that is no number, and with neither result nor error only for a negative one |
| Topology.GetTopologyInfo | pkg/topology/topology.go:293-337 | there is a topology exactly when every device resolves and every id is a node number, strictly ascending and exactly the ids in the hints; errors come from unresolved devices or ids that are no numbers; when there are none, there is no error, and no topology exactly when some id is negative |
| HintSources.NodeIdReads | pkg/topology/topology.go:314-318 | a node id is the decimal number of its token, with or without white space around it |
| HintSources.NodeIdRejects | pkg/topology/topology.go:314-318 | a token with any other character is an error |
| Topology.InfoOfNegative | pkg/topology/topology.go:321-323 | for a device on node -2 there is neither a topology nor an error |
| Topology.HintsAlike | pkg/topology/topology.go:88-176 | other orders of the Go maps, different at every visit, and other points of the computation change hints only in the order and repetition of the entries of their CPU, NUMA and socket lists |
| Topology.NodesIgnoreListing | pkg/topology/topology.go:293-337 | the nodes, and whether there are any, do not depend on the order of the Go maps |
| Deployments.AddVolumeIfMissing | pkg/controllers/dlb/controller.go:232-248 | appends the volume exactly when there is none of its name |
| DlbController.RemoveVolumes | pkg/controllers/dlb/controller.go:186-202 | removes exactly the volumes of the two names, keeping the order of the others |
| DlbController.SetInitContainer | pkg/controllers/dlb/controller.go:204-230 | one init container with the wanted image, and its two volumes |
| DlbController.NewDaemonSet | pkg/controllers/dlb/controller.go:73-106 | a new DaemonSet is what the custom resource asks for |
| DlbController.UpdateDaemonSet | pkg/controllers/dlb/controller.go:108-153 | the specified new pod spec; reports a change exactly when the spec changed |
| DlbController.Fixpoint | pkg/controllers/dlb/controller.go:108-153 | whatever the DaemonSet looks like, a second pass changes nothing |
| DlbController.ArgsDetermined | pkg/controllers/dlb/controller.go:141-145 | arguments that compare equal as text are equal as lists |
| DlbController.UpdateReachesDesired | pkg/controllers/dlb/controller.go:108-153 | one pass turns the DaemonSet of any version into what another version asks for |
| DlbController.OnlyLastVersionMatters | pkg/controllers/dlb/controller.go:73-153 | after any history of versions the pod spec is the one a fresh DaemonSet for the last version has |
| DlbController.ArgsSay | pkg/controllers/dlb/controller.go:250-255 | the plugin reads its log level from the command line |
| DlbController.ReconciledSays | pkg/controllers/dlb/controller.go:73-153 | after any history image, log level, init container, volumes, selector and tolerations are those of the last version |
| DlbController.DlbReconciles | deployments/dlb_plugin/base/intel-dlb-plugin.yaml:56-67 | for the plugin's own deployment only the last version matters |
| QatController.ProvisioningConfigChanged | pkg/controllers/qat/controller.go:191-205 | compares with the config map of the first configuration volume, "" if there is none |
| QatController.RemoveVolume | pkg/controllers/qat/controller.go:207-217 | removes exactly the volumes of the name |
| QatController.SetConfigVolume | pkg/controllers/qat/controller.go:285-298 | replaces every configuration volume, or appends one if there is none |
| QatController.SetInitContainer | pkg/controllers/qat/controller.go:219-309 | one init container with the PCI ids of the drivers, and its volumes |
| QatController.NewDaemonSet | pkg/controllers/qat/controller.go:77-106 | a new DaemonSet is what the custom resource asks for |
| QatController.UpdateDaemonSet | pkg/controllers/qat/controller.go:108-158 | the specified new pod spec; reports a change exactly when the spec changed |
| QatController.InitVolumesCurrent | pkg/controllers/qat/controller.go:123-134 | setting the init container makes the wanted configuration the current one, whatever volumes there were |
| QatController.DriversWithIds | pkg/controllers/qat/controller.go:222-235 | of the drivers the custom resource allows, exactly 6xxxvf has no PCI id |
| QatController.Fixpoint | pkg/controllers/qat/controller.go:108-158 | whatever the DaemonSet looks like, a second pass changes nothing |
| QatController.ArgsDetermined | pkg/controllers/qat/controller.go:146-150 | argument lists without blanks that compare equal as text are equal |
| QatController.UpdateFollows | pkg/controllers/qat/controller.go:108-158 | one pass gives what the new version asks for, except that an init container with unchanged image and configuration keeps its drivers |
| QatController.ReconciledExact | pkg/controllers/qat/controller.go:77-158 | after any history of versions: the last version's pod spec with the drivers of the version that last made the init container |
| QatController.OnlyLastVersionMatters | pkg/controllers/qat/controller.go:77-158 | the result is what the last version asks for if and only if it has no init image or the PCI ids agree |
| QatController.ArgsSay | pkg/controllers/qat/controller.go:329-361 | the plugin reads from the command line what the custom resource says about every flag, or the default |
| QatController.QatArgsSay | pkg/controllers/qat/controller.go:329-361 | the same for the plugin's own flags, by name |
| QatController.ValuesReadBack | pkg/controllers/qat/controller.go:329-361 | numbers and driver lists on the command line read back |
| QatController.ReconciledSays | pkg/controllers/qat/controller.go:77-158 | after any history image, flags, init image, volumes, selector and tolerations are those of the last version |
| QatController.InitSays | pkg/controllers/qat/controller.go:219-262 | the init container is told the PCI ids of its drivers in their order |
| QatController.DriversNotPropagated | pkg/controllers/qat/controller.go:123-134 | changing the drivers from 4xxxvf to c6xxvf leaves the init container with the old PCI ids |
| Text.PrefixContiguous | cmd/gpu_plugin/allocationpolicy.go:141-151 | strings with a common prefix are contiguous in every sorted list |
| Text.LexExactly | cmd/gpu_plugin/allocationpolicy.go:141-151 | strings are sorted in dictionary order: a prefix comes first, otherwise the first difference decides |
| Text.SortInPlace | cmd/gpu_plugin/allocationpolicy.go:141-151 | sorts an array of strings in place |
| Text.SplitJoin | cmd/xpumanager_sidecar/main.go:331-383 | splitting joined parts without separators gives them back |
| Text.DecimalFormat | cmd/internal/labeler/labeler.go:405 | numbers are written in base ten |

## Left out

- gRPC sockets, kubelet registration, socket watching, CDI files, HTTP and Prometheus parsing: I/O; their results are inputs of the models.
- Scanning sysfs and devfs, ioctl and cgo code, command line handling, CRD defaulting and validation, generated code, controllers other than DLB and QAT: not modelled.
- `DeviceTree.AddDevice` and the default `Allocate` loop (pkg/deviceplugin/api.go:100-119, pkg/deviceplugin/server.go:145-203): they copy fields from the device tree, which is an input of the models.
- Overlapping `ListAndWatch` streams, failing sends, kubelet restarts and the goroutine that looks its server up by name (pkg/deviceplugin/manager.go:143-149): each server has one stream and sends succeed.
- `MustIncludeDeviceIDs`, an allocation size of 0 and the size check of `GetPreferredAllocation`: the policies ignore the first and assume the others.
- GPU ids and available ids are taken to be distinct, as kubelet sends them.
- JSON text, its quoting and environment variables with ValueFrom: operations are data, and variables have literal values.
- An absent resource map and an empty one are the same map, and no listed quantity equals the zero value Go returns for a missing key.
- Reconfiguring an FPGA port: whether it succeeds and what the port reports afterwards are inputs of `Programming`, whose exact results assume that a bitstream carries the function it is stored under.
- `PostAllocate` (cmd/qat_plugin/dpdkdrv/dpdkdrv.go:496-511), the plain `Split` and label files: the first renumbers one shared map, the others have no reader in the repository.
- Numbers in labels that were not written by the labeler: a label map starts empty, so none is ever read.
- Strings are sequences of characters rather than bytes; trimming and lower-casing cover ASCII.
- Sysfs symbolic links are given already resolved, and the tree is finite and descends a rank.
- Metadata, names, namespaces and pull secrets of DaemonSets: the controllers set them once and never compare them.
- QatController.UpdateFollows: assumes drivers and policies without blanks, which the enumerations of the custom resource guarantee.
- QatController.OnlyLastVersionMatters: makes the same assumption for every version of the history.
- CriHook.HookRoundTrip: for lowercase hexadecimal ids, which the custom resource's patterns guarantee.
- CriHook.PortsDistinctExactly: for devices with distinct names, as in the hook's configuration.
- HookRuns.HookProgramsAll: for devices with distinct names and lowercase ids, and for bitstreams that carry the function they are stored under.
- HookRuns.HookProgramsExactly: makes the same assumptions; the other direction needs that every single step works, since a failing step ends the hook with an error.
