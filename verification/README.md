# Verified model of the Hetzner Cloud provider extension

This project models three parts of the extension and proves what they keep over whole runs.

**Infrastructure.** A shoot's SSH key and worker network live in a cloud account next to resources of others. The
account is a `Client` object holding maps from ids to records; names and fingerprints are not unique by construction,
so uniqueness is proved. Every operation takes the set of calls that are down, each call site being made at most once per
operation, so a statement about all such sets is a statement about failures at any point. `Reconcile` runs the body and,
on an error, the rollback driven by its ledger; a nil dereference is an outcome of its own (`Panicked`), which skips the
rollback. The methods are proved equal to specification functions over values (`Reconciled`, `Deleted`), and the
theorems are about those. Where a theorem needs the account to be sound, it means that ids are positive and never used
twice and that every stored key has a colon separated fingerprint. Runs mix Reconcile, Restore and Delete with steps of
other users of the account, who may do anything except to networks of the shoot's name and keys of its fingerprints.

**Admission.** The validator's decision chain over decoded objects, with CIDR blocks as sets of addresses. What the
error lists mean is stated over all addresses, and the histories of admitted shoots are connected with the controller
that relies on them.

**Workers.** Pools times zones become two parallel cached lists; machine classes are given node templates in place;
placement groups are created, recorded in the status and deleted.

Two helpers complete the model: the shortened cluster id and the list of node files in which each path occurs once.

MD5 (RFC 1321), base64 (RFC 4648), the 64-bit hash, the CIDR parser, the pool hash, image lookup, user data and the rule
for immutable zones are function parameters; nothing is assumed about them beyond their types.

## What turned out not to hold

Each of these comes with a lemma for all inputs and one at a concrete input, in `Counterexamples` or, for the private
range, in `Cidr`.

- The rollback of a failed Reconcile never removes the SSH key it created: it looks a decimal id up as a fingerprint
  (`CleanupKeepsKeys`). The key is adopted by the next Reconcile with the same public key (`LeftoverKeyIsAdopted`). Over
  whole runs the keys that no Delete will find are those of the calls that failed after their key step while the status
  named another key, and that no later call with the same public key brought to success (`StraysAreLeftOver`,
  `ExactlyOneKey`, `DeletedAfterRun`; at an input: `LeakedKey`).
- A failed Reconcile leaves a new network behind exactly when its inputs make it create one, the status update fails, and
  a call of its rollback fails as well (`FailedReconcileRestoresNetworks`, `LeakedNetwork`).
- Delete reports success without removing anything when the cloud profile or the Infrastructure has no provider
  configuration, or when the status cannot be decoded (`DeleteFreesNetwork`, `SilentDelete`).
- The private range check looks only at the first address. Four blocks pass although they reach beyond the private
  ranges: 10.0.0.0/7 and 192.168.0.0 with prefix 13, 14 or 15 (`PassesIff`, `PrivateExactly`, `SlashSevenPasses`,
  `WideBlocksPass`).
- An explicit network zone matches the current region only if the zone of creation hosts that region; the code does not
  look at the region again (`ZoneMatchesCurrentRegion`, `ZoneLeftBehind`).
- Nothing in the repository gives the validator a decoder, so a control plane configuration with content makes it
  dereference nil, while the controller cannot reconcile a shoot without one (`ControlPlaneNeedsDecoder`,
  `AdmittedWithoutDecoderNeverReconciles`, `ControlPlaneCrash`).
- The size limit of a spread pool is checked in 32-bit arithmetic: an accepted pool keeps to it exactly if its size fits
  in 32 bits (`SpreadSize`, `WrappedSpreadSize`).
- Over any run of hooks, whichever of them fail, a placement group outlives its Worker exactly unless its name was wanted
  when the status was last written and belongs to a pool at the deletion; without a written status every group does. The
  branch that is meant to mark the group of a pool that stopped asking looks up id 0, which the deleter ignores
  (`PostDeleteHook`, `DroppedGroupLeaks`, `DroppedGroup`).
- Two different pairs of pool and zone get one deployment name exactly when one zone ends in a dash and the other zone,
  and the other pool's name is the first pool's with the rest of that zone (`NamesClashIff`, `NamesAreDistinct`,
  `SharedDeploymentName`).
- Shortening an id keeps to the given size only from 63 on, and can slice out of range below that (`ShortenIDExactly`,
  `ShortIdPanics`).

## Model

| member | source | states |
|---|---|---|
| `Infrastructure.Reconcile` | pkg/controller/infrastructure/actuator.go:122-132 | account, stored status and outcome after the body and, on an error only, the rollback driven by the ledger of this call |
| `Infrastructure.ReconcileOnce` | pkg/controller/infrastructure/actuator_reconcile.go:41-88 | the body: reads, key, network, status, in this order, with the ledger it fills |
| `Infrastructure.ReconcileOnErrorCleanup` | pkg/controller/infrastructure/actuator_reconcile.go:97-117 | the rollback: by name for the network, by decimal id for the key, nothing without a readable configuration |
| `Infrastructure.Restore` | pkg/controller/infrastructure/actuator.go:140-145 | the same step as Reconcile |
| `Infrastructure.Delete` | pkg/controller/infrastructure/actuator_delete.go:37-65 | teardown from the recorded status, including the silent successes |
| `Infrastructure.UpdateProviderStatus` | pkg/controller/infrastructure/actuator.go:153-165 | the stored status changes exactly when there is one to write and the patch goes through |
| `Ensurers.EnsureSSHPublicKey` | pkg/controller/infrastructure/ensurer/ssh_public_key.go:39-91 | rotation away from the old fingerprint, adoption or creation of the new key, ledger entry only for a creation |
| `Ensurers.EnsureSSHPublicKeyDeleted` | pkg/controller/infrastructure/ensurer/ssh_public_key.go:99-113 | at most the first key of the fingerprint goes |
| `Ensurers.EnsureNetworks` | pkg/controller/infrastructure/ensurer/networks.go:39-104 | get or create by name, nil section, ledger entry, and the zone written into the caller's configuration object |
| `Ensurers.ResolveZone` | pkg/controller/infrastructure/ensurer/networks.go:49-67 | the first location named like the region decides the zone; an unresolved zone is an error |
| `Ensurers.ResolvedZoneExactly` | pkg/controller/infrastructure/ensurer/networks.go:49-67 | an explicit zone is kept; otherwise the zone is that of the first location named like the part of the control plane zone before its first dash |
| `Ensurers.NewNetworkRange` | pkg/controller/infrastructure/ensurer/networks.go:74-98 | the range of a new network and of its only subnet is the masked block, with the same addresses, that the text parses to |
| `Ensurers.EnsureNetworksDeleted` | pkg/controller/infrastructure/ensurer/networks.go:113-129 | the network goes by name, only when an id is recorded |
| `InfrastructureSteps.FailedReconcileRestoresNetworks` | pkg/controller/infrastructure/actuator_reconcile.go:97-117 | after any call that did not succeed the networks differ from those before exactly if its inputs make it create one, the status update fails and a rollback call fails |
| `InfrastructureSteps.CreatesIff` | pkg/controller/infrastructure/ensurer/networks.go:39-104 | which inputs make a call create a network: configuration, key step, zone and calls that work, and a free name |
| `InfrastructureSteps.BodyNetworks` | pkg/controller/infrastructure/actuator_reconcile.go:59-87 | a ledger entry means one new network of the shoot's name where there was none; then only the status update can fail |
| `InfrastructureSteps.CleanupKeepsKeys` | pkg/controller/infrastructure/actuator_reconcile.go:112-115 | the rollback never changes the keys |
| `InfrastructureSteps.ReconcileKeys` | pkg/controller/infrastructure/ensurer/ssh_public_key.go:39-91 | whatever fails, only keys of the old fingerprint go and at most one key comes, only where there was none; success leaves the current and not the old one |
| `InfrastructureSteps.RotationHappens` | pkg/controller/infrastructure/ensurer/ssh_public_key.go:58-63 | the status's key is rotated away exactly if the call gets that far and its two calls work, however it ends |
| `InfrastructureSteps.LeftoverKeyIsAdopted` | pkg/controller/infrastructure/ensurer/ssh_public_key.go:71-88 | a failed call's key stays and the next call with that public key uses it instead of creating a second |
| `InfrastructureSteps.SuccessRecordsNetwork` | pkg/controller/infrastructure/actuator_reconcile.go:69-87 | after success the status records the positive id of the network found by name, exactly when one is configured |
| `InfrastructureSteps.RepeatedReconcileIsIdle` | pkg/controller/infrastructure/actuator_reconcile.go:41-88 | repeating a successful Reconcile changes neither account nor status, whatever fails the second time |
| `InfrastructureSteps.ReconcileKeepsUnique` | pkg/controller/infrastructure/actuator.go:122-132 | one call keeps the network name and every fingerprint unique, whatever fails |
| `InfrastructureSteps.DeleteSucceedsIff` | pkg/controller/infrastructure/actuator_delete.go:37-65 | exactly when a Delete succeeds, from the configurations, the secret, the status and the calls the status leads to |
| `InfrastructureSteps.FailedDeleteLeaves` | pkg/controller/infrastructure/actuator_delete.go:52-62 | what a Delete that fails has removed: the recorded network exactly if its two calls worked, and nothing else |
| `InfrastructureSteps.DeleteFreesNetwork` | pkg/controller/infrastructure/actuator_delete.go:37-65 | when the name is free after a successful Delete, both directions |
| `InfrastructureSteps.DeleteAfterReconcile` | pkg/controller/infrastructure/actuator_delete.go:52-62 | after a successful Reconcile every successful Delete of the namespace removes exactly the recorded resources, or nothing without a configuration; without faults it succeeds |
| `InfrastructureSteps.FurtherDeleteIsIdle` | pkg/controller/infrastructure/actuator_delete.go:52-62 | once the recorded resources are gone a further Delete changes nothing, whichever calls fail |
| `InfrastructureSteps.RetriedDeleteConverges` | pkg/controller/infrastructure/actuator_delete.go:53-61 | a failed Delete keeps the key and a retry ends where a first Delete would have |
| `InfrastructureRuns.NamesStayUnique` | pkg/controller/infrastructure/actuator_reconcile.go:41-117 | over every run with failures anywhere and other users: never two networks of the name nor two keys of one fingerprint |
| `InfrastructureRuns.OthersAreUntouched` | pkg/controller/infrastructure/actuator_delete.go:37-65 | over every run other networks, keys never used by the shoot and all placement groups stay as they are |
| `InfrastructureRuns.StraysAreLeftOver` | pkg/controller/infrastructure/ensurer/ssh_public_key.go:39-91 | over every run, with Deletes, failures and other users: the fingerprints of the shoot's keys that the status does not name are exactly those left over by calls that failed after their key step and not cleared by a success |
| `InfrastructureSteps.ReconcileOutcome` | pkg/controller/infrastructure/actuator_reconcile.go:41-88 | exactly when a Reconcile succeeds and when it dereferences nil, for all inputs and all failures |
| `InfrastructureRuns.RunsCanBeRetried` | pkg/controller/infrastructure/actuator.go:122-132 | after any run a Reconcile without faults succeeds exactly if its inputs are feasible, which no run changes |
| `InfrastructureRuns.ExactlyOneKey` | pkg/controller/infrastructure/ensurer/ssh_public_key.go:39-91 | after a success at the end of any run the current key is there and the status names it; it is the only one exactly if the run left over no other |
| `InfrastructureRuns.PatientRunsHaveOneKey` | pkg/controller/infrastructure/ensurer/ssh_public_key.go:49-63 | which is so whenever the public key changes only after a success |
| `InfrastructureRuns.DeletedAfterRun` | pkg/controller/infrastructure/actuator_delete.go:37-65 | after any run and a successful Delete nothing of the shoot is left exactly if no key was left over and the Delete can act on what is there: configurations, a status, and a recorded network if there is one |
| `InfrastructureRuns.DeletedAfterSuccess` | pkg/controller/infrastructure/actuator_delete.go:37-65 | right after a success this comes down to the two configurations, the keys left over, and whether a network was asked for |
| `InfrastructureRuns.LifecycleLeavesNothing` | pkg/controller/infrastructure/actuator_delete.go:37-65 | from before the shoot to after any successful Delete the account's networks and keys are the same exactly under the conditions of DeletedAfterRun, and its groups always |
| `Fingerprints.GetSSHFingerprint` | pkg/hcloud/apis/utils.go:41-60 | the loop over the digest yields the fingerprint, or nothing for a malformed key |
| `Fingerprints.GetRegionFromZone` | pkg/hcloud/apis/utils.go:32-35 | the longest dash-free prefix that ends at a dash or at the end |
| `Fingerprints.FingerprintExactly` | pkg/hcloud/apis/utils.go:41-60 | the MD5 digest of what the part between the first and the second space decodes to, high hex digit first, bytes separated by colons; none when it does not decode |
| `Fingerprints.NoSecondField` | pkg/hcloud/apis/utils.go:42-45 | a key without a space has no fingerprint |
| `Fingerprints.FingerprintShape` | pkg/hcloud/apis/utils.go:52-59 | 47 characters, two hex digits per byte, colons between |
| `Fingerprints.FingerprintDeterminesDigest` | pkg/hcloud/apis/utils.go:52-59 | equal fingerprints come from equal digests |
| `Fingerprints.DecimalIsNoFingerprint` | pkg/controller/infrastructure/actuator_reconcile.go:113-114 | no decimal id equals a fingerprint |
| `Numerals.FormatIntDeterminesId` | pkg/controller/infrastructure/actuator_reconcile.go:83 | the recorded text determines the network id |
| `Numerals.RoundTrip` | pkg/controller/controlplane/valuesprovider.go:559-560 | the text of a number, in base 10 or 36, stands for that number |
| `Cidr.ContainsExactly` | pkg/hcloud/apis/validation/infrastructure.go:116-130 | containment is the same family and the same leading bits, as quotients by a power of two |
| `Cidr.BlockSize` | pkg/hcloud/apis/validation/infrastructure.go:116-130 | a block has two to the power of its host bits addresses |
| `Cidr.EmptyPrefixIsAll` | pkg/hcloud/apis/validation/infrastructure.go:116-130 | the block with the empty prefix has all 32-bit or all 128-bit addresses |
| `Cidr.SubsetMeaning` | pkg/hcloud/apis/validation/infrastructure.go:116-120 | the test of first and last address is containment of all addresses, both directions |
| `Cidr.OverlapMeaning` | pkg/hcloud/apis/validation/infrastructure.go:122-130 | the test of the two base addresses is a common address, both directions |
| `Cidr.NestedOrDisjoint` | pkg/hcloud/apis/validation/infrastructure.go:116-130 | two blocks are disjoint or the longer prefix lies inside the other |
| `Cidr.PrivateExactly` | pkg/hcloud/apis/validation/infrastructure.go:200-211 | a block that starts in a private range is private throughout exactly when its prefix is at least as long as that of the range |
| `Cidr.PassesIff` | pkg/hcloud/apis/validation/infrastructure.go:200-211 | the test lets through the private blocks and four others, and nothing else |
| `Cidr.SlashSevenPasses` | pkg/hcloud/apis/validation/infrastructure.go:200-211 | 10.0.0.0/7 passes and is not private |
| `Cidr.WideBlocksPass` | pkg/hcloud/apis/validation/infrastructure.go:200-211 | neither are 192.168.0.0/13, /14 and /15, which pass |
| `InfraValidation.ValidateInfrastructureConfig` | pkg/hcloud/apis/validation/infrastructure.go:72-133 | the error list in the order of the checks, for either order of the pods and services map |
| `InfraValidation.NoErrorsIffAcceptable` | pkg/hcloud/apis/validation/infrastructure.go:72-133 | no error exactly if the worker network, as a set of addresses, is canonical, IPv4, based in a private range, inside nodes and apart from pods and services |
| `InfraValidation.ErrorsExactly` | pkg/hcloud/apis/validation/infrastructure.go:72-133 | every single error is in the list exactly if the configuration deserves it, in terms of address sets |
| `InfraValidation.PathsAre` | pkg/hcloud/apis/validation/infrastructure.go:72-100 | the field paths the errors carry |
| `InfraValidation.EmptyIsAbsent` | pkg/hcloud/apis/validation/infrastructure.go:115-130 | an empty CIDR of a shoot network counts as absent |
| `InfraValidation.RegionTable` | pkg/hcloud/apis/validation/infrastructure.go:51-61 | which network zone hosts which region, and that no other region is validated |
| `InfraValidation.OrderOnlyPermutes` | pkg/hcloud/apis/validation/infrastructure.go:122-130 | the map order permutes the errors and changes nothing else |
| `InfraValidation.ValidatePrivateIPv4Range` | pkg/hcloud/apis/validation/infrastructure.go:200-211 | an error exactly when no private range contains the first address |
| `InfraValidation.ValidateShootNetworks` | pkg/hcloud/apis/validation/infrastructure.go:122-130 | the two overlap results in one of the two orders |
| `WorkerValidation.ValidateWorkers` | pkg/hcloud/apis/validation/workers.go:31-63 | the collected errors, or the nil dereference of an undecodable configuration or a missing surge |
| `WorkerValidation.DuplicateReports` | pkg/hcloud/apis/validation/workers.go:45-52 | a duplicate is reported for exactly the positions whose zone occurs earlier in the pool |
| `WorkerValidation.ReportsExactly` | pkg/hcloud/apis/validation/workers.go:31-63 | exactly when the loop dereferences nil, and otherwise each error is in the list exactly if the pool of its number deserves it |
| `WorkerValidation.AcceptedIffGood` | pkg/hcloud/apis/validation/workers.go:31-63 | acceptance exactly if every pool has distinct zones, a minimum, a decodable configuration and a spread size within the limit |
| `WorkerValidation.SpreadSize` | pkg/hcloud/apis/validation/workers.go:55-59 | a spread pool of an accepted list has a surge, and at most ten machines exactly if the sum fits in 32 bits |
| `WorkerValidation.ValidateWorkersUpdate` | pkg/hcloud/apis/validation/workers.go:66-79 | the error list of the nested loops |
| `WorkerValidation.UpdateReportsExactly` | pkg/hcloud/apis/validation/workers.go:66-79 | exactly the pools are reported whose zones differ from those of the first old pool of their name, where the rule enforces it |
| `WorkerValidation.UpdateAcceptedIff` | pkg/hcloud/apis/validation/workers.go:66-79 | no error exactly if no pool changed its zones, against the first old pool of its name, where they are immutable |
| `ShootAdmission.ShootValidator.Check` | pkg/webhook/validator/shoot.go:55-70 | the decision chain over the validation loops gives the verdict of the specification, whichever order the map of networks is visited in |
| `ShootAdmission.ShootValidator.CheckShoot` | pkg/webhook/validator/shoot.go:72-104 | the checks of the shoot itself, in source order, with the nil dereferences as crashes |
| `ShootAdmission.ShootValidator.CheckUpdate` | pkg/webhook/validator/shoot.go:106-141 | the checks of an update, in source order |
| `ShootAdmission.ShootValidator.constructor` | pkg/webhook/validator/shoot.go:38-40 | a new validator has neither client nor decoder |
| `ShootAdmission.ShootValidator.InjectClient` | pkg/webhook/validator/shoot.go:49-52 | sets the client and leaves the decoder alone |
| `ShootAdmission.ValidShootIsLawful` | pkg/webhook/validator/shoot.go:72-104 | the shoot itself is accepted exactly if it obeys all rules and its control plane configuration passes |
| `ShootAdmission.CreationAdmittedIff` | pkg/webhook/validator/shoot.go:143-169 | exactly which creations are admitted |
| `ShootAdmission.UpdateAdmittedIff` | pkg/webhook/validator/shoot.go:106-141 | exactly which updates are admitted |
| `ShootAdmission.CreationCrashesIff` | pkg/webhook/validator/shoot.go:143-169 | exactly which creations crash the validator |
| `ShootAdmission.UpdateCrashesIff` | pkg/webhook/validator/shoot.go:106-141 | exactly which updates crash the validator |
| `ShootAdmission.OnlyShootsPass` | pkg/webhook/validator/shoot.go:55-70 | objects of another kind are refused, as new or as old one |
| `ShootAdmission.ControlPlaneVerdict` | pkg/webhook/validator/shoot.go:92-96 | exactly when a control plane configuration is admitted and when it crashes |
| `ShootAdmission.PoolZonesChangeAsPermitted` | pkg/webhook/validator/shoot.go:136-138 | over every history and for every rule of immutability the zones of a pool that stays change only as the rule permits, step after step |
| `ShootAdmission.PoolZonesNeverChange` | pkg/webhook/validator/shoot.go:136-138 | under a rule that always enforces immutability such a pool keeps its zones for good |
| `ShootAdmission.EveryAdmittedShoot` | pkg/webhook/validator/shoot.go:106-156 | in every history: networks as at creation, all rules for the current spec, explicit zone hosting the region of creation |
| `ShootAdmission.ZoneMatchesCurrentRegion` | pkg/hcloud/apis/validation/infrastructure.go:151-182 | an explicit zone hosts the current region exactly if the one of creation does; for known regions, if the region stays in its network zone |
| `ShootAdmission.ControlPlaneNeedsDecoder` | pkg/webhook/validator/shoot.go:92-96 | without a decoder no shoot with a control plane configuration is admitted, and one that would be crashes the validator |
| `AdmissionTotality.ControllerSelectsCheckedCidr` | pkg/controller/infrastructure/ensurer/networks.go:40-46 | the controller picks the CIDR the validator checked, and its ignored parse error cannot occur |
| `AdmissionTotality.CreatedNetworkIsChecked` | pkg/controller/infrastructure/ensurer/networks.go:49-98 | a created network has the checked block as range and only subnet, in the explicit zone or in that of the first location of the region |
| `AdmissionTotality.LawfulShootsReconcile` | pkg/controller/infrastructure/ensurer/networks.go:39-104 | no nil dereference for an admitted shoot, and success records a positive id |
| `AdmissionTotality.OneNetworkPerHistory` | pkg/webhook/validator/shoot.go:126-134 | whichever admitted version is reconciled, a created network is the one checked at creation |
| `AdmissionTotality.LawfulNetworkIsPrivate` | pkg/hcloud/apis/validation/infrastructure.go:200-211 | an admitted worker network is private exactly unless it is one of the four wide blocks |
| `AdmissionTotality.AdmittedWithoutDecoderNeverReconciles` | pkg/controller/infrastructure/actuator_reconcile.go:47-50 | a shoot admitted without a decoder fails every Reconcile before any change |
| `Machines.PoolZonesExactly` | pkg/controller/worker/machines.go:131-156 | a pool has its own zones, else those of the first region of that name; without either there is an error |
| `Machines.WorkerDelegate.GenerateMachineConfig` | pkg/controller/worker/machines.go:162-328 | both caches are replaced together, or on any error neither |
| `Machines.WorkerDelegate.GenerateMachineDeployments` | pkg/controller/worker/machines.go:85-92 | the cached list, or that of a fresh generation, which fills both caches |
| `Machines.WorkerDelegate.DeployMachineClasses` | pkg/controller/worker/machines.go:67-79 | exactly when it succeeds, and the stored classes: the rendered ones laid over the old ones, all others with backfilled templates |
| `Machines.DeployedClassesHaveTemplates` | pkg/controller/worker/machines.go:67-79 | afterwards every wanted class is as rendered, with a complete template, and every other one has a template unless none can be derived |
| `Machines.WorkerDelegate.UpdateMachineImagesStatus` | pkg/controller/worker/machine_images.go:83-103 | regenerates both lists, and on success writes back the status it read |
| `Machines.EntryOfPoolAndZone` | pkg/controller/worker/machines.go:197-323 | one entry per pool and zone in both lists, in pool-then-zone order |
| `Machines.PoolOfEntry` | pkg/controller/worker/machines.go:197-323 | every position of the lists belongs to a zone of a pool |
| `Machines.GeneratedIff` | pkg/controller/worker/machines.go:162-328 | exactly when machines can be generated |
| `Machines.GeneratedEntry` | pkg/controller/worker/machines.go:229-320 | the fields of the entry of a pool and zone, down to network, placement group and the quantities of the node template |
| `Machines.CachedListsAreAligned` | pkg/controller/worker/machines.go:303-325 | equal positive length, the sum of the zone counts; each deployment names the class beside it |
| `Machines.ValidDelegateIsAligned` | pkg/controller/worker/machines.go:322-325 | the same of whatever a delegate has cached, whenever it was generated |
| `MachineNames.NamesClashIff` | pkg/controller/worker/machines.go:274 | exactly when two given pairs of pool and zone get one deployment name |
| `MachineNames.NamesAreDistinct` | pkg/controller/worker/machines.go:274-275 | all deployment names of a generation differ exactly if no two zones of its pools clash, and all class names, with hashes of one length, exactly if zones clash only where hashes differ |
| `MachineNames.GoodNamesAreDistinct` | pkg/controller/worker/machines.go:274-275 | it suffices that pool names differ, zones differ within each pool, and no zone in use ends in a dash and a zone in use |
| `NodeTemplates.PoolTemplateExactly` | pkg/controller/worker/machines.go:341-378 | every field of a pool's template: its own quantities key by key, and cpu, gpu and memory of the machine type where it has none |
| `NodeTemplates.BackfilledTemplate` | pkg/controller/worker/machines.go:425-446 | every field of a backfilled template: what the first machine type of the name declares, or zeros |
| `NodeTemplates.BackfillNodeTemplates` | pkg/controller/worker/machines.go:401-455 | which classes are patched, in order, while others vanish before any patch; success exactly if no patch of a class still there is refused, and on failure the state at the first refused one |
| `NodeTemplates.CompletesInAnyOrder` | pkg/controller/worker/machines.go:414-452 | the order of the listing decides about success only for classes that vanish midway |
| `NodeTemplates.LogExactly` | pkg/controller/worker/machines.go:414-452 | every class is patched at most once, and exactly those that need it and are there in their round |
| `NodeTemplates.SecondBackfillIsIdle` | pkg/controller/worker/machines.go:414-452 | after a complete backfill the next one patches nothing, also with rendered classes in between, and no other field ever changes |
| `NodeTemplates.FirstMachineType` | pkg/controller/worker/machines.go:458-466 | of several machine types of one name the first one counts |
| `PlacementGroups.EnsurePlacementGroups` | pkg/controller/worker/ensurer/placement_group.go:36-79 | account, ids and error of the loop, whichever call fails |
| `PlacementGroups.EnsuringGroups` | pkg/controller/worker/ensurer/placement_group.go:36-79 | no group is lost, names stay unique, and success returns exactly the wanted names with ids of existing groups |
| `PlacementGroups.EnsuringSucceedsIff` | pkg/controller/worker/ensurer/placement_group.go:36-79 | exactly when ensuring succeeds, pool by pool |
| `PlacementGroups.GroupsBeforeFailure` | pkg/controller/worker/ensurer/placement_group.go:57-75 | a call that fails keeps the groups of the pools before the one it failed at |
| `PlacementGroups.WantedNamesExactly` | pkg/controller/worker/ensurer/placement_group.go:50-55 | which pools ask for a group, and under which name |
| `PlacementGroups.RetriesReuse` | pkg/controller/worker/ensurer/placement_group.go:57-75 | a name that has a group gets that very id |
| `PlacementGroups.RunsKeepGroups` | pkg/controller/worker/ensurer/placement_group.go:36-79 | over any run of failures and retries no name has two groups and none is deleted |
| `PlacementGroups.ClassesUseTheirGroups` | pkg/controller/worker/machines.go:257-260 | generated classes carry an existing group exactly for the pools that ask for one |
| `PlacementGroups.EnsurePlacementGroupDeleted` | pkg/controller/worker/ensurer/placement_group.go:87-101 | exactly when it succeeds: id 0 is ignored, a lookup or a deletion that fails makes it fail; on success the group of that id is gone |
| `PlacementGroups.PreReconcileHook` | pkg/controller/worker/actuator_hooks.go:35-103 | templates first, up to the first refused patch; groups only when every pool is available, status only when all succeeded |
| `PlacementGroups.InStockIff` | pkg/controller/worker/actuator_hooks.go:52-84 | what the check of a pool means: the last server type of its name is flagged available in the location of the first zone's region |
| `PlacementGroups.PostDeleteHook` | pkg/controller/worker/actuator_hooks.go:125-153 | success removes exactly the groups recorded under current pools of a Worker being deleted, and nothing otherwise |
| `PlacementGroups.GroupLifecycle` | pkg/controller/worker/actuator_hooks.go:125-153 | any run of hooks and the deletion give back the groups from before exactly if the names that got a group meanwhile are those last recorded as wanted that belong to a pool at the deletion |
| `PlacementGroups.DroppedGroupLeaks` | pkg/controller/worker/actuator_hooks.go:134-149 | over any run of hooks, failing or not, a group survives the deletion exactly unless its name was wanted when the status was last written and belongs to a pool at the deletion |
| `ClusterIds.ShortenIDExactly` | pkg/controller/controlplane/valuesprovider.go:549-561 | when the id is unchanged, when it becomes 63 bytes and which ones, when slicing panics, and that it fits exactly from 63 on |
| `ClusterIds.CsiClusterIDFits` | pkg/controller/controlplane/valuesprovider.go:532-542 | the CSI cluster id always exists, has at most 63 bytes, and shortening is idempotent |
| `NodeFiles.FileList.AppendUniqueFile` | pkg/webhook/controlplane/ensurer.go:377-387 | the list without the path, then the file |
| `NodeFiles.AppendedOnce` | pkg/webhook/controlplane/ensurer.go:377-387 | the path occurs once, at the end; all other files keep content and order |
| `NodeFiles.AppendingTwice` | pkg/webhook/controlplane/ensurer.go:377-387 | a sequence of appends with distinct paths run twice gives the list of one run |
| `NodeFiles.FileList.EnsureAdditionalFiles` | pkg/webhook/controlplane/ensurer.go:227-242 | the configured Docker files are appended in order; nothing changes without a readable cloud profile |
| `NodeFiles.FileList.EnsureAdditionalProvisionFiles` | pkg/webhook/controlplane/ensurer.go:246-249 | the pin file is appended |
| `NodeFiles.DockerFilesAreThere` | pkg/webhook/controlplane/ensurer.go:297-345 | the configured files end up under their paths with their permissions and contents |
| `NodeFiles.OtherFilesStay` | pkg/webhook/controlplane/ensurer.go:227-242 | every other file is as before |
| `NodeFiles.PinFileIsThere` | pkg/webhook/controlplane/ensurer.go:266-295 | the same of the pin file on provisioned nodes |
| `NodeFiles.DockerFilesTwice` | pkg/webhook/controlplane/ensurer.go:227-242 | repeating the call with the same options changes nothing |
| `Counterexamples.LeakedNetwork` | pkg/controller/infrastructure/actuator_reconcile.go:97-117 | a network that a failed call leaves behind |
| `Counterexamples.LeakedKey` | pkg/controller/infrastructure/actuator_reconcile.go:112-115 | a key that outlives a rotation and a Delete |
| `Counterexamples.SilentDelete` | pkg/controller/infrastructure/actuator_delete.go:37-65 | a Delete that reports success and keeps the recorded network |
| `Counterexamples.ZoneLeftBehind` | pkg/hcloud/apis/validation/infrastructure.go:151-182 | an admitted history whose explicit zone no longer hosts the region |
| `Counterexamples.ControlPlaneCrash` | pkg/webhook/validator/shoot.go:92-96 | a lawful shoot with a control plane configuration that crashes the validator |
| `Counterexamples.WrappedSpreadSize` | pkg/hcloud/apis/validation/workers.go:55-59 | an accepted spread pool of more than two thousand million machines |
| `Counterexamples.DroppedGroup` | pkg/controller/worker/actuator_hooks.go:134-149 | a group that outlives its Worker although a pool asks for it again |
| `Counterexamples.SharedDeploymentName` | pkg/controller/worker/machines.go:274 | two pools and zones with one deployment name |
| `Counterexamples.ShortIdPanics` | pkg/controller/controlplane/valuesprovider.go:549-561 | an id of 17 bytes that cannot be shortened to 16 |

## Left out

- Infrastructure.UpdateProviderStatus: does not model the in-memory object, which is changed even when the patch fails, because every operation reads the stored status again.
- Account.Client.CreateNetwork: does not model that the API may refuse a network without a range or with a name in use; the theorems hold for an account that accepts anything.
- ShootAdmission.ShootValidator.Check: does not model what the webhook server does with a crash of the validator.
- WorkerValidation.ValidateWorkersUpdate: does not interpret the rule for immutable zones, whose body is not part of this model.
- Machines.WorkerDelegate.DeployMachineClasses: does not model a chart that applies in part, nor rendered fields beside provider spec and node template.
- Machines.WorkerDelegate.UpdateMachineImagesStatus: does not model the image list in the status, which the source never fills.
- IPv6 addresses that embed an IPv4 address count as IPv6 here.
- Labels, annotations, taints, priorities, update strategies, surge distribution and extra configuration of machines are copied through and not modelled; labels of cloud resources neither.
- ForceDelete and Migrate do nothing.
- HTTP and Kubernetes clients, pagination, contexts, logging, chart rendering, manager wiring, JSON decoding and schemes: a configuration is missing, undecodable or decoded.
- Credentials selection, health checks, option parsing, image vectors, rendered scripts, and the cloud profile validator: easy members or input and output.
