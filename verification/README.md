# ltvm, modelled and proved

ltvm builds Lustre for many targets and runs it in QEMU virtual machines. This project models
the parts of it that keep state over many runs and many processes, and proves what they keep.

| Part | Modules |
|---|---|
| Reconfigure stamps and the tree claim of a shared Lustre source tree | `LustreTree` |
| Memory admission under the launch lock, and the NUMA split | `Admission`, `Exposure`, `Numa` |
| NIC address allocation | `AddressPool`, `Allocation`, `AllocationRuns` |
| The block editor of a guest's `cfg/local.sh`, and what sourcing the file means | `LocalSh`, `LocalShMarks`, `LocalShMeaning`, `LocalShEdits`, `LocalShResults`, `OstCountStays`, `KeptBlocks`, `Redeploy`, `GuestFile`, `OstFiles` |
| The podman usage lock | `PodmanLock` |
| The ssh config stanza | `SshStanza` |
| The `--nic` spec, its parser and its canonical text | `NicSpec`, `NicSpecSpelling`, `NicSpecLength`, `Ipv4` |
| Install and uninstall by manifest | `FileTree`, `Install`, `Uninstall`, `InstallRoot` |
| The versioned image store | `ImageStore`, `ImageHost`, `Qcow2` |
| Python's string operations | `Text` |

Protocols are state machines whose steps may interleave or die anywhere; the results are about
every run. Code that changes files or objects in place is a class or a loop, proved equal to a
function, and the theorems are about that function. Running a command, a clock, a hash and the
network are parameters: which records are unreadable, which `rm` fails, where a build dies and what
a name hashes to are arbitrary.

## What the proofs found

The code is modelled as it is. Where a promise does not hold for every input, a theorem says
exactly when it does; what is only an example is called one.

- A kernel tree without a release string never matches its own claim, so every build in it
  distcleans (`LustreTree.OwnClaimReadsBack`, `LustreTree.RepeatIsIncremental`).
- The claim file is what keeps builds apart: if it alone is lost, a build can skip configure on
  another identity's `config.status`, exactly when `LustreTree.LostClaimIsUnsafe` says.
- The memory scan counts what readable records hold, which need not be what QEMU has: a damaged record
  counts as nothing, and `ltvm set --mem`, or a destroy and create, during a `start --wait` changes the
  record but not the memory the waiting launcher has loaded. The states from which the limit can come
  to be exceeded are given exactly by `Exposure.LimitBreaksExactly`. A stopped VM with a damaged record
  makes none of them by itself: nothing can load it, unless a launcher has already
  (`Exposure.CorruptExposes`).
- RAM OSTs survive a rewrite of the disk block exactly when the disk block was there before them
  (`LocalShResults.DiskRewriteAfterRam`), and configure_ost_count survives it exactly when the disk
  block comes first or does not reach its settings (`OstCountStays.DiskRewriteKeepsCount`). The failing
  orders come only from calls made in another order than a deploy's: after a deploy onto a stock file
  llmount with the same disks undoes neither (`OstCountStays.MountsUndoNothing`).
- Kept blocks that overlap in the old file can lose one of them on a redeploy
  (`Redeploy.OverlappingBlocksLoseOne`). Exactly when is decided by the dictionary alone
  (`Redeploy.RedeployIsExact`), and told by its markers for two blocks and, the FSTYPE marker aside,
  for three (`Redeploy.TwoBlocksExact`, `Redeploy.ThreeBlocksExact`).
- The usage lock does not protect from the `podman machine stop` of an ltvm process that was killed
  while it ran it; holders are exposed exactly while such a command runs
  (`PodmanLock.HolderIsExposedExactly`).
- Stripping the ssh stanza also eats a blank or indented line right after it
  (`SshStanza.StripUndoesAppend`), and each change of subnet leaves one more empty line.
- `str()` of a NIC spec promises that `parse` reads it back; it does exactly when the text has at
  most 512 characters, which IPv6 text that grows when it is made canonical can exceed
  (`NicSpec.CanonicalTextRoundTrip`, `NicSpecLength.CanonicalTextCanBeTooLong`).
- Symbolic links to directories, and top-level names that start with `-`, survive an uninstall; an
  empty directory that was there before the install may not (`Uninstall.FilesAreRestored`,
  `Uninstall.TreeIsRestored`).
- A prune between the two halves of an image install removes the new image
  (`ImageStore.PruneInsideInstall`).

## Model

| member | source | states |
|---|---|---|
| `LustreTree.ClaimNamesOneBuild` | ltvm_pkg/lustre_build.py:680-713 | a claim, written as a line and read back stripped, equals only the claim of the same target, arch, variant and kernel release, and never one with an empty release |
| `LustreTree.OwnClaimReadsBack` | ltvm_pkg/lustre_build.py:680-713 | a build recognises its own claim if and only if its kernel release is not empty |
| `LustreTree.StampTextInjective` | ltvm_pkg/lustre_build.py:405-428 | equal texts under the configure stamp mean equal configure lines and ZFS versions |
| `LustreTree.ScriptStepKeeps` | ltvm_pkg/lustre_build.py:1208-1289 | each single step of the container script keeps what holds between the steps, whatever its best-effort parts do |
| `LustreTree.BuildKeeps` | ltvm_pkg/lustre_build.py:876-1559 | a build that dies at any step of any attempt still leaves the claimant's configure stamp vouching for config.status |
| `LustreTree.BuildIsSafe` | ltvm_pkg/lustre_build.py:918-930 | wherever an attempt skips configure or reaches make, config.status was generated for its own target, arch, variant, release and configure hash |
| `LustreTree.EveryBuildOfEveryRunIsSafe` | ltvm_pkg/lustre_build.py:443-506 | that holds for every build of every run from a tree without stamps, with builds dying anywhere and files cleaned away in between |
| `LustreTree.MatchingStatusHasSameFlags` | ltvm_pkg/lustre_build.py:405-428 | with a collision-free hash, a matching config.status carries the very same configure line and ZFS version, and only then |
| `LustreTree.SuccessLeavesTreeBuilt` | ltvm_pkg/lustre_build.py:1554-1559 | after a success, everything a repeat of the build looks at is in place |
| `LustreTree.RepeatIsIncremental` | ltvm_pkg/lustre_build.py:685-713 | then the same build neither distcleans nor reconfigures, or does both when the release is empty |
| `LustreTree.FailedRepeatStaysIncremental` | ltvm_pkg/lustre_build.py:1189-1206 | a repeat that dies anywhere leaves the next one incremental too |
| `LustreTree.SwitchForcesDistclean` | ltvm_pkg/lustre_build.py:685-713 | a tree claimed by one identity is distcleaned by every other one |
| `LustreTree.SpacedNamesShareAClaim` | ltvm_pkg/lustre_build.py:680-683 | names with spaces would give two identities one claim |
| `LustreTree.LostClaimIsUnsafe` | ltvm_pkg/lustre_build.py:643-713 | after successful builds of one identity and then another, losing the claim alone makes the next build of the first skip configure on a foreign config.status if and only if they share the release and the second left the stamps of the first as they were: another target or arch, or the same with an equal server flag and configure hash |
| `LustreTree.SourceTree.RunScript` | ltvm_pkg/lustre_build.py:1208-1289 | running the script in place up to the step it dies at gives the tree the step function gives |
| `LustreTree.SourceTree.Decide` | ltvm_pkg/lustre_build.py:918-930 | the host check gives the plan of the specification and drops the configure stamp exactly when it plans to reconfigure |
| `LustreTree.SourceTree.BuildInContainer` | ltvm_pkg/lustre_build.py:876-1559 | a build in place gives the specified tree, keeps the invariant, is safe, and leaves a built tree when it succeeds |
| `Admission.MemoryBudget` | ltvm_pkg/qemu_run.py:190-201 | there is a budget exactly when the host's memory can be read; its total is the smaller of host memory and cgroup limit, its reserve a tenth of that or the floor, whichever is more |
| `Admission.FitsWhenIdle` | ltvm_pkg/qemu_run.py:240-306 | a VM is worth waiting for exactly when an idle host would take it |
| `Admission.LaunchWithWait` | ltvm_pkg/qemu_run.py:708-758 | the wait loop starts the VM at the first poll with room, and gives up early exactly when no committed total could ever let it through |
| `Admission.RunningVmMemory` | ltvm_pkg/qemu_run.py:209-237 | the scan finds exactly the other running VMs whose records it can read, with their memory |
| `Admission.AdmitKeeps` | ltvm_pkg/qemu_run.py:735-742 | the total scanned under the lock bounds what the VMs counted in full use at the launch, though others stop, are changed, damaged or destroyed during the scan |
| `Admission.StepKeeps` | ltvm_pkg/qemu_run.py:308-332 | every step of every process keeps the VMs counted in full within the limit (loads, polls, each read, starts with the memory loaded before the wait, creates, changes by set, stops, destroys, damage), unless a set makes a running VM count in full that did not |
| `Admission.NoVmExceedsTheBudget` | ltvm_pkg/qemu_run.py:240-271 | in every run whatsoever no running VM exceeds the budget |
| `Admission.CommittedStaysWithinLimit` | ltvm_pkg/qemu_run.py:240-271 | in every interleaving without such a set, the running VMs whose record is readable and holds no less than their QEMU has stay within the limit together |
| `Admission.RunningStaysWithinLimit` | ltvm_pkg/qemu_run.py:240-271 | all running VMs together do so in every state at which they are all counted in full, and so in every state of a run in which no record is damaged, changed by set, or made anew under a launcher that has loaded it |
| `Exposure.LimitBreaksExactly` | ltvm_pkg/qemu_run.py:209-271 | with the lock free and in the absence of further damage or change of records, some run leads over the limit if and only if it is exceeded already, a running VM has more memory than the scan counts for it, or a launcher is pending that fits the budget and would start such a VM |
| `Exposure.EveryRunIsExposedExactly` | ltvm_pkg/qemu_run.py:209-271 | that holds in every state that any run from an idle host reaches |
| `Exposure.CorruptExposes` | ltvm_pkg/vm_state.py:883-898 | a record damaged on a host that is not exposed exposes it if and only if its VM runs with memory or a launcher that fits the budget has loaded it; a stopped VM alone does not |
| `Exposure.SetExposes` | ltvm_pkg/vm_commands.py:3234-3265 | a change of memory does if and only if the running QEMU has more, or such a launcher has loaded more |
| `Exposure.CreateExposes` | ltvm_pkg/qemu_run.py:735-742 | a VM made anew does if and only if a launcher has loaded more from the one before it |
| `Exposure.LaunchAlone` | ltvm_pkg/qemu_run.py:735-742 | on a host of any size a pending launcher whose VM is stopped and fits beside the counted ones starts it by lock, scan and launch |
| `Numa.SmpNodes` | ltvm_pkg/qemu_run.py:394-422 | the node memories sum to exactly the VM's memory, all but the last are equal and the last is the rest, and accepted vCPU counts are cut into equal contiguous ranges |
| `Numa.EveryCpuInOneNode` | ltvm_pkg/qemu_run.py:394-422 | those ranges give every vCPU to exactly one node |
| `Numa.MemoryShares` | ltvm_pkg/qemu_run.py:381-422 | in accepted splits all but the last share are even, every share is at least the minimum, and the last exceeds the others by less than twice the node count |
| `AddressPool.AtMostOneNetwork` | ltvm_pkg/nic_network.py:25-38 | in a set of equal-or-disjoint networks an address lies in at most one |
| `AddressPool.OverlapProblem` | ltvm_pkg/nic_network.py:25-38 | the check finds no problem if and only if all networks are pairwise equal or disjoint, and otherwise names an overlapping pair |
| `AddressPool.ProbesArePermutation` | ltvm_pkg/nic_network.py:61-78 | from any hash start the wrapped probes visit each pool address exactly once |
| `AddressPool.SearchIsExact` | ltvm_pkg/nic_network.py:61-78 | the search returns an unused pool address, and fails exactly when all are used |
| `AddressPool.WrappedSearch` | ltvm_pkg/nic_network.py:72-78 | the probing loop computes that search |
| `AddressPool.SelectAddress` | ltvm_pkg/nic_network.py:61-78 | the result is an unused host of the bounded pool, never the network address, the IPv4 broadcast or the subnet-router anycast; there is none exactly when the pool is used up |
| `AddressPool.DefaultIsExact` | ltvm_pkg/nic_allocation.py:63-70 | the same for the default pool .10 to .253 |
| `Allocation.NicIp6Injective` | ltvm_pkg/vm_state.py:501-523 | different IPv4 addresses pair with different IPv6 addresses |
| `Allocation.NicIp6InDefault` | ltvm_pkg/vm_state.py:501-523 | a paired address lies in the default /64, above every address a search of it can return |
| `Allocation.AllocateFresh` | ltvm_pkg/nic_allocation.py:102-130 | allocated addresses of either family are unused, pairwise different, and each in its NIC's network |
| `Allocation.AllocLoop` | ltvm_pkg/nic_allocation.py:110-129 | the loop over the NICs, which grows the used sets and the result lists in place, computes the recursive allocation |
| `Allocation.AllocAddresses` | ltvm_pkg/nic_allocation.py:102-130 | the management address and the loop together compute the specified allocation, and what they give is new |
| `Allocation.Ipv6RefusalIsUnreachable` | ltvm_pkg/nic_allocation.py:124-126 | when every used address above the pool is paired with a used IPv4 address, the "already used" refusal cannot happen |
| `AllocationRuns.StoredAddressState` | ltvm_pkg/nic_allocation.py:37-60 | the scan gathers exactly the addresses and subnets of the other VMs' records |
| `AllocationRuns.AllocVmAddresses` | ltvm_pkg/nic_allocation.py:73-130 | the whole allocation, with the layout and overlap refusals: what it grants is new to every other VM, and only when its networks fit all of theirs |
| `AllocationRuns.StepKeeps` | ltvm_pkg/nic_allocation.py:73-130 | taking the lock, each single read, a destroy in between, a refused and a granted allocation all keep the invariant |
| `AllocationRuns.EveryRunIsGood` | ltvm_pkg/nic_allocation.py:73-130 | in every interleaving saved addresses are pairwise different, each is in its network, and data subnets are equal or disjoint and clear of the management subnet |
| `AllocationRuns.SavedAddressesAreUnique` | ltvm_pkg/nic_allocation.py:37-60 | two equal saved IPv4 addresses, management included, are the same entry of the same VM |
| `AllocationRuns.SavedIpv6AddressesAreUnique` | ltvm_pkg/nic_allocation.py:37-60 | and so are two equal saved IPv6 addresses, compared by value |
| `AllocationRuns.AddressInOneNetwork` | ltvm_pkg/nic_network.py:41-58 | in every reachable state an IPv4 address lies in at most one network in use, the defaults and the management subnet included |
| `AllocationRuns.Ipv6NeverRefused` | ltvm_pkg/nic_allocation.py:124-126 | no run ever reaches the "IPv6 address is already used" refusal |
| `AllocationRuns.OnlyCommitsSave` | ltvm_pkg/nic_allocation.py:73-130 | a refused allocation changes nothing: only a granted one adds or changes a record, and only its own |
| `LocalSh.DeleteRender` | ltvm_pkg/deploy.py:808-809 | sed's range delete removes exactly the blocks of one kind |
| `LocalSh.RewriteRender` | ltvm_pkg/deploy.py:715-736 | the awk program replaces exactly the block of one kind, where it sits, and keeps every other line and the order of blocks |
| `LocalSh.SpliceLaws` | ltvm_pkg/deploy.py:715-736 | on blocks: splicing is idempotent, a later text of the same block wins, and splices of two present blocks commute |
| `LocalShEdits.SpliceLawsOnLines` | ltvm_pkg/deploy.py:715-736 | the same on the lines of every edited file |
| `LocalShMarks.LtvmMarksSeparate` | ltvm_pkg/deploy.py:685-688 | with ltvm's own markers no line is a marker of two blocks, or begin and end at once |
| `LocalShMeaning.CleanSource` | ltvm_pkg/deploy.py:690-697 | sourcing lines that assign tracked settings only as `${V:-d}` or `${_ltvm_env_V:-n}` keeps the saved copies, lets the environment win, and otherwise gives the last block's value |
| `LocalShEdits.EnsureOnStock` | ltvm_pkg/deploy.py:700-712 | the first edit puts the save lines ahead of everything and replaces an older save block |
| `LocalShEdits.SpliceSound` | ltvm_pkg/deploy.py:715-736 | splicing lines into an edited file is splicing the block among its blocks, and keeps them sound |
| `LocalShEdits.ApplyOnSaved` | ltvm_pkg/deploy.py:620-1010 | each configure_* script, run on the lines of an edited file, is its block edit, with the save lines still on top |
| `LocalShEdits.ApplyOnStock` | ltvm_pkg/deploy.py:620-1010 | on a stock file each gives the edited form, except that a refused edit and a count of 0 leave it stock |
| `LocalShResults.EveryRunOfEdits` | ltvm_pkg/deploy.py:700-712 | every run of edits of a stock file keeps the save lines, once there, ahead of all assignments |
| `LocalShResults.SavedOnceWritten` | ltvm_pkg/deploy.py:700-736 | they are there as soon as one edit has written a block |
| `LocalShResults.SourcingRespectsEnvironment` | ltvm_pkg/deploy.py:690-712 | sourcing an edited file gives MDSCOUNT, OSTCOUNT and FSTYPE the environment's non-empty value, and otherwise the value of the ltvm block that assigns them last |
| `LocalShResults.EveryRunRespectsEnvironment` | ltvm_pkg/deploy.py:685-736 | that holds for every environment after every run of edits that wrote a block |
| `LocalShResults.FstypePins` | ltvm_pkg/deploy.py:974-1010 | configure_fstype fixes FSTYPE for every environment that does not set it |
| `LocalShResults.DiskRewriteAfterRam` | ltvm_pkg/deploy.py:739-812 | after configure_ram_osts a disk-block rewrite leaves an OST on its ram device if and only if a disk block was there before or does not reach that OST |
| `LocalShResults.RamSurvivesDiskRewrites` | ltvm_pkg/deploy.py:715-736 | any number of disk rewrites keeps the ram block last and deciding |
| `LocalShResults.RamSurvivesWhenSourced` | ltvm_pkg/deploy.py:776-812 | so sourcing the file gives each OSTDEV its ram device in every environment |
| `LocalShResults.OstCountEndsRam` | ltvm_pkg/deploy.py:926-962 | a positive configure_ost_count removes the ram block, leaves its own, and keeps every other block |
| `LocalShResults.OstCountPutsDisksBack` | ltvm_pkg/deploy.py:926-962 | and puts every OST that has a disk back on it, in the file and when it is sourced |
| `OstCountStays.DiskRewriteAfterCount` | ltvm_pkg/deploy.py:912-916 | a rewrite of the disk block leaves a setting of the OST count block alone if and only if the disk block does not make it, makes it the same, or was there before the OST count block |
| `OstCountStays.DiskRewriteKeepsCount` | ltvm_pkg/deploy.py:912-962 | so for OSTCOUNT, and for the device of every OST kept in a file |
| `OstCountStays.CountSurvivesDiskRewrites` | ltvm_pkg/deploy.py:912-916 | with the disk block in its place, any number of disk rewrites undoes no setting of configure_ost_count |
| `OstCountStays.CountStaysWhenSourced` | ltvm_pkg/deploy.py:926-962 | sourced, the count then holds unless the environment sets another, and every OST past the disks is in its file |
| `OstCountStays.DiskStaysFirst` | ltvm_pkg/deploy.py:715-736 | a disk block that comes before the OST count block stays before it, whatever is edited |
| `OstCountStays.DeploysPutDisksFirst` | ltvm_pkg/deploy.py:357-399 | every deploy of a VM with disks puts it there with its first edit, for the rest of the deploy and any edits after it |
| `OstCountStays.MountsUndoNothing` | ltvm_pkg/vm_commands.py:2021-2028 | after every deploy onto a stock file any number of llmounts with the same disks undoes no setting: with disks the blocks stay the very same, and without them every variable but the two of the clients is set as before |
| `OstCountStays.DeployedFileStays` | ltvm_pkg/vm_commands.py:2021-2028 | on the lines: with disks, the file a deploy leaves is the file after every llmount |
| `OstFiles.OstFilesFit` | ltvm_pkg/deploy.py:876-897 | a size is found if and only if the space of the error message is free and the cap is 0 or at least the minimum; it is MiB-aligned, within the cap, and all files fit beside the reserve |
| `OstFiles.OstFilesAreLargest` | ltvm_pkg/deploy.py:876-887 | no larger aligned size within the cap would fit |
| `KeptBlocks.FindBlock` | ltvm_pkg/deploy.py:1030-1045 | the two searches find the text from the first begin marker through the first end marker after it, or nothing |
| `KeptBlocks.ParseKeptBlocks` | ltvm_pkg/deploy.py:1025-1053 | the loop fills the dictionary with exactly the complete blocks, the FSTYPE one upgraded |
| `KeptBlocks.UpgradeIdempotent` | ltvm_pkg/deploy.py:1045-1053 | upgrading a pinned FSTYPE twice is upgrading it once |
| `KeptBlocks.ReadOfRender` | ltvm_pkg/deploy.py:1025-1053 | in a sound file what is read is the text of the block of that kind |
| `Redeploy.ReadIsPrefix` | ltvm_pkg/deploy.py:1025-1053 | in any file a block text is read if and only if it follows the first begin marker of its kind |
| `Redeploy.RestoreEndsWith` | ltvm_pkg/deploy.py:1066-1089 | restoring into any file without those blocks appends one text, which depends on the dictionary alone |
| `Redeploy.RestoreIsExact` | ltvm_pkg/deploy.py:1066-1089 | for any blocks and any new file without them, all restored blocks are read back if and only if each is whole in that text |
| `Redeploy.RedeployIsExact` | ltvm_pkg/deploy.py:1056-1089 | so for any old file and any new one, whatever else they hold |
| `Redeploy.RedeployKeptExactly` | ltvm_pkg/deploy.py:1056-1089 | the dictionary read from the new file is the old one without the skipped blocks if and only if, besides, the texts make up no other kept block |
| `Redeploy.RedeployKeepsBlocks` | ltvm_pkg/deploy.py:1056-1089 | for any two files: nothing is lost or changed when no restored text holds the begin marker of a kept block that is restored later or not at all |
| `Redeploy.OthersStay` | ltvm_pkg/deploy.py:390-399 | a block the deploy wrote itself and skips is read as the new file has it |
| `Redeploy.RestoreIsARunOfEdits` | ltvm_pkg/deploy.py:1066-1089 | restoring whole blocks is a run of edits, so every result about runs of edits holds of redeployed files |
| `Redeploy.RedeploysKeepBlocks` | ltvm_pkg/deploy.py:1025-1089 | any number of redeploys from any old file, each onto another file, loses and changes no kept block under that condition |
| `Redeploy.TwoBlocksExact` | ltvm_pkg/deploy.py:1066-1089 | with two blocks to restore, both come back if and only if the earlier does not hold the begin marker of the later, or is still what follows its own marker with the later put in |
| `Redeploy.NestedIsHarmless` | ltvm_pkg/deploy.py:1066-1089 | a block that lies whole within an earlier one does no harm |
| `Redeploy.CrossingIsHarmless` | ltvm_pkg/deploy.py:1066-1089 | nor does one that begins in the earlier block and runs past its end, with those two alone |
| `Redeploy.ThreeBlocksExact` | ltvm_pkg/deploy.py:1066-1089 | with all three, and the FSTYPE marker in neither of the others, they come back if and only if no cluster block begins in the other two, or it fits in both and is ended in the OST count block |
| `Redeploy.OverlappingBlocksLoseOne` | ltvm_pkg/deploy.py:1066-1089 | from every old file whose cluster block begins inside the OST count block and ends after it, onto every new file, the FSTYPE block below them does not come back |
| `GuestFile.LocalShFile.DeleteRange` | ltvm_pkg/deploy.py:808-809 | the sed pass in place is the range delete |
| `GuestFile.LocalShFile.RewriteBlock` | ltvm_pkg/deploy.py:729-734 | the awk pass in place is the rewrite |
| `GuestFile.LocalShFile.SpliceBlock` | ltvm_pkg/deploy.py:715-736 | save lines, then rewrite in place or append |
| `GuestFile.LocalShFile.Configure` | ltvm_pkg/deploy.py:620-1010 | each configure_* call changes the file as specified, or reports a refusal and leaves it alone |
| `GuestFile.LocalShFile.RestoreKept` | ltvm_pkg/deploy.py:1066-1089 | the loop puts the blocks that are not skipped back in their fixed order |
| `GuestFile.LocalShFile.Redeploy` | ltvm_pkg/deploy.py:1056-1089 | reading the old file, replacing it and restoring gives the file `RedeployKeepsBlocks` speaks of |
| `PodmanLock.StepKeeps` | ltvm_pkg/host_setup.py:1616-1688 | every step of every process, the two-step conversion and crashes included, keeps the lock exclusive or shared and tied to the process's own hold |
| `PodmanLock.AutoStopIsAlone` | ltvm_pkg/host_setup.py:1659-1688 | no auto-stop stops the machine while another process has the lock in any mode |
| `PodmanLock.MachineStaysUp` | ltvm_pkg/host_setup.py:44-107 | from the step that passes the preflight, and while the process keeps its hold, the machine runs, in every interleaving without a stop from outside |
| `PodmanLock.MachineStaysUpUnlessKilled` | ltvm_pkg/host_setup.py:1622-1650 | with no process killed inside its stop and no stop by hand, nothing stops the machine under a holder |
| `PodmanLock.OnlyTheOwnerLetsGo` | ltvm_pkg/host_setup.py:1659-1688 | a hold ends only by its owner's own conversion, refusal or exit |
| `PodmanLock.OrphansComeFromKills` | ltvm_pkg/host_setup.py:1603-1609 | a stop command outlives its process only if that process was killed inside the stop |
| `PodmanLock.LateHoldLosesTheMachine` | ltvm_pkg/host_setup.py:1622-1650 | a hold taken only after the preflight does not protect |
| `PodmanLock.HolderIsExposedExactly` | ltvm_pkg/host_setup.py:1603-1688 | from every sound state, a holder can lose a running machine without a stop by hand if and only if the stop command of a killed process is still running |
| `PodmanLock.EveryHolderIsExposedExactly` | ltvm_pkg/host_setup.py:1603-1688 | that holds in every state of every run |
| `PodmanLock.KilledStopLosesTheMachine` | ltvm_pkg/host_setup.py:1603-1609 | a run in which it happens |
| `SshStanza.StripSshBlock` | ltvm_pkg/host_setup.py:2709-2743 | the line loop computes the specified strip |
| `SshStanza.StripLeavesOthersAlone` | ltvm_pkg/host_setup.py:2709-2743 | text without the marker is unchanged |
| `SshStanza.StripIsFinal` | ltvm_pkg/host_setup.py:2709-2743 | for every text the result is a marker-free subsequence of its lines, and stripping again changes nothing |
| `SshStanza.StripUndoesAppend` | ltvm_pkg/host_setup.py:2709-2777 | stripping a file around the appended stanza gives what was before, one newline and what came after, if and only if what came after is empty or starts with an unindented, non-blank line |
| `SshStanza.SetupIsIdempotent` | ltvm_pkg/host_setup.py:2746-2777 | setting up the same subnet twice changes nothing more |
| `SshStanza.SetupLeavesOneStanza` | ltvm_pkg/host_setup.py:2746-2777 | a setup that writes leaves exactly one stanza, at the end, which a later strip takes away again |
| `SshStanza.SetupMovesSubnet` | ltvm_pkg/host_setup.py:2754-2777 | a new subnet replaces the stanza of the old one and leaves its newline behind |
| `NicSpec.ParseSpec` | ltvm_pkg/nic_spec.py:47-98 | the item loop that fills the dictionary computes the specified parse, with its errors in their order |
| `NicSpec.Show` | ltvm_pkg/nic_spec.py:100-109 | the loop over the keys writes the canonical text |
| `NicSpec.ConvertIsCanonical` | ltvm_pkg/nic_spec.py:130-206 | every converter normalises once: converting its result's text gives the result |
| `NicSpec.ParsedIsOk` | ltvm_pkg/nic_spec.py:47-98 | whatever is accepted has canonical values, only keys of its type, a BDF when it needs one, and the LND of its type |
| `NicSpec.PrintedReadsBack` | ltvm_pkg/nic_spec.py:100-109 | the canonical text of such a spec is read back as that spec, or refused for its length only |
| `NicSpec.CanonicalTextRoundTrip` | ltvm_pkg/nic_spec.py:47-109 | for every accepted text, parsing the canonical text of the result gives the same spec if and only if that text is within 512 characters, and so for stored specs; an accepted text loads as what it parses to |
| `NicSpec.LongTextHasKeys` | ltvm_pkg/nic_spec.py:241-260 | canonical text that is too long is never loaded as the junk of older versions |
| `NicSpecSpelling.KeyOrderDoesNotMatter` | ltvm_pkg/nic_spec.py:66-85 | two neighbouring key=value items of an accepted list may trade places without changing what is read |
| `NicSpecSpelling.AnyOrderReadsTheSame` | ltvm_pkg/nic_spec.py:66-85 | so may they all: every permutation of the items is read the same |
| `NicSpecSpelling.SpecInAnyOrder` | ltvm_pkg/nic_spec.py:47-98 | and so is the whole spec |
| `NicSpecSpelling.PositionalIsBdf` | ltvm_pkg/nic_spec.py:67-75 | a passthrough BDF without its key is read, and refused, as with it |
| `NicSpecSpelling.ZerosSpellSubnet` | ltvm_pkg/nic_spec.py:159-195 | leading zeros in the prefix length do not change the subnet that is read |
| `NicSpecSpelling.NetmaskSpellsSubnet` | ltvm_pkg/nic_spec.py:159-195 | nor does writing the prefix length as a netmask |
| `NicSpecSpelling.HostmaskSpellsSubnet` | ltvm_pkg/nic_spec.py:159-195 | nor as a host mask, /0 and /32 aside |
| `NicSpecLength.CanonicalTextIsShort` | ltvm_pkg/nic_spec.py:47-109 | without an IPv6 subnet the canonical text is never longer than the accepted one, so it is always read back |
| `NicSpecLength.CanonicalTextCanBeTooLong` | ltvm_pkg/nic_spec.py:53-56 | wherever canonical IPv6 text is longer than the text given, as 1:2:3:0:5:6:7:8/126 is than 1:2:3::5:6:7:8/126, a spec of 512 characters is accepted whose canonical text is refused |
| `Ipv4.QuadRoundTrip` | ltvm_pkg/nic_spec.py:167 | every IPv4 address is read back from its dotted quad |
| `Ipv4.Net4RoundTrip` | ltvm_pkg/nic_spec.py:159-195 | every IPv4 network without host bits is read back from its CIDR text |
| `Ipv4.MaskPrefixMeans` | ltvm_pkg/nic_spec.py:167 | a number is read as a prefix length if and only if it is that prefix's netmask |
| `Ipv4.PrefixWithZeros` | ltvm_pkg/nic_spec.py:167 | leading zeros do not change a prefix length |
| `Ipv4.PrefixAsNetmask` | ltvm_pkg/nic_spec.py:167 | a netmask is read as its prefix length |
| `Ipv4.PrefixAsHostmask` | ltvm_pkg/nic_spec.py:167 | so is a host mask, except that those of /0 and /32 are read as the netmasks they are too |
| `Ipv4.ColonIsNotV4` | ltvm_pkg/nic_spec.py:167 | text with a colon is never read as IPv4, so trying IPv4 first does not shadow IPv6 |
| `FileTree.SafeStaysBelowRoot` | ltvm_pkg/local_install.py:676-688 | whatever a manifest says, an entry that passes the check names a plain path below the root |
| `FileTree.SafeNames` | ltvm_pkg/local_install.py:676-688 | the name of a real path passes if and only if it does not start with `-` |
| `Install.InstalledIsWellFormed` | ltvm_pkg/local_install.py:515-568 | merging a staging tree gives a tree |
| `Install.ExtractionIsOrderly` | ltvm_pkg/local_install.py:515-568 | at every point of the extraction there is a tree, what is outside the staging tree is untouched and what is new comes from it; in the end it is the merged tree |
| `Install.PruneIsExact` | ltvm_pkg/local_install.py:747-767 | one deepest-first pass removes exactly the directories that are open for pruning and hold, at any depth, only such directories |
| `Install.EmptyWhenItsTurn` | ltvm_pkg/local_install.py:510-512 | in deepest-first order a directory is empty when its turn comes if and only if everything below it goes |
| `Uninstall.TakenExactly` | ltvm_pkg/local_install.py:691-724 | the manifest's rm takes exactly the shipped files whose names are safe |
| `Uninstall.FilesAreRestored` | ltvm_pkg/local_install.py:489-724 | install and uninstall restore the root's files if and only if nothing was overwritten and nothing shipped is beyond the manifest's reach |
| `Uninstall.PlainTreesAreRestored` | ltvm_pkg/local_install.py:489-724 | in particular for every staging tree of safe names without directory links that overwrites nothing |
| `Uninstall.PartialInstallIsUndone` | ltvm_pkg/local_install.py:489-724 | an install that died after any entry is undone as well |
| `Uninstall.PruneIsClean` | ltvm_pkg/local_install.py:747-767 | a removed directory held nothing that stays, and no directory open for pruning is left empty |
| `Uninstall.TreeIsRestored` | ltvm_pkg/local_install.py:489-767 | the very same tree comes back if and only if no file is lost, every new directory is open for pruning, and the root had no directory a prune would have taken |
| `Uninstall.ShallowFirstLeavesEmptyDirs` | ltvm_pkg/local_install.py:510-512 | in the other order an empty directory stays behind |
| `InstallRoot.StagingContents` | ltvm_pkg/local_install.py:489-512 | the walk lists exactly the shipped files, by name, and all directories, deepest first and then by name |
| `InstallRoot.Root.InstallStaging` | ltvm_pkg/local_install.py:515-568 | extracting entry by entry and dying after any of them leaves a tree in which every entry outside the staging tree is untouched and every new one comes from it |
| `InstallRoot.Root.RemoveInstalledFiles` | ltvm_pkg/local_install.py:691-724 | removal in chunks takes the targets rm can remove, and counts those really gone |
| `InstallRoot.Root.SurvivingInstalledFiles` | ltvm_pkg/local_install.py:732-744 | the list is exactly the safe manifest entries still in the tree, in manifest order |
| `InstallRoot.CountTellsSuccess` | ltvm_pkg/local_install.py:691-724 | the count is the number of targets if and only if rm failed on none |
| `InstallRoot.NoSurvivorsMeansAllGone` | ltvm_pkg/local_install.py:732-744 | when no survivor is reported, no safe entry is left and rm failed on no target |
| `InstallRoot.Root.PruneEmptyDirs` | ltvm_pkg/local_install.py:747-767 | the rmdir loop gives the pruned tree and counts the directories removed |
| `Qcow2.BackingNameRoundTrip` | ltvm_pkg/image_store.py:110-133 | every backing name that fits a header is read back from it, json: names excepted |
| `Qcow2.BackingIsClassified` | ltvm_pkg/image_store.py:194-205 | a file never both names a backing file and has none, and when it is neither is told exactly |
| `ImageStore.HeaderNamesBase` | ltvm_pkg/image_store.py:110-133 | the header of a new overlay tells the file it was created on, and an unreadable one tells nothing |
| `ImageStore.PruneKeeps` | ltvm_pkg/image_store.py:169-191 | a prune, with unlink failing anywhere, takes no image from under an overlay or a pointer |
| `ImageStore.StepKeeps` | ltvm_pkg/image_store.py:74-191 | installs, creates, destroys, prunes, lost records and garbled headers all keep pointers and overlays intact |
| `ImageStore.EveryRunIsIntact` | ltvm_pkg/image_store.py:40-53 | in every state of every run the pointers resolve and every overlay has its own image under it |
| `ImageStore.AlwaysAnImage` | ltvm_pkg/image_store.py:40-53 | a directory that has a current image has one ever after |
| `ImageStore.ImageUnderOverlayStays` | ltvm_pkg/image_store.py:1-14 | the image a VM was created on stays the same, size and content, until the VM is destroyed |
| `ImageStore.InstallIsAtomicToReaders` | ltvm_pkg/image_store.py:74-97 | at every point of an install the current image is the old or the new one, and no other file changes |
| `ImageStore.PruneInsideInstall` | ltvm_pkg/image_store.py:85-97 | a prune between the two halves leaves the new image if and only if it refuses to remove anything or the image is referenced already |
| `ImageStore.PruneIsExact` | ltvm_pkg/image_store.py:169-191 | a prune leaves exactly the current image, the referenced ones and what is no image, and pruning again removes nothing |
| `ImageStore.UnknownStopsPrune` | ltvm_pkg/image_store.py:169-191 | one overlay that cannot be classified stops every prune |
| `ImageHost.Host.InstallImage` | ltvm_pkg/image_store.py:85-97 | the image goes in under a versioned name that was free, as one install step: the store stays intact, the image is current and no other file changes |
| `ImageHost.Host.ReferencedImages` | ltvm_pkg/image_store.py:136-166 | the two loops gather exactly the referenced images and the overlays that stay unknown |
| `ImageHost.Host.PruneSuperseded` | ltvm_pkg/image_store.py:169-191 | the prune in place gives the pruned store, and the bytes it reports are the bytes that are gone |
| `ImageHost.RecordedImageIsRequired` | ltvm_pkg/image_store.py:208-239 | a recorded identity never changes, and from then on a VM boots on a readable backing file if and only if it has that identity |
| `ImageHost.AdoptedImageIsRequired` | ltvm_pkg/image_store.py:240-261 | an identity adopted at one boot is required at every later one |

## Left out

- Running commands (ssh, podman, tar, rm, QEMU): each is a step that succeeds, fails or dies.
- The podman cleanup-EOF branch of the Lustre build: success is that the script finished.
- Users running configure by hand, and kernels rebuilt under the same release string. Trees start without stamps.
- Losing the tree claim alone is a counterexample, not an event of the runs; cleaning the tree removes stamps and claim together or stamps only.
- Failure to open the launch lock or the tree lock, where the code goes on without it. For the podman lock it is modelled.
- A launcher that dies between the start of QEMU and the recording of its pid.
- `Admission`: the budget is fixed during a run, and floating point is exact. Whoever starts a VM has loaded its record, or just made it; a destroy that lands inside a start, between QEMU's start and its pid file, is left out, and so is a record that a late `set` writes for a VM destroyed before.
- `AllocationRuns`: the management and default subnets are fixed during a run, though `ltvm install --subnet` can change them between runs. All records are readable, since an unreadable one ends the allocation; IPv6 addresses are numbers.
- MD5 and SHA-256 are arbitrary functions; injectivity is assumed only in `MatchingStatusHasSameFlags`.
- Shell expansion beyond `V=text`, `V=${X-}` and `V=${X:-text}` (section 2.6.2 of the POSIX.1-2017 Shell Command Language); stock files are made of plain lines and complete blocks.
- Device names past the thousandth disk; the text the cluster commands write.
- IPv6 text: `NicSpec` takes a reader and a writer of IPv6 networks and assumes that canonical text is read back; upper bounds and forbidden blocks are checked on numbers. Digits other than ASCII ones.
- The texts of error messages.
- `Install`: directory links in the root, and files meeting directories, are left out; rmdir of an empty directory succeeds. Protection by name is as the source has it, by the spelling of the manifest entry.
- `ImageStore`: paths are real paths; creating an overlay and pruning are single steps, and a create or destroy that dies half way is one of its parts. A pointer names a file of its own directory.
- `ImageHost.Host.InstallImage`: takes the names to try as a list of versioned names with a free one in it; the source draws names until one is free.
- `ImageHost.Host.PruneSuperseded`: files are visited in any order.
- `cluster_failover.py`, `lustre_compat.py`, `completion.py`, `meta_schema.py`, `cross_compile.py`, `image_export.py` and the downloads: tables and plumbing that would add only easy members, or work done by scripts that are not part of this model.
