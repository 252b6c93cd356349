# Verification of kc-utils

kc-utils converts virtual machines for KVM: it downloads disks, prepares and converts the
guest in stages, edits its configuration, and hands over the result. This project models the
parts of it that hold algorithms and state, and proves what they promise.

| files | what they model |
|---|---|
| `VmdkFormat`, `VmdkGrammar`, `VmdkTarget`, `VmdkStream`, `Streams`, `Progress` | the decoder of stream-optimized VMDK images ("Stream-Optimized Compressed Sparse Extents" in VMware's Virtual Disk Format 5.0): its meaning as a function of the bytes, a grammar of records that meaning is compared with, the target, and the imperative decoder |
| `CopyRun` | the concurrent copy of disks under one lease, as steps of goroutines in any order |
| `Overlay`, `Pipeline` | the qcow2 overlay transaction and the stages run inside it around a restartable listener |
| `MountPlans`, `QemuPaths`, `QemuMounts` | path rebasing and the mount table of the qemu backend |
| `LvmAliases`, `GuestfsSpecs`, `GuestfsHost`, `GuestfsSession`, `GuestfsBackend` | device aliases, mount specs, and the lazily mounted, restartable session of the guestfs backend |
| `AgentProtocol`, `AgentCalls` | frames between host and appliance, the agent's loop, and concurrent callers |
| `Grub`, `Fstab`, `Bls`, `Remap`, `StaticIps`, `ShellQuote`, `GuestfishLines`, `DiskNames` | parsers and printers of configuration files, command lines and names |
| `Bytes`, `Text`, `Paths`, `Results` | Go's int64 arithmetic, strings, strconv and path/filepath as far as needed |

Objects that the source updates in place are classes here, and its loops are loops; each
method is proved against a function, and the lemmas speak about that function. What the
programs cannot control (commands, connections, processes) is answered by oracles, so every
theorem holds for all of their answers.

`dafny verify dfyconfig.toml` checks the project.

## Findings

What the code does where its documentation, or a reader, might expect something else; each is shown by the members named.

- A sparse download onto a block device that is not zeroed leaves old data in the holes, and onto a file leaves it too short when the disk ends in a hole (`ReproducesIff`, `FileLengthIsCapacityIff`).
- A VMDK stream cut between records, or within a marker or padding, is taken for complete (`TruncatedRecords`, `CutStream`); so is a grain whose zlib stream is cut; one that inflates to more than a grain is cut without an error; and a whole one is written without a look at its checksum (`LooseInflate`, and exactly these, `UnsoundGrainIff`).
- Overhead and metadata sector counts beyond 2^54 wrap, and the skip is then silently a different one (`OverheadSkipExact`, `MetadataSkipExact`).
- A percentage can overflow (`OverflowedPercent`; `PercentExact` says exactly when it is right).
- With "/" as mount root, the containment test refuses every mount point below it (`HostMountUnderRootIff`, `SlashRootRefuses`).
- Recorded mount points are ordered by their length as written, so with ones that are not clean a child's mount can come before its parent's in the adopted table (`UncleanPlansMisordered`; `ParentsFirstIff` says exactly when), and then one UnmountAll does not do (`AdoptAndUnmount`).
- What inspection found is not mounted again after an unmount (`SpecsAfterUnmount`, `InspectionForgottenIff`).
- `deviceEqual` confuses VG and LV names when an LV starts with a hyphen (`LvPathsEqualIff`), is not transitive (`NotTransitive`; `TransitiveIff` says exactly when), and calls the empty device equal to itself (`DeviceEqualReflexive`).
- When a guestfish restart gets a listener but no appliance, the flag for active mounts stays set, and the next commands run on an appliance with nothing mounted (`TryRestart`, `CommandAfterHalfRestart`, `HalfRestartRun`).
- If prepare is tried again and then leaves null in place of its section, the pipeline panics (`PrepareEnding`), and the guest is not torn down, since the error that is looked at was not set (`RunPipelineOnceBody`, `PanicRun`).
- The agent's serve loop returns without an error when the stream ends inside a frame (`Serve`).
- A reply that is too large for a frame, of a file over 402653175 bytes say, is given up by the agent, which then waits for the next request; its caller waits too, without a deadline and holding the mutex, and so does every other (`GetsStuckIff`, `StuckForGood`, `LostReplyStops`, `DataReplyFitsIff`).
- An fstab grows by one blank line each time it is remapped, and an entry of fewer than three columns comes back with its columns shifted, which two-column crypttab lines suffer as well (`Fstab.ReadsBackIff`).
- A grub key set on two lines is edited on the first, while the last one counts (`IndexFollowsIff`).
- An argument with white space in its name is added to the grub command line at every call (`AddTwiceIff`), and a setting whose remapped arguments have a quote at an end does not read back (`GrubRemapReadsBackIff`).
- Masks that are not 1 to 32 leading ones, 0.0.0.0 among them, come back changed (`MaskReadsBackIff`).
- An argument with a line break makes a guestfish script of several lines (`OneLineIff`), and a path does not arrive as it was given if it is empty, has a line break, or needs no quotes and begins with a tilde or a pipe or ends its line in white space (`PathsReadBackIff`).

## Model

| member | source | states |
|---|---|---|
| VmdkFormat.PadLength | pkg/copy/vmdk.go:239-246 | the padding after a grain is shorter than a sector and ends it on a sector boundary |
| VmdkFormat.ParseHeader | pkg/copy/vmdk.go:81-111 | an accepted header has a capacity whose byte size fits int64 and a grain of 1 byte to 64 MiB |
| VmdkGrammar.PlaceExact | pkg/copy/vmdk.go:253-264 | the overflow-checked range test accepts exactly the grains that unbounded arithmetic puts inside the capacity, at that offset |
| VmdkGrammar.OverheadSkipExact | pkg/copy/vmdk.go:119-125 | the overhead skip is the declared one if and only if its byte length fits int64; otherwise it wraps |
| VmdkGrammar.MetadataSkipExact | pkg/copy/vmdk.go:210-222 | the same for the sector count of a metadata marker |
| VmdkGrammar.StepGrain | pkg/copy/vmdk.go:226-278 | a whole valid grain, whatever follows it, makes one write of its data at its sector, and its padding may be cut by the end of the input |
| VmdkGrammar.StepMetadata | pkg/copy/vmdk.go:187-224 | a metadata record is skipped whole, sectors and all, and writes nothing |
| VmdkGrammar.DecodeRecords | pkg/copy/vmdk.go:141-169 | in front of any bytes, valid records make the loop issue exactly the writes of their grains, in order, and go on with those bytes |
| VmdkGrammar.DecodeTail | pkg/copy/vmdk.go:141-171 | each way a stream may end without an error, with the write a grain cut in its padding still makes |
| VmdkGrammar.GrainStepReads | pkg/copy/vmdk.go:226-278 | conversely a turn that writes has read a valid grain record and writes what that record stands for |
| VmdkGrammar.MetadataStepReads | pkg/copy/vmdk.go:187-224 | conversely a turn that skips has read a valid metadata record |
| VmdkGrammar.StopReads | pkg/copy/vmdk.go:146-162 | conversely a turn that ends the loop has read an end marker or a cut marker |
| VmdkGrammar.FinishesIffReads | pkg/copy/vmdk.go:141-171 | on any input the loop ends without an error if and only if the input is a string of the record grammar, and then the writes are those of the records, however the string is read |
| VmdkGrammar.BrokenFinishesAtEndMarker | pkg/copy/vmdk.go:146-151 | over a connection that fails instead of ending, success means that an end marker was read |
| VmdkGrammar.TruncatedRecords | pkg/copy/vmdk.go:141-171 | records cut anywhere leave the writes of exactly the grains complete before the cut, and it is an error unless the cut is at one of the quiet places |
| VmdkGrammar.LooseInflate | pkg/copy/vmdk.go:28-51 | a grain whose zlib stream is cut or inflates to more than a grain is written as far as it goes or as a grain takes, and a whole one with a wrong checksum as it is |
| VmdkGrammar.UnsoundGrainIff | pkg/copy/vmdk.go:28-51 | what is written for a grain is not what a sound zlib stream holds if and only if it is one of those and in range |
| VmdkGrammar.KeptIsPrefix | pkg/copy/vmdk.go:226-278 | what a cut leaves is a prefix of what the whole stream writes |
| VmdkTarget.MarkersAligned | pkg/copy/vmdk.go:141-169 | on any input every marker is read at a multiple of 512 bytes or at the end of the input |
| VmdkTarget.FirstMarkerAligned | pkg/copy/vmdk.go:119-125 | the first marker is read at a multiple of 512 bytes, even where the overhead skip wraps |
| VmdkTarget.WritesInsideCapacity | pkg/copy/vmdk.go:253-271 | on any input no write leaves the declared capacity |
| VmdkTarget.ImageIsLastByte | pkg/copy/vmdk.go:266-271 | each byte of the image is that of the last write covering it, and bytes never written are not in it |
| VmdkTarget.ReproducesIff | pkg/copy/download.go:33-37 | writes that agree with a disk reproduce it on a target if and only if the target held the disk's bytes wherever nothing is written: a block device is not zeroed first |
| VmdkTarget.DiskRoundTrip | pkg/copy/vmdk.go:71-172 | a disk exported sparsely and decoded is the disk again if and only if the target held zeros where grains were left out |
| VmdkTarget.DiskRecordsAgree | pkg/copy/vmdk.go:226-278 | exporting a disk grain by grain yields valid records that agree with the disk and leave out only zeros |
| VmdkTarget.CutStream | pkg/copy/vmdk.go:71-172 | a whole stream of header, overhead, records and end marker cut anywhere: no header or overhead skip is an error and nothing is written; from there on the writes are those of the grains complete before the cut, and the end is an error unless the cut is quiet, as every cut in the end marker is |
| VmdkTarget.MadeHeaderParses | pkg/copy/vmdk.go:76-111 | a header made for a capacity and a grain size is read back as those, so the round trip has inputs |
| VmdkTarget.FileLengthIsCapacityIff | pkg/copy/vmdk.go:266-271 | a file target ends up as long as the disk if and only if some write reaches the last byte |
| VmdkStream.VmdkStreamReader.constructor | pkg/copy/vmdk.go:127-138 | the buffers start at one grain, and a compressed grain may take up to two |
| VmdkStream.VmdkStreamReader.ProcessMetadataMarker | pkg/copy/vmdk.go:187-224 | the method does to the cursor and returns what the format function says of a metadata marker |
| VmdkStream.VmdkStreamReader.Decompress | pkg/copy/vmdk.go:28-51 | the first bytes of the reused grain buffer are the payload, or an error is returned |
| VmdkStream.VmdkStreamReader.ReadGrainData | pkg/copy/vmdk.go:227-251 | reading and decompressing one grain into the reused buffers is the format function's grain data, with the same errors |
| VmdkStream.VmdkStreamReader.WriteGrain | pkg/copy/vmdk.go:253-277 | image, remaining room, byte count and progress after the write of one grain; all unchanged when the range test refuses it |
| VmdkStream.VmdkStreamReader.ProcessCompressedGrain | pkg/copy/vmdk.go:226-278 | both halves of a grain together |
| VmdkStream.VmdkStreamReader.Turn | pkg/copy/vmdk.go:141-169 | one turn of the loop, cancellation included |
| VmdkStream.VmdkStreamReader.Run | pkg/copy/vmdk.go:141-171 | the loop terminates, and its error, image, byte count and progress are those of the format function on the bytes ahead |
| VmdkStream.StreamToRaw | pkg/copy/vmdk.go:71-172 | the whole decoder refines the format function, cut where the target runs out of room |
| VmdkStream.CountsArePartialSums | pkg/copy/vmdk.go:273-276 | written is the sum of the grain lengths written, and each count reported a partial sum, while the sum fits int64 |
| VmdkStream.DecodeProgress | pkg/copy/download.go:58-71 | over a whole decode the percentages strictly increase within 0..100, at most 21 of them, while the total stays below MaxInt64/100 |
| Progress.ProgressMeter.Report | pkg/copy/download.go:58-71 | one callback updates the last percentage and reports as the specification function says |
| Progress.AtMost21Callbacks | pkg/copy/download.go:58-106 | the same for any counts that never fall, from any state of the callback |
| Progress.PercentExact | pkg/copy/download.go:63-66 | the percentage is the true one if and only if the count times 100 fits int64, or the count is beyond the total and wraps to a hundred percent or more |
| Progress.OverflowedPercent | pkg/copy/download.go:63-66 | a total that is a multiple of 512, as the decoder's are, at whose end a percentage of -99 is reported |
| CopyRun.ClampConcurrency | pkg/copy/copy.go:55-67 | at least one, at most the number of disks, and lowered only to that |
| CopyRun.Plan | pkg/copy/copy.go:119-148 | a plan has as many targets as selected disks and a positive concurrency |
| CopyRun.StepKeepsInv | pkg/copy/copy.go:162-236 | every step of a worker or of the main goroutine keeps the invariant on once, lock, progress, contents, slots and lease |
| CopyRun.ReachableInv | pkg/copy/copy.go:155-236 | so every state of every interleaving satisfies it |
| CopyRun.BoundedConcurrency | pkg/copy/copy.go:148-174 | never more workers inside CopyDisk than ClampConcurrency allows |
| CopyRun.NoDeadlock | pkg/copy/copy.go:166-224 | some step is possible until Run returns |
| CopyRun.StepDecreases | pkg/copy/copy.go:166-224 | every step brings the end closer |
| CopyRun.EveryRunTerminates | pkg/copy/copy.go:155-236 | at most ten steps a disk and one more, and a run that cannot go on has returned |
| CopyRun.LeaseResolvedOnce | pkg/copy/copy.go:119-236 | on return either nil, every target copied from its own selected disk, one progress entry a disk and Complete called once, or an error, some disk's own once copying had begun, and Abort called once |
| CopyRun.LeaseUntouchedBefore | pkg/copy/copy.go:162-226 | before the return the lease is neither completed nor aborted |
| Overlay.OverlayPathsDistinct | pkg/prepare/guest/overlay/overlay.go:33 | disks at different places get different overlay files, whatever their images are called |
| Overlay.ImageStore.QemuCreate | pkg/prepare/guest/overlay/overlay.go:39-42 | what is assumed of qemu-img create: success adds an empty overlay, failure may leave one |
| Overlay.ImageStore.QemuCommit | pkg/prepare/guest/overlay/overlay.go:64-67 | what is assumed of qemu-img commit: success merges, failure leaves that backing image in any state |
| Overlay.CreateOverlays | pkg/prepare/guest/overlay/overlay.go:27-58 | on success every disk is on its own empty overlay, whatever the working directory is and even if two disks share an image; on failure no overlay file is left, disks and backing images are as before |
| Overlay.RunWrites | pkg/prepare/guest/overlay/overlay.go:112-116 | writes made to the paths the disks have go to the overlays only |
| Overlay.OverlaysReadThrough | pkg/prepare/guest/overlay/overlay.go:101-122 | while the work runs the backing images are untouched, and each overlay reads as its backing image with the writes on top |
| Overlay.CommitOverlays | pkg/prepare/guest/overlay/overlay.go:61-76 | the images hold exactly what the disks before the first failing commit wrote, later disks over earlier ones, but for the image of that one; no overlay is left either way |
| Overlay.MergedAlone | pkg/prepare/guest/overlay/overlay.go:61-76 | so a disk alone on its image finds there its own writes and no others |
| Overlay.CommittedReadsAsIff | pkg/prepare/guest/overlay/overlay.go:61-76 | and any image is what its disk read before the commits if and only if what all the disks on it wrote agrees with that |
| Overlay.DiscardOverlays | pkg/prepare/guest/overlay/overlay.go:79-88 | all overlay files that can be removed are, and the disks are back on their backing images |
| Overlay.RestorePaths | pkg/prepare/guest/overlay/overlay.go:90-98 | each disk points at the backing image of its overlay |
| Overlay.FinishTransaction | pkg/prepare/guest/overlay/overlay.go:106-121 | commit only if the work succeeded, discard after an error or a panic, deferred second discard included |
| Overlay.RunWithOverlay | pkg/prepare/guest/overlay/overlay.go:101-122 | however it ends no overlay file is left and every disk is on its backing image; the images hold all writes or those of exactly the disks before a failing commit if the work succeeded, and none if it returned an error or panicked |
| Overlay.SharedImageIff | pkg/prepare/guest/overlay/overlay.go:61-76 | of two disks on one image each reads as before both commits if and only if the other wrote only what that says anyway, or wrote it first and it was written over |
| Pipeline.LegalCounts | pkg/cmd/v2v/pipeline.go:129-146 | in a legal run a listener is started at most once, and closed once unless it is the one still open |
| Pipeline.EachClosedOnce | pkg/cmd/v2v/pipeline.go:139-146 | when none is open every listener started was closed exactly once, and no other |
| Pipeline.ClosedBeforeResolved | pkg/cmd/v2v/pipeline.go:96-107 | every listener started was closed before any commit or discard |
| Pipeline.ClosedAfterStarted | pkg/cmd/v2v/pipeline.go:327-352 | at any moment no listener has been closed more often than started |
| Pipeline.Orchestrator.SetupSharedListener | pkg/cmd/v2v/pipeline.go:174-196 | a listener if the backend shares one, or an error and nothing started |
| Pipeline.PrepareEnding | pkg/cmd/v2v/pipeline.go:221-248 | the prepare stage panics if and only if the first file it reads asks for a second try, a root is chosen, and the second file says null in place of its section |
| Pipeline.Orchestrator.EnsureSharedListener | pkg/cmd/v2v/pipeline.go:327-352 | either nothing happens, or a new listener is started and then the old one closed, in that order; the stages' environment keeps its network setting and names the listener that is open |
| Pipeline.Orchestrator.RunPrepareStage | pkg/cmd/v2v/pipeline.go:210-248 | prepare runs once, or a second time after a first run that worked and a file that asked for it, and no more; unless something else fails it ends, panic included, as the files read say |
| Pipeline.Orchestrator.RunConvertStage | pkg/cmd/v2v/pipeline.go:250-268 | convert runs exactly once, and the stage fails if it does |
| Pipeline.Orchestrator.RunFinalizeStage | pkg/cmd/v2v/pipeline.go:270-277 | finalize runs exactly once, and the stage fails if it does |
| Pipeline.Orchestrator.RunPipelineOnceBody | pkg/cmd/v2v/pipeline.go:129-169 | all three stages in order on success; after an error once it was set up exactly one teardown, before the close; none after a panic, which comes after two good prepare runs and nowhere else; no listener left open in any case |
| Pipeline.PanicRun | pkg/cmd/v2v/pipeline.go:129-169 | a run that panics: its trace is the start, two prepare runs and the close, with no teardown |
| Pipeline.Orchestrator.RunPipeline | pkg/cmd/v2v/pipeline.go:90-107 | over the overlay transaction: commit only if all stages succeeded, last of all and with no listener open, and the images are as the transaction promises for that ending, a panic among them |
| QemuPaths.RebaseAgrees | pkg/backend/plugins/qemu/mount.go:14-23 | for every guest path and absolute mount root the way through the host mount point and the direct mapping give one appliance path |
| QemuPaths.GuestToApplianceBelow | pkg/backend/plugins/qemu/session.go:395-403 | a guest path maps to its names below /mnt/guest, ways above the root cut off |
| QemuPaths.GuestPathsConfined | pkg/backend/plugins/qemu/session.go:395-403 | that path is always at or under /mnt/guest |
| QemuPaths.HostMountUnderRootIff | pkg/backend/plugins/qemu/mount.go:27-39 | the containment test passes for all mount points if and only if the mount root is not "/" |
| MountPlans.SortIsStable | pkg/backend/plugins/qemu/discover.go:208-222 | the order is by length of the mount point, loses nothing and keeps equals in order |
| QemuMounts.OrderMountPlans | pkg/backend/plugins/qemu/discover.go:208-222 | the loop selects exactly the mountable partitions, in that order |
| QemuMounts.Backend.Mount | pkg/backend/plugins/qemu/mount.go:42-74 | a second mount at a target is a no-op or a conflict by its device; a failed one changes nothing; table and live mounts stay in step |
| QemuMounts.Backend.UnmountAll | pkg/backend/plugins/qemu/mount.go:77-96 | exactly the refused entries stay, in the table and live, each in old order; nothing stays if nothing else is refused and parents come before children in both; something does if only the live mounts are in that order |
| QemuMounts.NotBlocked | pkg/backend/plugins/qemu/mount.go:77-84 | in reverse order no entry is blocked by one above or below it |
| QemuMounts.Backend.RemountFromDiskInfos | pkg/backend/plugins/qemu/discover.go:153-167 | table and live mounts stay in step, and with nothing refused the table is the specified one |
| QemuMounts.Backend.MountEntriesFromDiskInfos | pkg/backend/plugins/qemu/discover.go:178-197 | the loop makes the specified table |
| QemuMounts.Backend.RecordAdoptedMounts | pkg/backend/plugins/qemu/discover.go:169-176 | only an empty table is filled |
| QemuMounts.AdoptionMatchesRemount | pkg/backend/plugins/qemu/discover.go:153-197 | so for distinct clean mount points the two tables are one, with each target once and parents first |
| QemuMounts.ParentsFirstIff | pkg/backend/plugins/qemu/discover.go:178-222 | for all partitions, with a mount root other than "/": the adopted table lists parents before children if and only if no plan comes before one whose cleaned mount point is above its own |
| QemuMounts.DistinctTargetsIff | pkg/backend/plugins/qemu/discover.go:178-197 | it has each target once if and only if the cleaned mount points are distinct |
| QemuMounts.AdoptionIsRemountIff | pkg/backend/plugins/qemu/discover.go:153-197 | and it is the table a remount from nothing builds if and only if they are |
| QemuMounts.Backend.RunCalls | pkg/backend/plugins/qemu/mount.go:42-96 | over any run of mounts, unmounts and remounts, with a kernel that may refuse any of them, the table has distinct targets and equals the live mounts in order |
| QemuMounts.Backend.RemountAndUnmount | pkg/backend/plugins/qemu/discover.go:153-167 | after a remount from clean mount points, if nothing else is refused, one UnmountAll empties both |
| QemuMounts.SlashRootRefuses | pkg/backend/plugins/qemu/discover.go:156-162 | under the mount root "/" a remount refuses every mount but the root's, and adoption drops it |
| QemuMounts.UncleanPlansMisordered | pkg/backend/plugins/qemu/discover.go:208-222 | two mount points, one not clean: the adopted table has the child first, so that undoing it in reverse starts with the parent, which is busy |
| QemuMounts.Backend.AdoptAndUnmount | pkg/backend/plugins/qemu/discover.go:169-197 | with a parent process's mounts live and nothing else refused, one UnmountAll after adoption empties both if and only if the plans list parents first |
| LvmAliases.MapperNameIff | pkg/backend/plugins/guestfs/mount_specs.go:190-212 | two VG/LV pairs have one mapper name if and only if they differ at most in hyphens moved from the front of the LV to the end of the VG |
| LvmAliases.LvPathsEqualIff | pkg/backend/plugins/guestfs/mount_specs.go:138-188 | two /dev/VG/LV paths are taken for one device if and only if that is so |
| LvmAliases.LvPathsEqualSamePair | pkg/backend/plugins/guestfs/mount_specs.go:138-188 | for LVs that do not start with a hyphen, if and only if VG and LV are the same |
| LvmAliases.MapperPathIff | pkg/backend/plugins/guestfs/mount_specs.go:138-188 | a mapper path is taken for a /dev/VG/LV path if and only if it is its mapper path |
| LvmAliases.MapperPathUnique | pkg/backend/plugins/guestfs/mount_specs.go:138-212 | so a mapper path is taken for at most one pair |
| LvmAliases.HyphenCollision | pkg/backend/plugins/guestfs/mount_specs.go:190-212 | every VG ending in a hyphen collides with the one without it |
| LvmAliases.OneSidedAliasNever | pkg/backend/plugins/guestfs/mount_specs.go:175-188 | the branches that compare one side's alias with the other side's spelling never apply |
| LvmAliases.DeviceEqualSymmetric | pkg/backend/plugins/guestfs/mount_specs.go:138-157 | the relation is symmetric |
| LvmAliases.DeviceEqualReflexive | pkg/backend/plugins/guestfs/mount_specs.go:138-146 | and reflexive, on the empty name as well, which the code means to refuse: cleaning turns it into "." |
| LvmAliases.NotTransitive | pkg/backend/plugins/guestfs/mount_specs.go:138-169 | but not transitive: for every LV its name in /dev, its mapper path and its VG/LV path |
| LvmAliases.TransitiveIff | pkg/backend/plugins/guestfs/mount_specs.go:138-188 | for all names it fails to be transitive exactly where the middle one is a mapper path, one of the others the leaf of that name directly in /dev, and the third a VG/LV path with that alias |
| GuestfsSpecs.MountSpecsFromDiskInfos | pkg/backend/plugins/guestfs/mount_specs.go:241-265 | the loops collect every partition with a mount point, or the first usable one as the root |
| GuestfsSpecs.MergeMountSpecs | pkg/backend/plugins/guestfs/mount_specs.go:217-239 | the loop with its map computes the merge |
| GuestfsSpecs.MergeKeepsRecorded | pkg/backend/plugins/guestfs/mount_specs.go:214-239 | recorded specs come first and win, inspection adds its first spec of every other mount point, and no mount point is doubled |
| GuestfsSpecs.InspectionForgottenIff | pkg/backend/plugins/guestfs/mount_specs.go:20-40 | without what inspection added the sorted specs are the same if and only if it found no mount point that was not recorded |
| GuestfsSpecs.SortIdempotent | pkg/backend/plugins/guestfs/mount_specs.go:267-285 | sorting again, as the mount script does, changes nothing |
| GuestfsSpecs.ParentsComeFirst | pkg/backend/plugins/guestfs/mount_specs.go:267-273 | no mount point comes before a different one above it |
| GuestfsSpecs.SelectInspectRoot | pkg/backend/plugins/guestfs/mount_specs.go:116-134 | the first root taken for the preferred device, the first root without a preference, an error only if none matches |
| GuestfsHost.Host.MountScriptMounts | pkg/backend/plugins/guestfs/mount_specs.go:275-286 | a mount script that reports no error leaves exactly its plans mounted, whatever was mounted before |
| GuestfsHost.Host.RunLines | pkg/backend/plugins/guestfs/util.go:111-139 | a script's lines act one after the other on the listener until it dies |
| GuestfsHost.Host.RemoteScript | pkg/backend/plugins/guestfs/session.go:481-508 | a script to a listener found dead does nothing; otherwise its effect is that of its lines, on that listener only |
| GuestfsSession.GuestfishSession.EnsureLaunched | pkg/backend/plugins/guestfs/session.go:379-453 | a session is said to be launched only if a probe found its appliance running; no mounts are made |
| GuestfsSession.GuestfishSession.Restart | pkg/backend/plugins/guestfs/session.go:510-531 | a fresh launched appliance, or a dead session left as it was, or a new listener not launched and without mounts |
| GuestfsSession.GuestfishSession.Close | pkg/backend/plugins/guestfs/session.go:533-548 | an owned listener is stopped, an adopted one is left alone, and no other listener changes either way |
| GuestfsBackend.Backend.EnsureSession | pkg/backend/plugins/guestfs/backend.go:112-122 | the flag for active mounts is as trustworthy as before; a launched session is not touched, dead or alive |
| GuestfsBackend.Backend.TryRestart | pkg/backend/plugins/guestfs/backend.go:135-145 | after it the flag is trustworthy if and only if the restart did not stop between a running listener and a launched appliance |
| GuestfsBackend.Backend.EffectiveMountSpecs | pkg/backend/plugins/guestfs/mount_specs.go:20-40 | the sorted specs, to which the first inspection adds for good: the recorded ones, or the planned ones if there are none, merged with the table of a root that was found; nothing without roots |
| GuestfsBackend.Backend.EnsureMounted | pkg/backend/plugins/guestfs/fs.go:16-33 | success means the flag is set and, if it was trustworthy, a live appliance holds exactly the sorted specs |
| GuestfsBackend.Backend.WithRecovery | pkg/backend/plugins/guestfs/backend.go:147-165 | at most two attempts, each reaching a live appliance only with the mounts it needs |
| GuestfsBackend.Backend.WithMounted | pkg/backend/plugins/guestfs/fs.go:35-43 | the same for every command of a caller, from any trustworthy state; afterwards trust is lost only by half a restart |
| GuestfsBackend.Backend.Mount | pkg/backend/plugins/guestfs/backend.go:192-214 | only the first spec for a mount point is recorded, and the mounts are then due again |
| GuestfsBackend.Backend.UnmountAll | pkg/backend/plugins/guestfs/backend.go:216-230 | success empties specs and appliance; trust is lost if and only if the flag stood and a failed umount-all left its live appliance with mounts other than before; never if a failed umount-all unmounts nothing |
| GuestfsBackend.Backend.ProbeMount | pkg/backend/plugins/guestfs/probe.go:11-58 | a probe, which takes down all mounts, takes back the flag whenever its script is sent, and only then |
| GuestfsBackend.Backend.UnmountFilesystems | pkg/backend/plugins/guestfs/backend.go:578-597 | specs and flags are cleared even when the unmount fails |
| GuestfsBackend.Backend.SpecsAfterUnmount | pkg/backend/plugins/guestfs/mount_specs.go:20-40 | inspection is not repeated after an unmount: what is to be mounted then is what was before if and only if inspection had found nothing new |
| GuestfsBackend.Backend.ReleaseDevices | pkg/backend/plugins/guestfs/backend.go:599-617 | giving up a session costs trust if and only if the flag still stands |
| GuestfsBackend.Backend.Teardown | pkg/backend/plugins/guestfs/backend.go:619-625 | done in its order, unmounting first, it does not |
| GuestfsBackend.Backend.RunOps | pkg/backend/plugins/guestfs/backend.go:112-230 | over any run of operations, crashes and restarts, up to the first of three incidents, every command that reached a live appliance found exactly the mounts it needs, twice at most per command; there is no incident if a failed umount-all unmounts nothing, a launch that fails kills its listener, and devices are released only after an unmount |
| GuestfsBackend.Backend.CommandAfterHalfRestart | pkg/backend/plugins/guestfs/fs.go:16-43 | after half a restart a command that succeeds on that listener has reached an appliance with nothing mounted, and on a host where nothing else fails it does succeed |
| GuestfsBackend.HalfRestartRun | pkg/backend/plugins/guestfs/backend.go:135-165 | a run from a new backend: one command with its mounts, a crash and half a restart, and a command on an appliance with nothing mounted |
| AgentProtocol.FrameReadsBack | pkg/qemuagent/proto/protocol.go:116-155 | a frame in front of any bytes reads back as its payload and leaves those bytes |
| AgentProtocol.ReadIsFrame | pkg/qemuagent/proto/protocol.go:136-155 | nothing but the frame of a payload reads as that payload |
| AgentProtocol.FramesReadBackIff | pkg/qemuagent/proto/protocol.go:116-155 | a stream reads as payloads up to a clean EOF if and only if it is the frames of those payloads and nothing else |
| AgentProtocol.FramesCut | pkg/qemuagent/proto/protocol.go:136-150 | a cut stream reads as the frames complete before the cut, with a clean EOF if and only if the cut is between frames |
| AgentProtocol.WriteMsg | pkg/qemuagent/proto/protocol.go:116-134 | a message is written whole, or refused with nothing written, or a proper part of its frame was written |
| AgentProtocol.ReadMsg | pkg/qemuagent/proto/protocol.go:136-155 | one frame is taken off the stream and unmarshalled, or the error and what is left are the specified ones |
| AgentProtocol.Serve | pkg/qemuagent/server/server.go:22-38 | requests are answered once each, in order, each handled after the one before; it returns cleanly if and only if everything was answered and the stream then ended, a cut frame counting as an end |
| AgentCalls.AgentClient.Call | pkg/backend/plugins/qemu/client.go:52-72 | one call writes its request whole and takes exactly one frame for its response |
| AgentCalls.InStepKept | pkg/backend/plugins/qemu/client.go:55-72 | every step, failures too, keeps at most one request or response in flight, the mutex holder's |
| AgentCalls.AnswersKept | pkg/backend/plugins/qemu/client.go:55-72 | every step keeps answers with their own requests, and no reply given twice |
| AgentCalls.CallsGetOwnAnswers | pkg/backend/plugins/qemu/client.go:15-72 | in every interleaving of any callers, with failures at any moment, the agent handles requests one after the other, each caller's in its order, and every answer is the reply to that very request |
| AgentCalls.NoDeadlock | pkg/backend/plugins/qemu/client.go:55-72 | until all calls are made some step is possible, and over a live connection one that is no failure, unless a caller is stuck |
| AgentCalls.StepUsesWork | pkg/backend/plugins/qemu/client.go:55-72 | and every step, failures too, leaves less to do |
| AgentCalls.RunsEnd | pkg/backend/plugins/qemu/client.go:55-72 | a run has at most five steps a call and one more, and one that cannot go on but for a failure has made all calls or has a caller stuck |
| AgentCalls.GetsStuckIff | pkg/qemuagent/server/server.go:33-35 | a step gets a caller stuck if and only if with it the agent does not write its reply, or not all of it |
| AgentCalls.StuckForGood | pkg/backend/plugins/qemu/client.go:55-72 | and then nothing but the end of the connection gets it or any other caller on |
| AgentCalls.LostReplyStops | cmd/kc-guest-agent/bootstrap_linux.go:71-82 | a run in which that happens, for any request whose reply cannot be framed |
| AgentProtocol.DataReplyFitsIff | pkg/qemuagent/server/server.go:195-215 | a reply of bytes alone can be framed if and only if they are at most 402653175, and a pread is allowed a third more |
| Grub.Config.Parse | pkg/common/configedit/grub/grub.go:14-31 | the lines print back to the text parsed, and the index is that of the lines |
| Grub.Config.Set | pkg/common/configedit/grub/grub.go:39-53 | the loop replaces the first line of the key, or appends one, and updates the index |
| Grub.Config.AddKernelArg | pkg/common/configedit/grub/grub.go:65-74 | nothing if the argument or its parameter is there, else it is appended |
| Grub.Config.RemoveKernelArg | pkg/common/configedit/grub/grub.go:77-86 | exactly the matching arguments go |
| Grub.IndexFollowsIff | pkg/common/configedit/grub/grub.go:39-53 | after an edit the index of the lines is the edited index if and only if the line that counts, a later one of the same key if there is one, says the new value |
| Grub.RepeatedKeyIff | pkg/common/configedit/grub/grub.go:39-53 | so with a key on two lines if and only if the second already has the new value |
| Grub.ReadsBackIff | pkg/common/configedit/grub/grub.go:14-53 | when no key repeats the printed text reads back as the edited index if and only if the value has no line break and no quote at an end |
| Grub.EditReadsBackIff | pkg/common/configedit/grub/grub.go:38-86 | the same for each of the three edits |
| Grub.EditsReadBack | pkg/common/configedit/grub/grub.go:14-91 | after any sequence of edits storing such values, reparsing the printed text gives exactly the index in memory |
| Grub.AddTwiceIff | pkg/common/configedit/grub/grub.go:65-74 | adding an argument twice is adding it once if and only if its name has no white space or it is all white space |
| Grub.AddedArgumentPresent | pkg/common/configedit/grub/grub.go:65-74 | an argument whose name has no white space is there after it was added, however its value looks |
| Grub.RemoveTwice | pkg/common/configedit/grub/grub.go:77-86 | removing twice is removing once, and none of that kind is left |
| Grub.SpacedAlwaysAdded | pkg/common/configedit/grub/grub.go:65-74 | an argument with white space in its name is appended at every call, there or not |
| Fstab.File.Parse | pkg/common/configedit/fstab/fstab.go:25-60 | the loop makes the specified entry of every line |
| Fstab.File.RemapDevice | pkg/common/configedit/fstab/fstab.go:63-72 | only column one of entries that name a device changes |
| Fstab.File.String | pkg/common/configedit/fstab/fstab.go:108-135 | the loop prints the specified text |
| Fstab.File.DeviceEntries | pkg/common/configedit/fstab/fstab.go:97-105 | exactly the entries that name a device, in order |
| Fstab.EntryReadsBackIff | pkg/common/configedit/fstab/fstab.go:25-60 | a parsed entry printed and parsed is that entry with its defaults if and only if it names no device or has at least three columns |
| Fstab.ReadsBackIff | pkg/common/configedit/fstab/fstab.go:25-135 | the same for whole files, which gain one blank entry each time |
| Bls.ReadsBackIff | pkg/common/configedit/bls/bls.go:19-64 | fields that print on one line each read back if and only if each key and value can be stored |
| Bls.ParsePrintParse | pkg/common/configedit/bls/bls.go:19-64 | printing and reparsing any parsed entry gives the same fields |
| Bls.GetSet | pkg/common/configedit/bls/bls.go:37-55 | what is set is got, other keys are as before, and what can be stored stays so |
| Bls.Entry.Parse | pkg/common/configedit/bls/bls.go:19-34 | the loop makes the specified fields |
| Bls.Entry.Get | pkg/common/configedit/bls/bls.go:37-44 | the value of the first field of the key |
| Bls.Entry.Set | pkg/common/configedit/bls/bls.go:47-55 | the first field of the key is overwritten, or one is appended |
| Remap.InTurnIsFirstMatch | pkg/convert-linux/remap/plugins/standard/standard.go:64-67 | rules none of which matches what another makes: applied in turn they are the first match |
| Remap.PrefixesSettled | pkg/convert-linux/remap/plugins/standard/standard.go:32-38 | the five rules are such |
| Remap.RemappedOnce | pkg/convert-linux/remap/plugins/standard/standard.go:31-67 | the five prefixes in sequence equal the first-match rule, and remapping is idempotent |
| Remap.RemapFstab | pkg/convert-linux/remap/plugins/standard/standard.go:55-73 | the file written is the print of the entries with their devices remapped |
| Remap.FstabRemapReadsBackIff | pkg/convert-linux/remap/plugins/standard/standard.go:55-73 | it parses to those entries with defaults and one blank entry more if and only if all had three columns; a second remap renames nothing |
| Remap.RemapCrypttab | pkg/convert-linux/remap/plugins/standard/standard.go:77-106 | the second column becomes the UUID of an sd device that has one, else the first match |
| Remap.RemapArgValue | pkg/convert-linux/remap/plugins/standard/standard.go:214-222 | the loop with its early return is the first match on the value |
| Remap.RemapKernelArgs | pkg/convert-linux/remap/plugins/standard/standard.go:190-201 | every argument is remapped, and changed is reported if and only if one differs |
| Remap.RemapArgTwice | pkg/convert-linux/remap/plugins/standard/standard.go:203-222 | remapping an argument is idempotent |
| Remap.ArgumentsReadBack | pkg/convert-linux/remap/plugins/standard/standard.go:130-138 | arguments written out as one value split into the remapped arguments again |
| Remap.RemapBlsEntry | pkg/convert-linux/remap/plugins/standard/standard.go:172-184 | an entry file is written if and only if an argument changes, with only its options different |
| Remap.BlsRemapReadsBack | pkg/convert-linux/remap/plugins/standard/standard.go:172-184 | what is written reads back as the remapped fields, other keys unchanged |
| Remap.RemapGrubDefaults | pkg/convert-linux/remap/plugins/standard/standard.go:128-143 | both settings are remapped, and the file is written if and only if an argument of either changes |
| Remap.SettingRemapped | pkg/convert-linux/remap/plugins/standard/standard.go:130-140 | a setting splits into its remapped arguments, others are kept, and doing it again changes nothing |
| Remap.GrubRemapReadsBackIff | pkg/convert-linux/remap/plugins/standard/standard.go:128-143 | where no key repeats, the file written reads back as the remapped settings if and only if no setting that changes, its arguments joined again, has a quote at an end or a line break |
| StaticIps.NetmaskPrefix | pkg/convert-linux/network/staticip/staticip.go:67-85 | the nested loops count the bits set in the four octets, or report a malformed mask |
| StaticIps.MaskBits | pkg/v2v/env/staticip.go:48-54 | the mask of every length from 1 to 32 counts as that length |
| StaticIps.MaskReadsBackIff | pkg/convert-linux/network/staticip/staticip.go:16-22 | a mask written as a length and read again is itself if and only if it is absent, read as 255.255.255.0, or has 1 to 32 leading ones and no others |
| StaticIps.MacToIPLine | pkg/convert-linux/network/staticip/staticip.go:16-25 | the method makes the specified line |
| StaticIps.ParseStaticIPs | pkg/v2v/env/staticip.go:13-46 | the loop reads the specified list, or fails on an invalid segment |
| StaticIps.LineReadsBackIff | pkg/v2v/env/staticip.go:19-43 | a card whose fields hold no separators is read back from its line if and only if it has an address, its first DNS item is not empty and its mask reads back |
| StaticIps.ListReadsBackIff | pkg/v2v/env/staticip.go:13-46 | any list of such cards joined with underscores is read back if and only if each of them would be |
| ShellQuote.QuotedWord | pkg/backend/plugins/guestfs/util.go:44-55 | a quoted argument, whatever follows, is read as one word, that argument |
| ShellQuote.QuotedArgumentsReadBack | pkg/backend/plugins/guestfs/util.go:44-55 | tokenizing the joined quoted arguments recovers exactly the list, empty arguments and embedded quotes included |
| ShellQuote.ShellLineReadsBack | pkg/backend/plugins/guestfs/backend.go:474-482 | the same in front of the redirection |
| ShellQuote.ShCommandScript | pkg/backend/plugins/guestfs/backend.go:474-489 | the builder loop makes the specified script |
| ShellQuote.OneLineIff | pkg/backend/plugins/guestfs/backend.go:484-489 | the script is one line if and only if no argument has a line break |
| ShellQuote.PrefixDash | pkg/backend/plugins/guestfs/util.go:155-173 | the lines sent are the trimmed lines that are not blank, each with a leading hyphen |
| GuestfishLines.LinesSent | pkg/backend/plugins/guestfs/util.go:155-173 | the text sent is those lines and nothing else |
| GuestfishLines.PathsReadBackIff | pkg/backend/plugins/guestfs/util.go:35-42 | a command with quoted paths arrives as it was given if and only if no path is empty or has a line break, no bare one begins with a tilde or a pipe, and the last, if bare, does not end in white space |
| GuestfishLines.QuotedPathReadsBackIff | pkg/backend/plugins/guestfs/util.go:35-42 | the same for one path |
| GuestfishLines.CommandReadsBackIff | pkg/backend/plugins/guestfs/backend.go:474-489 | what is sent for a command is one line that guestfish reads as sh with the shell's line, whose words are the arguments, if and only if no argument has a line break |
| DiskNames.DiskDevice | pkg/backend/plugins/qemu/backend.go:165-176 | the loop terminates with the specified suffix |
| DiskNames.SuffixBijection | pkg/backend/plugins/qemu/backend.go:165-176 | indices and non-empty lower-case suffixes correspond one to one, the decoder inverting the loop |
| DiskNames.LaterIsAfter | pkg/backend/plugins/qemu/backend.go:165-176 | a larger index has a suffix later in shortlex order |
| DiskNames.AssignDiskDevices | pkg/backend/plugins/qemu/backend.go:156-163 | the slice holds the device of every index |
| DiskNames.DevicesDiffer | pkg/backend/plugins/qemu/backend.go:156-163 | no two disks get one device |

## Left out

- vSphere, NFC, HTTP and TLS: a download is a byte stream that may end or break anywhere, and a lease only records Complete and Abort.
- Subprocesses, sockets and guestfish itself: each command works, fails or dies as an oracle says, with its effect on the state. How guestfish splits a line into arguments is taken from guestfish(1), as far as quoted paths need it.
- zlib: an uninterpreted function from bytes to output and an ending, which compress is assumed to invert only in the round trip. How far zlib reads ahead has no effect on what the decoder returns.
- JSON: an abstract codec; callers and agent are assumed to unmarshal what was marshalled, which encoding/json does not do for strings that are not valid UTF-8.
- Failing seeks, and the page-cache draining writer in front of the target.
- Strings are sequences of characters, and Go's are bytes; nothing in the modelled code looks inside a multi-byte character.
- Adding, decrypting and closing encrypted devices in the guestfs backend, which leave the mounts alone.
- The virtual file systems that RunCommand of the guestfs backend mounts around a command.
- Process identifiers used again for a new listener, and several processes sending to one listener at the same time.
- Registry edits, firstboot texts, driver lookup, guest inspection, the HTTP server and the plugin registry: tables and plumbing with no state worth an invariant.
- RunWithOverlay: takes no backing image to lie where an overlay goes, which the source does not check; creating that overlay would destroy the image.
- CreateOverlays: takes no backing image to lie there, either.
- RunPipeline: makes the writes of the stages together, when they have run.
- RunOps: follows a run to the first incident; after one a later restart or probe makes the flag right again, which the contracts of the single operations tell.
- CallsGetOwnAnswers: takes a connection that failed to have failed for good, as it does without deadlines (the boot probe alone sets one, on a connection it throws away), and the host's end to stay open when the agent reopens its own.
- SelectInspectRoot: takes the roots as a list; how they are read from guestfish output is not part of this model.
