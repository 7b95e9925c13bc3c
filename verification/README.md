# A verified model of vitvm

vitvm saves every step of a virtual machine as content-addressed chunks: memory is normally a diff laid over
the previous step's image, disks are chunked whole, files are kept as trees of blobs, and a chain of checkpoints
ties them together. This project models that machinery in Dafny and proves what its documentation promises of
it, and, where a promise is broader than the code, exactly when it holds.

| file | models |
|---|---|
| `Content.dfy` | bytes, hashes and serialised records; the laws asked of SHA-256 and the JSON encodings |
| `Blobs.dfy` | the blob store |
| `Images.dfy` | chunked images and overlays, byte by byte |
| `Chunker.dfy` | the hole scan, the chunk jobs, whole puts and reassembly |
| `WorkerPool.dfy` | the worker pool under every schedule |
| `SnapshotProtocol.dfy` | the diff-snapshot protocol over any number of machines, with failures anywhere |
| `FakeMachine.dfy` | the in-memory backend and the engine's capture over it |
| `Trees.dfy` | trees, lookup and difference |
| `Restore.dfy` | snapshot of a directory, and the two ways of laying a tree down again |
| `Closure.dfy` | what a checkpoint refers to |
| `RepoState.dfy` | the repository as a state machine: single writes, closure, lineage, step numbers |
| `Repo.dfy` | create, run, checkout, fork, history, as methods that only take those steps |
| `Sync.dfy` | push and pull |
| `Cache.dfy` | the image cache and the base-disk index |

Hashing is any injective function into non-empty names and the encodings are any functions their decoders undo
(`Content.Codec`; `SampleCodec` shows such a codec exists), so nothing depends on SHA-256 or JSON. A failure of
a file operation, guest call, backend call or network call is a nondeterministic choice at the point where it
can happen, possible only where `FAULTY` holds, of which nothing is assumed. It is reported as `Fault`, apart
from what is absent (`NotFound`) or not what it should be (`Invalid`); where the code drops an error, the model
goes on as the code does. "Fails only by a fault" below means that nothing else can go wrong: where calls do not
fail by themselves, the operation succeeds. Clocks and fresh ids are parameters.

## Main results

- **Diff snapshots.** Over every run of any number of sandboxes, each saved checkpoint goes back to a snapshot
  of one of the run's machines while it was paused, can be reassembled, and has that machine's disk and state;
  its memory is exact if and only if that snapshot, when it was taken, was full or a diff that could stand for
  memory (`EveryRun`). If no capture fails between its snapshot and its rebase leaving a false record, and no
  hole scan does harm, all are exact through diff chains of any length (`CleanRunsAreExact`), and the store
  cannot tell diff steps from full ones (`DiffsLeaveNoTrace`). Whenever and wherever a checkpoint is resumed, the
  machine that comes up is the one that was paused (`ResumeBringsBack`); in those runs capturing and resuming is
  the identity (`CaptureThenResume`).
- **Where "never correctness" fails.** The documentation says that a wrong base costs time and never
  correctness. In every run a mismatch does cost only time (`MismatchCostsOnlyTime`). But a capture that fails in
  that window leaves a matching yet false record: in every run, whatever the guest does before the retry, the
  checkpoint the retry saves is exact if and only if the guest has rewritten every page on which the recorded
  image differs from the memory of the failed snapshot (`RetryAfterWindowFailure`), and a concrete run from an
  empty repository saves a wrong checkpoint (`WindowFailureSavesWrongMemory`). The in-memory backend does not
  have this window; it is exact if and only if no page write it fails to check is dropped (`CaptureMachine`,
  `DiffAfterDrop`).
- **Chunking.** Under every schedule, worker count and placement of failures a put builds the manifest the
  sequential loop builds, adds exactly that image and counts its new chunks (`ConcurrentPut`); a diff put is indistinguishable from
  putting the whole next image if and only if the hole scan does no harm (`PutDiff`); what is put is what comes
  back (`PutThenGet`).
- **Repository.** A step records exactly the files found, the snapshot's images and the changes since its head
  (`Run`), reads back path by path as what was there (`StepReadsBack`) and restores to the files it was taken from
  (`StepComesBack`). Every repository the operations can produce carries the run of single writes that led to it.
  At every point of every run the store closes every recorded checkpoint (`ClosedAlways`), and past checkpoints
  read the same ever after unless a pull overwrites or tears their record (`PastIsFixed`). Parents precede
  children if and only if pulled records fit (`ReceiveInOrderIff`), so `History` ends; step numbers fall along
  every chain of a run if and only if no step was taken in a sandbox whose record had not counted as far as its
  head (`FallingIff`).
- **Push and pull.** The remote is safe at every point of every interleaving of pushes (`PrefixSafety`), and a
  push that finishes has everything there (`FinishedIsThere`); a pull from a safe remote fails only by a fault (`Pull`); and pushing a sandbox and pulling any checkpoint of its
  history elsewhere gives the same tree, bytes, state and images (`PushThenPull`).
- **Other exact conditions.** The hole-scan fallback for overlays (`FallbackExactIff`), PutFile's two reads
  (`PutFile`), forks of layered disks (`ForkRootExactIff`), orphaned steps (`StepFallsIff`, `OrphanCheckedOut`),
  pulls over known ids (`ReceiveKeepsIff`, `OverwritingPull`), restores over changed kinds, where a nil return
  can leave a followed link in place (`Restore`, `FileOverLink`), a manifest whose read fails while its image is
  put into the cache and a state file torn there, which is then served (`Materialise`, `TornIsServed`), overlays
  over a base with chunks missing (`PutChunked`), the fake machine's memory bound (`MemRoundTripIff`).

## Model

| member | source | states |
|---|---|---|
| `Blobs.AddGrows` | internal/cas/cas.go:34-66 | storing bytes twice is a no-op and storing anything only extends a sound store |
| `Blobs.SameNames` | internal/cas/cas.go:1-5 | a hash means the same bytes in every sound store |
| `Blobs.BlobStore.Put` | internal/cas/cas.go:34-66 | the store gains the blob under its hash or, on failure, nothing; soundness is kept |
| `Blobs.BlobStore.PutFile` | internal/cas/cas.go:68-104 | after hashing one read and copying another, the store is sound iff both reads agree or the blob was present |
| `Blobs.BlobStore.Get` | internal/cas/cas.go:106-113 | returns the bytes that hash to the name; reports not found only when it is absent, and may fail for other reasons |
| `Images.ChunkBounds` | internal/cas/chunked.go:93-100 | every chunk is non-empty, at most the chunk size, and inside the image |
| `Images.ChunkOf` | internal/cas/chunked.go:93-100 | each byte lies in exactly one chunk |
| `Images.ImageHashInjective` | internal/cas/chunked.go:31-37 | a manifest hash determines every byte of the image |
| `Images.AddImageHolds` | internal/cas/chunked.go:244-245 | adding an image keeps the store sound, only grows it, and makes the image available |
| `Images.JobIsSlice` | internal/cas/chunked.go:192-240 | each of the four branches of a chunk job yields the matching slice of the overlay image |
| `Images.WholeIsFile` | internal/cas/chunked.go:158-162 | without a base the overlay is the file, for any over-approximating spans |
| `Images.OverlayExactIff` | internal/cas/chunked.go:164-174 | an overlay equals the intended image iff the file is right on the spans and the base elsewhere |
| `Images.FallbackExactIff` | internal/cas/chunked.go:70-80 | reporting more than the data, as after a failed seek of either kind, is right for an overlay iff the base is zero in every hole reported |
| `Images.FallbackLosesBase` | internal/cas/chunked.go:70-72 | a concrete diff whose fallback overlay loses base bytes |
| `Chunker.DataSpans` | internal/cas/chunked.go:58-81 | terminates; spans are sorted, disjoint, non-empty, inside the file, cover every data byte, and nothing else unless a seek failed |
| `Chunker.Overlaps` | internal/cas/chunked.go:83-91 | reports exactly whether some span meets the range |
| `Chunker.PatchInPlace` | internal/cas/chunked.go:201-213 | the buffer holds file bytes on the spans and the base chunk elsewhere |
| `Chunker.StoreChunk` | internal/cas/chunked.go:142-151 | stores if absent, and reports new iff it looked absent |
| `Chunker.PutChunk` | internal/cas/chunked.go:192-240 | one job returns the hash of what its branch says, adds at most that blob, and counts only touched absent chunks |
| `Chunker.ProgressDone` | internal/cas/chunked.go:241-246 | recorded chunk hashes form the image's manifest and the store has gained exactly the image |
| `Chunker.PutChunked` | internal/cas/chunked.go:176-246 | the sequential loop returns the overlay image's name and, over a base that is all there, adds exactly that image; over one with chunks missing the image is whole iff the chunks reused unread are there |
| `Chunker.PutWhole` | internal/cas/chunked.go:158-162 | returns the file's own image name |
| `Chunker.PutChunkedOverlay` | internal/cas/chunked.go:164-174 | returns the name of the base with the file's data laid over it; a missing base, or a base chunk found missing, is an error |
| `Chunker.PutSparse` | internal/cas/chunked.go:186-189 | the name depends only on the file's bytes, never on its hole layout or failed seeks |
| `Chunker.PutDiff` | internal/cas/chunked.go:164-174 | a diff is stored under the same name and with the same blobs as the complete next image iff what the scan reports beyond the data is zero in the base, as when no seek fails |
| `Chunker.ReadManifest` | internal/cas/chunked.go:248-259 | returns what the blob decodes to, and tells absent, no manifest and a failed read apart |
| `Chunker.ZeroNames` | internal/cas/chunked.go:269-275 | only names of all-zero chunks are skipped |
| `Chunker.ZeroSkipped` | internal/cas/chunked.go:285-289 | leaving a zero chunk as a hole changes no byte |
| `Chunker.GetChunkedTo` | internal/cas/chunked.go:261-308 | in any completion order success yields the image, all of which is then in the store; an image the store holds fails only by a fault |
| `Chunker.PutThenGet` | internal/cas/chunked.go:176-308 | round trip: span bytes from the file, others from base where its chunk lines up, zero elsewhere; only a missing base chunk or a fault prevents it |
| `WorkerPool.RunsOnce` | internal/cas/chunked.go:119-135 | every schedule runs each index at most once, exactly once if it finishes |
| `WorkerPool.PoolTerminates` | internal/cas/chunked.go:104-140 | every schedule is bounded and none is stuck before all workers returned |
| `WorkerPool.PoolResult` | internal/cas/chunked.go:104-140 | nil only if every index ran; else the first recorded error; newChunks lies between the new touched names less zero-path names and the new touched names |
| `WorkerPool.ConcurrentPut` | internal/cas/chunked.go:176-246 | every error-free schedule builds the sequential manifest and adds exactly the image; newChunks are the names of chunks with data that the store lacked, less perhaps names also put as zeros for parts without data or base |
| `WorkerPool.NoneAfterError` | internal/cas/chunked.go:119-135 | once an error is recorded no further index is claimed |
| `WorkerPool.StepKeeps` | internal/cas/chunked.go:117-136 | each interleaved step keeps the claims, store and counting invariant |
| `SnapshotProtocol.DiffExactIff` | internal/engine/backend.go:66-74 | a diff over a base equals memory iff off the dirty pages memory is as in the base, or zero where the scan over-reports |
| `SnapshotProtocol.StepKeeps` | internal/engine/memory.go:85-133 | every event of every sandbox, failures included, keeps the protocol invariant |
| `SnapshotProtocol.EveryRun` | internal/engine/memory.go:85-133 | in every run each checkpoint goes back to a snapshot of a paused machine of the run; it reassembles to that machine, memory included iff that snapshot could stand for it, base disk included unless it is a fork's root |
| `SnapshotProtocol.CleanRunsAreExact` | internal/fcvm/firecracker.go:319-364 | in runs where no capture fails in the window leaving a false record and no scan does harm, all checkpoints are exact and recorded names are true outside the window |
| `SnapshotProtocol.DiffsLeaveNoTrace` | internal/engine/memory.go:108-131 | in those runs every capture, diff or full, leaves exactly the store that putting the whole paused machine would |
| `SnapshotProtocol.StandsIffHarmless` | internal/engine/memory.go:108-114 | while the recorded name is true a snapshot stands for memory iff its hole scan reports only holes that are zero in the base |
| `SnapshotProtocol.MismatchCostsOnlyTime` | internal/fcvm/firecracker.go:338-342 | in every run a capture begun when the head is not the recorded image, or either cannot be read, and carried through, saves exactly the machine as paused and leaves a true record |
| `SnapshotProtocol.WindowFailure` | internal/fcvm/firecracker.go:351-363 | a capture failing after snapshot/create keeps the record but forgets the dirty pages |
| `SnapshotProtocol.RetryAfterWindowFailure` | internal/engine/memory.go:104-132 | in every run the checkpoint saved from a diff taken after failed captures has the machine's memory iff, off the pages dirtied since the failed snapshot, the recorded image agrees with that snapshot's memory |
| `SnapshotProtocol.WindowFailureSavesWrongMemory` | internal/engine/memory.go:104-132 | a concrete run from nothing saves a checkpoint whose memory is not the machine's |
| `SnapshotProtocol.ForkRootExactIff` | internal/engine/engine.go:235-245 | resuming a fork from its own root gives the source's instant iff the source had no base disk |
| `SnapshotProtocol.ResumeBringsBack` | internal/engine/memory.go:43-72 | in every run, resuming a checkpoint at any later time in any sandbox brings back the machine that was paused for it, memory iff that snapshot stood for it |
| `SnapshotProtocol.ForkBringsBack` | internal/engine/engine.go:215-245 | the same of a fork's root, without the base disk |
| `SnapshotProtocol.CaptureThenResume` | internal/fcvm/firecracker.go:366-433 | in clean runs capture then resume is the identity |
| `SnapshotProtocol.StopAndComeBack` | internal/engine/engine.go:70-77 | a stopped machine is gone, and its sandbox comes back at its head, ready for a diff |
| `SnapshotProtocol.CheckoutAgrees` | internal/engine/engine.go:201-206 | after a checkout machine, recorded name and head agree |
| `FakeMachines.MemRoundTripIff` | internal/engine/fake_machine.go:49-67 | memFromImage inverts memImage iff memory fits |
| `FakeMachines.DiffPages` | internal/engine/fake_machine.go:145-157 | the file laid over the previous image gives the current one iff every differing page landed and the size is right, errors being dropped |
| `FakeMachines.FakeMachine.Snapshot` | internal/engine/fake_machine.go:131-169 | full, the snapshot stands for current memory; a diff does iff every differing page landed; failure changes only the remembered image |
| `FakeMachines.FakeMachine.Rebase` | internal/engine/fake_machine.go:171-177 | the recorded base goes with the image last snapshotted, truly iff it is that image's name |
| `FakeMachines.FakeMachine.Resume` | internal/engine/fake_machine.go:179-197 | memory, disk, base and saved image of that machine, and no other, come from the stored image |
| `FakeMachines.FakeMachine.Boot` | internal/engine/fake_machine.go:72-86 | booting a running machine changes nothing; a fresh one has boot memory, an empty guest and no base |
| `FakeMachines.CaptureMachine` | internal/engine/memory.go:85-133 | success names the memory at the snapshot, and leaves a true record, iff no page was dropped; after any number of failures the next capture is still exact |
| `FakeMachines.DroppedPage` | internal/engine/fake_machine.go:150-156 | a concrete change whose dropped page leaves the old image |
| `FakeMachines.DiffAfterDrop` | internal/engine/fake_machine.go:145-157 | after a drop the next diff gives memory iff every page on which stored and saved image differ has changed again |
| `Trees.SortDistinct` | internal/tree/tree.go:159-164 | sorting distinct paths orders them strictly and keeps the entries |
| `Trees.Find` | internal/tree/tree.go:105-114 | returns an entry of that path, or none only if no entry has it |
| `Trees.Diff` | internal/tree/tree.go:122-153 | lists each differing path exactly once, with its kind, in order |
| `Trees.ChangesMean` | internal/tree/tree.go:130-157 | a path of both trees is modified iff its entries differ; one of the new tree only is added, one of the old only deleted |
| `Trees.CountChanges` | internal/engine/engine.go:104-119 | the three counts are the numbers of such paths |
| `Trees.BeforeAtDifference` | internal/tree/tree.go:159-164 | paths are ordered by their first differing byte |
| `Trees.ChangeCounts` | internal/engine/engine.go:107-119 | added minus deleted is the change in size |
| `Restores.DirectoriesFirst` | internal/fcvm/guest.go:94-94 | in a sorted tree every directory precedes its contents |
| `Restores.Snapshot` | internal/tree/tree.go:41-94 | the tree is sorted, path-unique and parent-closed, stands for exactly the files walked, and each entry has its path's mode, size, hash and target |
| `Restores.FindExtra` | internal/snap/restore.go:81-98 | the walk that skips below a removed directory collects exactly the topmost unlisted paths it meets |
| `Restores.ClearExtra` | internal/snap/restore.go:78-103 | exactly the unlisted paths are removed when the walk misses none and every removal works; otherwise only unlisted paths are left |
| `Restores.Restore` | internal/snap/restore.go:19-56 | returns nil, faults aside, iff all blobs are present and each path keeps its kind, becomes a link or is sent behind a link where the call works; a nil return is exact iff no path changed kind and nothing extra is left |
| `Restores.PutEntry` | internal/agent/agent.go:209-239 | puts one entry in place, or through a link elsewhere, and says exactly when it can |
| `Restores.WriteTree` | internal/fcvm/guest.go:89-109 | once cleared, succeeds iff all blobs are present, faults aside, and leaves exactly the tree |
| `Restores.RestoreBothWays` | internal/engine/memory.go:75-82 | where both paths return nil and clear, they leave the same files iff the host directory had no kind change in the way |
| `Restores.FileOverDirectory` | internal/snap/restore.go:67-70 | a file wanted where a directory stands is refused |
| `Restores.FileOverLink` | internal/snap/restore.go:67-70 | a file wanted where a link stands: nil is returned, faults aside, and the link is still there |
| `Closure.SameMeaning` | internal/engine/engine.go:136-164 | a checkpoint reads the same from every sound store that closes it |
| `Closure.ReadsWhatIsListed` | internal/engine/engine.go:146-164 | reading a listed path gives the file's bytes, the link as text or an error for a directory; a leading "./" makes no difference |
| `Closure.ReadsNothingElse` | internal/engine/engine.go:153-156 | a path not listed is not found |
| `Closure.ClosedMeans` | internal/engine/sync.go:117-171 | closure by fields: every file, the state, and the memory, disk and base disk images |
| `Closure.RefsClose` | internal/engine/sync.go:53-84 | a sound store with every walked reference closes the checkpoint |
| `Closure.ClosedHasRefs` | internal/engine/sync.go:53-84 | every reference walked is among what closure requires |
| `Closure.RefsLength` | internal/engine/sync.go:53-79 | each reference is walked once: the tree, every file, the state, and every manifest and chunk |
| `RepoStates.ClosedAlways` | internal/engine/engine.go:82-164 | at every point of every run the store is sound and holds all that every recorded checkpoint refers to |
| `RepoStates.PastIsFixed` | internal/engine/engine.go:146-164 | for any two points of a run, what a checkpoint refers to is still there and reads the same; under its id too, unless a pull put another record there or tore the one there |
| `RepoStates.ReceiveKeepsIff` | internal/engine/sync.go:167-170 | a pulled record leaves the snapshot under an id alone iff it has another id or the same tree |
| `RepoStates.OverwritingPull` | internal/engine/sync.go:167-170 | a concrete run in which a pull changes what a past checkpoint says |
| `RepoStates.StepInOrder` | internal/engine/engine.go:53-68 | a step, saved or orphaned, keeps parents earlier and in the same sandbox and no parent or head missing |
| `RepoStates.ReceiveInOrderIff` | internal/engine/sync.go:167-170 | a pulled record keeps that order iff it fits the records it joins |
| `RepoStates.ReachableInOrder` | internal/engine/repo.go:115-131 | in every reachable repository, torn records included, parents precede children; without pulls no parent or head is missing |
| `RepoStates.OwnParentNeverEnds` | internal/engine/repo.go:122-129 | a pulled record that is its own parent would never end the walk, and does not fit |
| `RepoStates.StepFallsIff` | internal/engine/engine.go:61-67 | a step keeps step numbers falling iff its sandbox's count has reached the head's number |
| `RepoStates.FallingIff` | internal/engine/engine.go:61-67 | over a whole run whose steps start from saved sandboxes, numbers fall along every chain iff no step was taken on a head numbered above its sandbox's saved count |
| `RepoStates.ReachableNumbered` | internal/engine/engine.go:186-207 | without orphans step numbers strictly fall along every chain, across checkouts |
| `RepoStates.OrphanCheckedOut` | internal/engine/engine.go:61-67 | a concrete run in which an orphan is checked out and run from, and its child gets its number |
| `RepoStates.ChainDescends` | internal/engine/repo.go:121-129 | from any checkpoint of a chain to any earlier one creation times fall, and step numbers where they fall to parents |
| `Repos.Repo.GuestTree` | internal/engine/memory.go:135-160 | every listed hash is in the store, entries are sorted and none is lost; a guest that serves what it lists fails only by a fault |
| `Repos.Repo.CaptureMachine` | internal/engine/memory.go:85-133 | everything a checkpoint names is in the store first; its names are those of the snapshot's memory, state, disk and base disk |
| `Repos.Repo.TakeTree` | internal/engine/engine.go:82-101 | the tree stored is the one read: exactly the host's files, or the guest's entries sorted |
| `Repos.Repo.TakeCheckpoint` | internal/engine/engine.go:79-126 | one closed checkpoint on top of the head, by a legal step, with the tree read, the snapshot's images and the counts against the head's tree; or none |
| `Repos.Repo.SaveCheckpoint` | internal/engine/repo.go:103-104 | a record is only ever saved closed, and extends the repository's run by that step; a failed save over an existing record may tear it |
| `Repos.Repo.SaveSandbox` | internal/engine/repo.go:55-71 | a sandbox is only saved at a recorded checkpoint of its own; a failed save may tear its record |
| `Repos.Repo.Create` | internal/engine/engine.go:29-45 | a sandbox with a parentless root of the files found, or at most an orphan root |
| `Repos.Repo.Run` | internal/engine/engine.go:47-68 | the step holds the tree found, the snapshot's images and the counts; whatever fails, the repository stays legal and at most one step is added; its record moves on only when saved, and the sandbox in memory may be ahead of it |
| `Repos.StepReadsBack` | internal/engine/engine.go:146-164 | every path of a step taken from the host reads as what was there |
| `Repos.StepComesBack` | internal/snap/restore.go:19-56 | a step laid down again gives the files it was taken from iff no kind changed |
| `Repos.Repo.Checkout` | internal/engine/engine.go:182-207 | files are laid down, images reassembled, then the head moves, only to a checkpoint of the same sandbox; a failed save may tear the sandbox's record |
| `Repos.Repo.Fork` | internal/engine/engine.go:209-245 | the root copies the source under a new lineage without its base disk, and its files are laid down |
| `Repos.Repo.BringUp` | internal/engine/memory.go:46-84 | warm iff there are memory and state, which reassembles every image; cold leaves the store alone |
| `Repos.Repo.History` | internal/engine/repo.go:115-131 | terminates in every repository whose pulls were honest; the chain descends, stays in one sandbox and ends at a parentless root; fails only at a missing record or by a fault |
| `Syncs.PrefixSafety` | internal/engine/sync.go:31-111 | at every point of every interleaving of pushes, aborted ones included, each remote checkpoint has all it refers to |
| `Syncs.FinishedIsThere` | internal/engine/sync.go:31-91 | a push that finishes, however interleaved, has all its checkpoints and its sandbox in the remote, and no record is anything but one that was there or was sent |
| `Syncs.PushBlob` | internal/engine/sync.go:93-111 | uploads iff absent, and counts accordingly |
| `Syncs.LackingIsDistinct` | internal/engine/sync.go:93-111 | uploads met while walking are the distinct names the remote lacked |
| `Syncs.PushCheckpoint` | internal/engine/sync.go:53-91 | blobs first, record last; the remote stays safe; a closed checkpoint fails only by a fault |
| `Syncs.Push` | internal/engine/sync.go:28-51 | afterwards the remote has every record of the history and the sandbox's, and nothing else has changed; uploaded plus skipped is the references walked; uploaded is the distinct ones lacking |
| `Syncs.PushAgain` | internal/engine/sync.go:28-51 | a second push uploads nothing |
| `Syncs.PullBlob` | internal/engine/sync.go:173-189 | a fetched blob is stored under its own hash, a mismatching one is refused; one held or offered fails only by a fault |
| `Syncs.Pull` | internal/engine/sync.go:113-171 | for any remote contents the repository stays legal; success closes the pulled checkpoint and records it over any of its id, which a failed save may tear; what a safe remote has fails only by a fault |
| `Syncs.ClosedInBoth` | internal/engine/sync.go:113-116 | a checkpoint closed in two sound stores has the same tree, contents, state and images in both |
| `Syncs.PushSandbox` | internal/engine/sync.go:31-51 | a whole history is pushed unless a record is missing or a fault occurs |
| `Syncs.PushThenPull` | internal/engine/sync.go:28-171 | any checkpoint of a pushed history is pulled elsewhere as the same record with the same tree, bytes, state and images; only a fault can prevent it |
| `Caches.ByTime` | internal/engine/cache.go:66-77 | the listing, least recently used first |
| `Caches.ImageCache.EvictCache` | internal/engine/cache.go:54-88 | running total is the space left; oldest first; the kept file stays; stops at the first fit; ends within the limit or with only the kept file, but for files whose removal failed |
| `Caches.RecentSurvive` | internal/engine/cache.go:78-87 | files recent enough to fit together are not evicted |
| `Caches.OversizeEvicts` | internal/engine/cache.go:78-87 | a cache over its limit loses something besides the kept file |
| `Caches.ImageCache.Materialise` | internal/engine/cache.go:41-49 | the file agrees with the store unless the read of a manifest failed and it was copied instead, or an in-place copy was torn |
| `Caches.ImageCache.TornIsServed` | internal/engine/memory.go:162-168 | a torn copy of a plain blob is handed out as a hit by the next request |
| `Caches.ImageCache.CachedImage` | internal/engine/cache.go:28-52 | hit or miss, the cache keeps agreeing with the store unless a manifest was misread or a copy torn |
| `Caches.ImageCache.BringUpImages` | internal/engine/memory.go:51-72 | images that fit together are all still cached when the last is there, and agree with the store unless one was misread or torn |
| `Caches.BaseIndex.BaseHash` | internal/engine/cache.go:90-122 | a base disk is stored once and always named by its image, cached ones included; a failed index write is an error and leaves the index true |

## Left out

- The Firecracker REST client, process spawning, pid checks, sockets, timeouts and the retry for older flag names; only their effect on machine state is kept.
- The S3 client and the directory store; a remote is the three families of objects under its key prefixes.
- The guest init, overlay mounts and vsock code, and the command line and configuration.
- Command execution, the agent's framing and its refusal of unsafe paths (a walk never lists one).
- File modes, umask and owners in restores; modes are recorded in trees and compared by `Trees.SameEntry`, but an existing file keeps its old one.
- Restores.Restore: links already in the directory are taken to lead outside it; one that leads back into it could make a later entry overwrite, or even remove, another, and is not followed here.
- Exit codes, commands, notes and names in records, and the constant fields of a manifest.
- Two commands on one sandbox at the same time; only pushes and the worker pool are concurrent.
- Existence tests that fail although the file is there, cache files whose time stamp update fails, and temporary files left in the cache directory.
- Restores.Snapshot: a file is taken not to change between the two reads of PutFile, on which the soundness of the store rests; `Blobs.BlobStore.PutFile` says exactly when it holds otherwise.
- Repos.Repo.CaptureMachine: the device state file is taken not to change between the two reads of PutFile either, and a diff is taken over an image the chunker stored.
- FakeMachines.DiffPages: a page's write reaches the file whole or not at all.
- Manifests a dishonest remote made up (wrong lengths or counts): `Syncs.Pull` closes over them, but overlays and reassembly are stated for images the chunker stored.
- Caches.ImageCache.CachedImage: a plain state blob that happens to decode as a manifest would be reassembled instead of copied; `Agrees` says so, and a request for one is only valid if it names a real image.
- FakeMachines.CaptureMachine: the hole scan of its diff file is taken to report just the data; `Chunker.PutDiff` says when another report would matter.
- Trees.Diff: trees that list a path twice, which no walk makes; the lists are then not described.
- Repos.Repo.Fork: like a checkout, stated for trees as a walk makes them.
- Repos.Repo.Checkout: stated for trees as a walk makes them; resuming the machine itself is a step that may fail, and `Cache.dfy` and `SnapshotProtocol.dfy` say what it does.
- WorkerPool.ConcurrentPut: other writers of the same store during a put are not modelled, so the count is for a store only this put writes.
- The space an image takes on disk is a function of its name.
