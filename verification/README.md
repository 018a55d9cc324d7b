# A verified model of the Docker daemon's stateful core

This project models the parts of the daemon that keep state consistent over
long sequences of operations, and proves what they keep. One Dafny module per
component:

- **Images.** `ParentChains` (chains of parent metadata), `ImageStore` (the
  in-memory index beside the backend), `ImageDelete` (conflict checks, removal
  of references, pruning up the parent chain) and `AncestorFilter` (the walk
  down the children behind the listing's ancestor filter).
- **Registry transfer.** `LayerDownload` (resuming a download while a digest
  verifier follows along), `SchemaOneManifest` (clean-up of Docker Image
  Manifest Version 2, Schema 1 manifests), `EndpointFallback` (which registry
  endpoints are tried) and `V1Push` (the upload order of a v1 push).
- **Container lifecycle.** `ContainerState` (wait channels and state flags),
  `HealthMonitor` and `MonitorProtocol` (probe results; starting and stopping
  the monitor goroutine) and `ContainerRemoval` (removal against start).
- **Indexes and listings.** `LinkIndex` (links kept in two directions),
  `ContainerList` (the stateful listing loop), `DisplayablePorts` (port ranges)
  and `CopyEscapable` (the copy loop that watches for the detach keys).

Objects that the daemon updates in place are classes. The methods of the larger
ones are proved against functions on values, and the laws are proved of those
functions. The concurrent protocols are state machines: `Next` gives the state
after one atomic step of one of unboundedly many threads, `Run` after a sequence of steps,
and the theorems hold for every interleaving. Outcomes of calls into other
components (the layer store, the registry, local file operations, rendering) are
parameters, so that the results hold whichever way those calls turn out.

## What the code does not keep

Where a property a caller would expect fails, the model follows the code. It
shows the failure and proves exactly when the property holds.

- `SetParent` does not look at its first argument: an image that is not stored,
  or is an ancestor of the new parent, breaks the store
  (`ImageStore.SetParentConsistent`).
- A failed seek in the temporary file starts a new file but keeps the old
  verifier, after which bytes without the requested digest can be handed on;
  a failed write that is retried puts the verifier ahead of the file
  (`LayerDownload.SafeExactly`, `LayerDownload.LostFileHandsWrongBytes`).
- The comment in `docker/daemon/health.go` that there is never more than one
  monitor relies on a lock that out-of-memory events and the start event of an
  automatic restart do not take (`MonitorProtocol.TwoMonitorsExactly`).
- `WaitStop` is documented to return the exit code of the stop it waited for; a
  container restarted before the waiter gets the lock hides it
  (`ContainerState.PromisedCode`, `ContainerState.RestartHidesCode`).
- A container can be deregistered while it still counts as running
  (`ContainerRemoval.DeregisteredRunningExactly`,
  `ContainerRemoval.DeregisteredWhileRunning`), and a pending automatic restart
  creates its process although the removal flag is set
  (`ContainerRemoval.CreatedUnderRemovalExactly`).
- Detach keys typed after a partial match of them can be missed, by default too;
  only keys that are all equal never are (`CopyEscapable.ReliableKeysExactly`,
  `CopyEscapable.MissedDetach`).
- Removing an unqualified tag can drop digest references of repositories that
  keep a tag (`ImageDelete.TagRuleExactly`,
  `ImageDelete.UnqualifiedTakesDigests`).
- The link index is not kept in the forward direction: unlinking drops every
  alias of the pair and deleting leaves the parents' entries
  (`LinkIndex.UnlinkMirrored`, `LinkIndex.DeleteMirrored`).
- The ranges shown for repeated ports overlap
  (`DisplayablePorts.MaximalWhenDistinct`).
- A manifest rejected for a wrong parent can be left partly cleaned up
  (`SchemaOneManifest.Manifest.FixLayers`,
  `SchemaOneManifest.RejectedPartlyCleaned`).
- The comment on `removeImageRef` calls removing a missing reference harmless;
  the reference store reports it as an error, and only a match is removed
  (`ImageDelete.ImageDaemon.RemoveImageRef`).

The error path of `Create` after the layer is taken would leak the layer
reference (`ImageStore.CreateConsistent`). The digest set refuses only malformed
digests and `Create` passes one the backend has just computed, so this path is
not taken by any configuration.

## Model

| member | source | states |
|---|---|---|
| `ParentChains.RelinkAcyclic` | docker/image/store.go:230-242 | giving an image a new parent keeps all parent chains finite exactly when the image is neither that parent nor one of its ancestors |
| `ParentChains.NoSelfAncestor` | docker/image/store.go:244-250 | with finite chains no image is its own proper ancestor, at any distance |
| `ImageStore.NonEmptyCounts` | docker/image/store.go:120-125 | the layer counter is the number of history entries not marked empty |
| `ImageStore.CreateExactly` | docker/image/store.go:106-165 | when exactly an image is created, on the configuration and the outcomes of backend, layer store and digest set; what is then stored for it, and that no other image changes |
| `ImageStore.CreateFails` | docker/image/store.go:106-165 | why a creation fails, by the first check that does, and that the content stays written once the backend took it |
| `ImageStore.SetParentExactly` | docker/image/store.go:230-242 | when exactly a parent is set, and that an unknown parent changes nothing |
| `ImageStore.CreateConsistent` | docker/image/store.go:106-165 | creating an image keeps the store consistent except, on the inputs, when a new image with layers passes every check, its layer is taken and its digest is then rejected |
| `ImageStore.SetParentConsistent` | docker/image/store.go:230-242 | under a stored parent, consistency is kept exactly when the image is stored and not the parent or one of its ancestors |
| `ImageStore.DeleteConsistent` | docker/image/store.go:203-228 | deleting any ID keeps the store consistent: children sets, parent metadata, digest set and layer references |
| `ImageStore.DeleteUndoesCreate` | docker/image/store.go:106-228 | deleting an image just created restores index, backend, digest set and layer references exactly |
| `ImageStore.LastParentWins` | docker/image/store.go:230-242 | a parent that is set can be read back, and setting another one leaves no trace of it |
| `ImageStore.DeleteOrphansChildren` | docker/image/store.go:203-228 | the children of a deleted image stay, without a parent; every other image keeps its parent and layer |
| `ImageStore.StepConsistent` | docker/image/store.go:63-242 | one operation keeps a consistent store consistent exactly when its condition, checked before the call, holds |
| `ImageStore.RunConsistent` | docker/image/store.go:63-242 | in every run of create, set-parent, delete and restart from a consistent store all states stay consistent exactly as long as every operation meets its own condition |
| `ImageStore.RestoredConsistent` | docker/image/store.go:63-104 | an index rebuilt from a backend is consistent exactly when the parent metadata names usable images only and its chains end |
| `ImageStore.RestoredIndexes` | docker/image/store.go:63-89 | the rebuilt index holds exactly the images that decode and are filed under their own digest, each with its own layer |
| `ImageStore.RestartConsistent` | docker/image/store.go:63-104 | a consistent store leaves a backend from which a restart rebuilds a consistent store, with every stored image and all parents |
| `ImageStore.RestoredUnique` | docker/image/store.go:63-104 | the backend determines the rebuilt index, children sets and layer references included, whatever the order of the walk |
| `ImageStore.RestartIdentity` | docker/image/store.go:63-104 | if every usable image is indexed with its layer, restarting changes nothing |
| `ImageStore.HeadsAreLeaves` | docker/image/store.go:269-295 | in a consistent store the heads are the images that no stored image has as parent |
| `ImageStore.Store.Restore` | docker/image/store.go:63-104 | succeeds exactly when layer store and digest set accept every usable image, and then indexes those, with one layer reference each and children sets that agree with the metadata |
| `ImageStore.Store.LoadImages` | docker/image/store.go:64-92 | the first pass indexes exactly the usable images, in any order, and balances the layer references |
| `ImageStore.Store.FillChildren` | docker/image/store.go:94-101 | the second pass makes the children sets agree with the parent metadata and touches nothing else |
| `ImageStore.Store.Create` | docker/image/store.go:106-165 | the fields change as in the value-level creation, with its error for each failing step, the backend write included |
| `ImageStore.Store.SetParent` | docker/image/store.go:230-242 | moves the image between children sets before the metadata is written, also when that fails |
| `ImageStore.Store.Delete` | docker/image/store.go:203-228 | the image goes in any case; the outcome reports an unknown image or a failed layer release |
| `ImageStore.Store.Remove` | docker/image/store.go:203-226 | detaches the children, then leaves the parent, digest set, index and backend, and lets go of the layer |
| `ImageStore.Store.ImagesMap` | docker/image/store.go:277-295 | lists exactly the stored images that load, all of them or those without children |
| `ImageDelete.HelperRemovesSegment` | docker/daemon/image_delete.go:297-348 | with a conflict nothing changes; otherwise the images removed are an initial stretch of the target's parent chain, every ancestor in it had no other child, no reference and no container, the stretch cannot be made longer, no reference to a removed image is left and no other is lost |
| `ImageDelete.QuietIsSilent` | docker/daemon/image_delete.go:297-348 | a quiet deletion reports no conflict, from any state of the daemon |
| `ImageDelete.ConflictExactly` | docker/daemon/image_delete.go:356-404 | the conflict reported is hard exactly for children and running containers, soft ones are overridden by force, and it names a container exactly when no child or reference comes first |
| `ImageDelete.InUseExactly` | docker/daemon/image_delete.go:380-402 | which containers count as using an image |
| `ImageDelete.UnknownLosesReferences` | docker/daemon/image_delete.go:316-330 | deleting an unknown image that nothing uses fails only after its references are gone |
| `ImageDelete.ByIDAllOrNothing` | docker/daemon/image_delete.go:151-179 | deleting by ID changes nothing and reports a conflict, or deletes the image; which one is decided by children, containers, references and force before the call |
| `ImageDelete.UntaggedFirst` | docker/daemon/image_delete.go:151-179 | removing the image's own references first makes no difference to what is deleted |
| `ImageDelete.ByNameRemovesReference` | docker/daemon/image_delete.go:74-151 | a refused deletion by name changes nothing and says why; an accepted one removes the reference and the digests that go with it, and deletes images exactly when the image is then free of references, children and containers |
| `ImageDelete.KeptByName` | docker/daemon/image_delete.go:107-143 | for every name that resolves, which other references to the image stay: tags, everything if a digest was named or a tag is left under the name as given, and under a qualified name the references of other repositories |
| `ImageDelete.TagRuleExactly` | docker/daemon/image_delete.go:107-143 | exactly when digests go with the last tag of their own repository: always for digests and qualified names; for an unqualified tag, by the tags and digests on the image before the call |
| `ImageDelete.UnqualifiedTakesDigests` | docker/daemon/image_delete.go:107-143 | an unqualified removal that drops the digests of two repositories although a tag is left in each |
| `ImageDelete.DeleteShrinks` | docker/daemon/image_delete.go:321-347 | each deletion removes exactly one image, which is why pruning ends |
| `ImageDelete.IsSingleReference` | docker/daemon/image_delete.go:183-204 | true exactly for a non-empty list from one repository with at most one tag |
| `ImageDelete.ResolvesToFirstMatch` | docker/reference/store.go:303-343 | a name stands for the exact reference if stored, else for the first default registry that stores it, and for none if and only if nothing matches |
| `ImageDelete.ImageDaemon.RemoveImageRef` | docker/reference/store.go:160-190 | the loop removes exactly the first match, and fails without change if and only if nothing matches |
| `ImageDelete.ImageDaemon.RemoveAllReferences` | docker/daemon/image_delete.go:248-264 | exactly the references to the image go, and each is recorded |
| `ImageDelete.ImageDaemon.ImageDeleteHelper` | docker/daemon/image_delete.go:297-314 | the state, deleted images and error of the value-level helper, conflict check first; the record grows by exactly the references removed |
| `ImageDelete.ImageDaemon.DeleteAndPrune` | docker/daemon/image_delete.go:316-348 | the state, deleted images and error of the value-level deletion and recursive prune; the record grows by exactly the references removed |
| `ImageDelete.ImageDaemon.RemoveOrphanedDigests` | docker/daemon/image_delete.go:107-143 | after a tag is removed, drops the digest references that no remaining tag accounts for |
| `ImageDelete.ImageDaemon.RemoveNamed` | docker/daemon/image_delete.go:95-143 | removes the named reference and the digests that go with it, and records the name as given and every other reference gone |
| `ImageDelete.ImageDaemon.DeleteImageByID` | docker/daemon/image_delete.go:151-179 | the two conflict checks and the untagging between them give the value-level outcome, and exactly the references removed are recorded |
| `ImageDelete.ImageDaemon.DeleteImageByName` | docker/daemon/image_delete.go:74-151 | the container guard, the untagging and the quiet deletion give the value-level outcome; a refused call records nothing, any other the name as given and every other reference gone |
| `AncestorFilter.ImageFilter.Populate` | docker/daemon/list.go:604-611 | on any acyclic child relation the walk ends, adds exactly the image and all its descendants, and leaves the marks closed under children |
| `AncestorFilter.ImageFilter.FoldAncestors` | docker/daemon/list.go:270-288 | the marks are the union of the known named images and their descendants |
| `AncestorFilter.KnownExactly` | docker/daemon/list.go:270-288 | exactly the names that were found take part |
| `AncestorFilter.DescendantsUnfold` | docker/daemon/list.go:604-611 | what lies below an image is the image and what lies below its children |
| `AncestorFilter.StoreGraphAcyclic` | docker/image/store.go:259-267 | the children reported by a consistent store form an acyclic relation, so the walk always ends on it |
| `AncestorFilter.FilterMeaning` | docker/daemon/list.go:270-288 | over a consistent store the filter admits exactly the images with a named image among themselves and their ancestors |
| `LayerDownload.SafeExactly` | docker/distribution/pull_v2.go:156-298 | one attempt is safe against every registry exactly when it neither replaces the file under an old verifier nor has a write fail in a way that is retried |
| `LayerDownload.AttemptSafe` | docker/distribution/pull_v2.go:156-298 | after a safe attempt the verifier has seen exactly the file, or no attempt follows, or the bytes handed on have the requested digest |
| `LayerDownload.DownloadSafe` | docker/distribution/xfer/download.go:248-290 | over any sequence of such attempts, with reads failing anywhere and arbitrary bytes, what is finally handed on has the requested digest |
| `LayerDownload.LostFileHandsWrongBytes` | docker/distribution/pull_v2.go:169-186 | two attempts, the second with a failed seek, by which bytes without the digest are handed on |
| `LayerDownload.LostWriteUnsafe` | docker/distribution/pull_v2.go:242-251 | against a registry that sends enough, a retried short write leaves the verifier ahead of the file |
| `LayerDownload.FailedWriteFallsBehind` | docker/distribution/pull_v2.go:242-251 | a failed write leaves the verifier ahead of the file by exactly the bytes it did not store |
| `LayerDownload.ResumeHoldsPrefix` | docker/distribution/pull_v2.go:156-298 | against a registry that serves one blob, resumed or restarted attempts always leave a prefix of it, and hand on all of it |
| `LayerDownload.AttemptCompletes` | docker/distribution/pull_v2.go:156-298 | an attempt in which nothing fails hands on the whole blob, from whatever prefix earlier attempts left, and lets go of the file |
| `LayerDownload.GivenUpExactly` | docker/distribution/pull_v2.go:156-298 | with local operations that succeed, an attempt is given up exactly when the registry does not know the blob, fails in a way that is not retried, or sends everything from the beginning with the wrong digest |
| `LayerDownload.CannotStart` | docker/distribution/pull_v2.go:164-186 | a download ends when no file and when no verifier can be made; without a file none is kept |
| `LayerDownload.CannotRewind` | docker/distribution/pull_v2.go:275-284 | a download ends when the complete file cannot be rewound, and nothing is kept of it |
| `LayerDownload.HandedIsKeptAndSent` | docker/distribution/pull_v2.go:199-298 | what is handed on is what the file held, unless it was longer than the blob, followed by all the registry sent |
| `LayerDownload.StartsOver` | docker/distribution/pull_v2.go:199-274 | a refused offset, another byte range or a wrong digest after resuming empties the file, forgets the verifier and repeats the attempt |
| `LayerDownload.TruncateExactly` | docker/distribution/pull_v2.go:309-324 | the verifier is forgotten in any case; truncation succeeds exactly when both operations do, and only then is the file empty |
| `LayerDownload.TransientRetried` | docker/distribution/errors.go:86-117 | against a registry that serves the blob, transient errors never end the download |
| `LayerDownload.DownloadCompletes` | docker/distribution/xfer/download.go:248-290 | over any sequence of attempts served from one blob, failing anywhere, only the blob is handed on; if nothing fails in the last one it is, unless an earlier one was given up, which transient errors never cause |
| `LayerDownload.LayerDescriptor.constructor` | docker/distribution/pull_v2.go:134-142 | a new descriptor has no file and no verifier |
| `LayerDownload.LayerDescriptor.Download` | docker/distribution/pull_v2.go:156-298 | one attempt on the fields is the value-level attempt, and is safe under the exact condition |
| `LayerDownload.LayerDescriptor.CopyToFile` | docker/distribution/pull_v2.go:242-251 | each chunk reaches the verifier in full before the file, up to the write that fails |
| `LayerDownload.LayerDescriptor.TransferAndVerify` | docker/distribution/pull_v2.go:232-298 | the value-level transfer: copying, verification at the end of the blob, truncation on a mismatch |
| `LayerDownload.LayerDescriptor.TruncateDownloadFile` | docker/distribution/pull_v2.go:309-324 | the verifier is forgotten in any case, the file emptied if both operations succeed |
| `SchemaOneManifest.RunEndsExact` | docker/distribution/pull_v2.go:835-843 | the positions kept are exactly the ends of the runs of equal IDs, in increasing order |
| `SchemaOneManifest.LastOfRunsSelects` | docker/distribution/pull_v2.go:835-843 | what is kept is what stood at those positions |
| `SchemaOneManifest.LastOfRunsAligned` | docker/distribution/pull_v2.go:835-843 | layers and history stay aligned entry by entry |
| `SchemaOneManifest.CleanedIsChain` | docker/distribution/pull_v2.go:802-846 | after a successful clean-up IDs are pairwise distinct, each entry's parent is the next entry and the base has none |
| `SchemaOneManifest.CleanupIdempotent` | docker/distribution/pull_v2.go:802-846 | the cleaned images are accepted again and cleaning them changes nothing |
| `SchemaOneManifest.SecondRunUnchanged` | docker/distribution/pull_v2.go:802-846 | a second call on the cleaned manifest succeeds and changes neither list |
| `SchemaOneManifest.LeftAloneExactly` | docker/distribution/pull_v2.go:835-843 | cleaning from an index on leaves a list alone exactly when no ID repeats from there on |
| `SchemaOneManifest.RejectedPartlyCleaned` | docker/distribution/pull_v2.go:835-843 | a manifest that is rejected for a wrong parent after an entry was removed |
| `SchemaOneManifest.HasSplitRuns` | docker/distribution/pull_v2.go:822-833 | reports exactly whether some ID occurs in two separate runs, from a set of IDs and the previous one |
| `SchemaOneManifest.ValidIDExactly` | docker/distribution/pull_v2.go:811-814 | an image ID is 64 lower-case hexadecimal digits |
| `SchemaOneManifest.Manifest.Verify` | docker/distribution/pull_v2.go:768-798 | accepts exactly schema version 1 with the requested digest, if any, and equally many, at least one, layers and history entries |
| `SchemaOneManifest.Manifest.DecodeImages` | docker/distribution/pull_v2.go:803-815 | succeeds exactly when every entry decodes to an image with a valid ID |
| `SchemaOneManifest.Manifest.FixLayers` | docker/distribution/pull_v2.go:802-846 | succeeds exactly on acceptable manifests and then leaves the last entry of each run in both lists; a rejected one is left alone unless the failure is a wrong parent, and then exactly when no ID repeats from the last wrong parent on |
| `SchemaOneManifest.Manifest.DropRepeats` | docker/distribution/pull_v2.go:835-843 | the backward loop in place on both lists; on a wrong parent both are cleaned from the last such index on, and unchanged exactly when no ID repeats there |
| `EndpointFallback.Pull` | docker/distribution/pull.go:141-226 | visits exactly the endpoints no earlier failure bars, in order, up to the first success or final error, and reports the last relevant error when exhausted |
| `EndpointFallback.Push` | docker/distribution/push.go:132-195 | the same visits; the last error is the one reported |
| `EndpointFallback.NoDowngrade` | docker/distribution/pull.go:163-198 | on the attempts themselves: whoever is visited before another fell back, no v1 endpoint is visited after one confirmed v2, and no plaintext endpoint of a host that answered over TLS |
| `EndpointFallback.SkippedOnlyFor` | docker/distribution/pull.go:163-174 | an endpoint is passed over only for one of these two reasons |
| `EndpointFallback.EndsBecause` | docker/distribution/pull.go:183-220 | what ends the loops: a success, or a failure that does not fall back or was cancelled; exhausted only if every visited endpoint fell back or has an unknown version |
| `EndpointFallback.ErrorsAre` | docker/distribution/pull.go:178-212 | the errors chosen from are those of the visited endpoints, in order |
| `EndpointFallback.VisitedUnique` | docker/distribution/pull.go:163-197 | the rule determines the endpoints visited: no two visit lists satisfy it |
| `EndpointFallback.ReportedIsLastReal` | docker/distribution/pull.go:199-213 | once an endpoint failed for another reason than "no support", the error reported is the last one that is not "no support" |
| `EndpointFallback.ReportedSnoc` | docker/distribution/pull.go:199-213 | the two variables of the loop compute the error chosen from the whole list |
| `V1Push.AppendMissing` | docker/distribution/push_v1.go:241-267 | appending a layer's missing dependencies keeps every image after its parent and every dependency listed once, and completes the list for that layer |
| `V1Push.AppendTag` | docker/distribution/push_v1.go:207-239 | so does appending the uploads of a tagged image, which then stay closed under parent |
| `V1Push.UploadsForOneMore` | docker/distribution/push_v1.go:172-197 | a correct upload list for some images becomes one for one more image, over any layer forest shared between them |
| `V1Push.TagsOfExactly` | docker/distribution/push_v1.go:176-182 | an image is pushed with exactly the tags associated with it |
| `V1Push.TagsOfConcat` | docker/distribution/push_v1.go:176-182 | tags keep the order and multiplicity of the associations |
| `V1Push.TagNamesParents` | docker/distribution/push_v1.go:99-142 | every listed image names as its parent the layer below its own, a tagged image the one below its top layer |
| `V1Push.BelowTop` | docker/distribution/push_v1.go:213-236 | an image needs exactly the layers below its top layer as dependencies |
| `V1Push.LayerlessAlone` | docker/distribution/push_v1.go:213-236 | a known image without layers is pushed by itself |
| `V1Push.V1Pusher.GenerateDependencyImages` | docker/distribution/push_v1.go:241-267 | returns the dependencies not seen yet, base first, and extends the memo by what was listed |
| `V1Push.V1Pusher.ImageListForTag` | docker/distribution/push_v1.go:207-239 | succeeds exactly when the image and its layer are there, and lists its missing dependencies and then the image |
| `V1Push.V1Pusher.ListForOneTag` | docker/distribution/push_v1.go:153-170 | pushing one tag lists that image and everything below it in upload order |
| `V1Push.V1Pusher.GetImageList` | docker/distribution/push_v1.go:172-205 | fails exactly when nothing is tagged or an image is unavailable; otherwise the list is in upload order, names every parent, covers exactly the tagged images and what they need, each image carries all its tags, and the memo is closed under parent |
| `ContainerState.NoLostWakeup` | docker/container/state.go:129-173 | in any interleaving a waiter on an open channel holds the current channel of a running container, every earlier channel was closed exactly once, and the flags agree |
| `ContainerState.StopWakesAll` | docker/container/state.go:225-256 | after a stop, for good or to restart, every blocked waiter can proceed and reads the code of that stop |
| `ContainerState.GivesUp` | docker/container/state.go:138-140 | a blocked waiter can always give up, and nothing else changes |
| `ContainerState.PausesExactly` | docker/daemon/pause.go:25-48 | a container can be paused exactly when it runs and is neither paused nor restarting, and resumed when it is paused |
| `ContainerState.LastEventDecides` | docker/container/state.go:205-256 | in every run the last start, exit or restart decides whether the container runs, restarts, and under which pid |
| `ContainerState.LastPauseDecides` | docker/daemon/monitor.go:79-99 | a container is paused exactly when the last pause, resume, start or exit was a pause |
| `ContainerState.PromisedCode` | docker/container/state.go:126-144 | for a waiter on the current channel, a stop, any steps and then its read: it returns the code of the stop, whatever that is, exactly when no step in between sets the code |
| `ContainerState.WaitAfterExit` | docker/container/state.go:129-135 | a wait begun after an exit returns its code at once, as long as nothing started it or set the code since |
| `ContainerState.CodeInForce` | docker/container/state.go:193-256 | in any interleaving the stored code is that of the last event that set one |
| `ContainerState.RunIgnoresCodes` | docker/container/state.go:129-173 | no exit code, stored or returned, decides which steps can be taken |
| `ContainerState.RestartHidesCode` | docker/container/state.go:129-144 | a run in which a container stops with 7 and its waiter returns 0 |
| `ContainerState.ContainerState.Run` | docker/container/state.go:205-215 | a started container is neither paused nor restarting, has exit code 0 and the given pid, and no channel is closed |
| `ContainerState.ContainerState.Stop` | docker/container/state.go:225-234 | closes the open channel, legally, and replaces it; the new flags agree |
| `ContainerState.ContainerState.Restart` | docker/container/state.go:246-256 | the same, but the container counts as running and restarting |
| `HealthMonitor.Health.constructor` | docker/daemon/health.go:253-257 | a new health record means no results yet |
| `HealthMonitor.Health.HandleProbeResult` | docker/daemon/health.go:108-141 | takes the meaning of the results so far (streak, log, status) to the meaning of all of them, and reports whether the status changed |
| `HealthMonitor.Health.HandleAll` | docker/daemon/health.go:108-141 | after any results: the streak is the length of the trailing failures, the log the last five, and the status unhealthy from the configured streak on, else healthy if a probe ever succeeded |
| `HealthMonitor.StreakIsFailures` | docker/daemon/health.go:126-136 | the streak reaches n exactly when the last n results all failed |
| `HealthMonitor.StatusExactly` | docker/daemon/health.go:108-141 | unhealthy exactly when as many results as configured, three by default, failed in a row at the end; otherwise healthy once a probe succeeded; the log is the last five results |
| `MonitorProtocol.OneMonitor` | docker/container/health.go:32-52 | in every run whose openers hold the lock there is at most one live monitor, it is the one of the current channel, and a channel without a live monitor is just being forgotten |
| `MonitorProtocol.RunKeeps` | docker/daemon/health.go:223-269 | every such run keeps the agreement between lock, callers, channel and monitors |
| `MonitorProtocol.NoResultAfterClose` | docker/container/health.go:42-52 | in every run, locked or not, once the send that stops a monitor has gone through, no probe result of it is applied |
| `MonitorProtocol.CloseStops` | docker/container/health.go:42-52 | whatever the others do, a close with the lock that finds a live monitor has stopped it by the time it is through |
| `MonitorProtocol.OpenLeavesChannel` | docker/container/health.go:32-39 | an open leaves a channel behind, with a new live monitor if there was none |
| `MonitorProtocol.AppliedAtMostProbed` | docker/daemon/health.go:145-200 | in every run each result applied comes from a probe of its own |
| `MonitorProtocol.TimedOutWaits` | docker/daemon/health.go:185-196 | after a timeout no further probe is started until the old one has exited |
| `MonitorProtocol.StopReceivedExactly` | docker/daemon/health.go:149-180 | a stop request is received exactly while the monitor is idle or probing, and ends it |
| `MonitorProtocol.AppliedExactly` | docker/daemon/health.go:108-110 | a result waits for the container's lock |
| `MonitorProtocol.ExitedStays` | docker/daemon/health.go:145-200 | a monitor that received a stop request never acts again |
| `MonitorProtocol.TwoMonitorsExactly` | docker/daemon/health.go:223-269 | whatever the callers without the lock may do, two live monitors are possible exactly when one of them may open the channel |
| `MonitorProtocol.DaemonStartsTwo` | docker/daemon/monitor.go:22-86 | with the daemon's own callers, out-of-memory events and the start event of an automatic restart among them, a second monitor can be started |
| `ContainerRemoval.RemovalExcludesStart` | docker/daemon/delete.go:21-50 | in any interleaving at most one caller is between taking and returning the removal flag, no start creates a process while the flag or the dead mark is set, and only a dead container is deregistered |
| `ContainerRemoval.OnlyForceRemovesRunning` | docker/daemon/delete.go:80-92 | in every run without a forced kill that reported success, in particular without force, a container that is dead or deregistered is not running |
| `ContainerRemoval.DeregisteredBecause` | docker/daemon/delete.go:21-137 | in every run a deregistered container was removed by a call that was not for a link only, stopped it, marked it dead, and deleted it or was forced |
| `ContainerRemoval.RemovalGoesThrough` | docker/daemon/delete.go:21-137 | a removal that stops the container, of a stopped one or by force, ends with it dead and the flag given back, and deregistered exactly when it was deleted or the removal forced |
| `ContainerRemoval.SecondRemovalReturns` | docker/daemon/delete.go:28-31 | a removal that finds the flag taken returns and changes nothing |
| `ContainerRemoval.Started` | docker/daemon/start.go:92-167 | a start alone leaves the container running exactly when the process was created |
| `ContainerRemoval.CleanedUpOnce` | docker/daemon/delete.go:21-36 | after deregistration no caller is in the clean-up or enters it again, and no further removal finds the container, whatever follows |
| `ContainerRemoval.DeadRunsUntilExit` | docker/daemon/start.go:92-102 | dead is permanent, and a dead container counts as running at the end of a run exactly when it did at the start and no exit was handled |
| `ContainerRemoval.DeregisteredRunningExactly` | docker/daemon/delete.go:97-120 | a deregistered container was marked dead, and counts as running exactly when it did at that time and no exit has been handled since |
| `ContainerRemoval.DeregisteredWhileRunning` | docker/daemon/delete.go:80-137 | a run in which a forced removal deregisters a container that still counts as running |
| `ContainerRemoval.CreatedUnderRemovalExactly` | docker/libcontainerd/container_linux.go:183-197 | with the flag or the dead mark set a process can be created exactly when an automatic restart is pending |
| `ContainerRemoval.RestartPendingUnderRemoval` | docker/daemon/monitor.go:49-62 | a run in which a removal takes the flag while a restart is pending |
| `ContainerRemoval.RunKeeps` | docker/container/state.go:283-305 | every run keeps the agreement between flag, lock, registration and where the callers stand |
| `LinkIndex.LinkBacked` | docker/daemon/links.go:30-46 | linking keeps every reverse entry backed by a forward one exactly when the parent does not use the alias for another child |
| `LinkIndex.UnlinkBacked` | docker/daemon/links.go:49-54 | the same condition decides it for unlinking |
| `LinkIndex.DeleteBacked` | docker/daemon/links.go:82-90 | deleting always keeps reverse entries backed, leaves the container nobody's parent and changes no link between others |
| `LinkIndex.LinkMirrored` | docker/daemon/links.go:30-46 | linking keeps every forward entry mirrored |
| `LinkIndex.UnlinkMirrored` | docker/daemon/links.go:49-54 | unlinking keeps forward entries mirrored exactly when the pair had no other alias |
| `LinkIndex.DeleteMirrored` | docker/daemon/links.go:82-90 | deleting keeps them mirrored exactly when no other container had the deleted one as child |
| `LinkIndex.UnlinkUndoesLink` | docker/daemon/links.go:30-54 | unlinking the first link of a pair under an unused alias restores every look-up in both directions |
| `LinkIndex.UnlinkForgetsTwin` | docker/daemon/links.go:49-54 | with two aliases for one pair, unlinking one leaves the other without its reverse entry |
| `LinkIndex.RunBacked` | docker/daemon/links.go:30-90 | in every sequence of operations with aliases unique per live link all reverse entries stay backed |
| `LinkIndex.NamedLinksBacked` | docker/daemon/daemon.go:355-366 | in every run of reserving names, registering and removing links and removing containers, the reservations make the aliases unique: every live link has its full name reserved for its child under a registered parent, and is backed |
| `LinkIndex.LinksCanBeLookedUp` | docker/daemon/daemon.go:355-366 | a link is made exactly when its parent is registered and its name is not another child's; it can then be looked up both ways, and after its removal neither |
| `LinkIndex.DeletedStaysNobodysParent` | docker/daemon/links.go:67-90 | a deleted container is never reported as a parent again unless it is linked as one |
| `LinkIndex.Index.Link` | docker/daemon/links.go:30-46 | both maps change as in the value-level link |
| `LinkIndex.Index.Unlink` | docker/daemon/links.go:49-54 | both maps change as in the value-level unlink |
| `LinkIndex.Index.Delete` | docker/daemon/links.go:82-90 | the loop over the children ends in the value-level deletion, whatever its order |
| `LinkIndex.Index.Parents` | docker/daemon/links.go:67-79 | gives, for every alias of the child, a parent using it, and with backed entries one that has the child under that alias |
| `ContainerList.ListingIsQuery` | docker/daemon/list.go:171-216 | with rendering that succeeds, the listing is the first `limit` containers passing the filters from the part of the list strictly after `before` and strictly ahead of the first later `since` |
| `ContainerList.FilterExactly` | docker/daemon/list.go:315-423 | which containers pass: running, unless all or a number is asked for, and meeting every filter given |
| `ContainerList.FilterConcat` | docker/daemon/list.go:184-197 | the order of the list is kept and nothing is listed more often than it occurs |
| `ContainerList.SelectedFromWindow` | docker/daemon/list.go:305-319 | the recursive selection takes exactly that part of the list |
| `ContainerList.RenderedIsFirst` | docker/daemon/list.go:184-197 | rendering up to the limit takes a prefix |
| `ContainerList.RenderedPassesOver` | docker/daemon/list.go:184-197 | containers that render to nothing are passed over and do not count towards the limit |
| `ContainerList.RenderedFails` | docker/daemon/list.go:184-191 | the first container that fails to render fails the listing, unless the limit is reached before it |
| `ContainerList.DecideAgrees` | docker/daemon/list.go:304-423 | each decision made on a container agrees with the query on what is left of the list |
| `ContainerList.ListContext.IncludeContainer` | docker/daemon/list.go:304-423 | excludes up to and including `before`, which it clears, and then decides as the query does |
| `ContainerList.ListContext.ReduceContainers` | docker/daemon/list.go:171-198 | the stateful loop computes the query, with its rendering errors and containers that render to nothing |
| `DisplayablePorts.LessTotal` | docker/api/common.go:39-53 | two different ports are ordered in exactly one direction |
| `DisplayablePorts.LessTransitive` | docker/api/common.go:39-53 | the order is transitive |
| `DisplayablePorts.LexIsDictionary` | docker/api/common.go:39-53 | texts are compared as in a dictionary |
| `DisplayablePorts.SortedByFields` | docker/api/common.go:39-53 | sorted ports go by private port, then address, then public port, then protocol |
| `DisplayablePorts.SortedUnique` | docker/api/common.go:39-67 | a multiset of ports has one sorted order, so the display does not depend on input order or on the sorting algorithm |
| `DisplayablePorts.SortSorts` | docker/api/common.go:67 | sorting gives a sorted permutation |
| `DisplayablePorts.MaximalWhenDistinct` | docker/api/common.go:68-97 | the ranges of a key leave a gap between each other exactly when its ports are distinct |
| `DisplayablePorts.PortsGoTo` | docker/api/common.go:68-78 | a port published on a different port is listed by itself, any other is collected under its address and protocol |
| `DisplayablePorts.Collect` | docker/api/common.go:63-98 | for every key, expanding its ranges in order gives its ports, no range continues the one before, and remapped ports are listed once each; the list ends with one range per key in the order the keys first occur |
| `DisplayablePorts.Flush` | docker/api/common.go:94-97 | closes the groups left open, in the order of their keys |
| `DisplayablePorts.Display` | docker/api/common.go:58-100 | sorts in place; nothing is lost or invented with respect to the ports given |
| `DisplayablePorts.KeyRoundTrip` | docker/api/common.go:102-118 | address and protocol are recovered from the key they were put in exactly when neither contains the separator |
| `CopyEscapable.Copy` | docker/container/container.go:485-537 | for every chunking of the input, without a failed write everything read is written, on detaching everything but the keys at the end is, and what was not read is still to come; it reports a failed or short write exactly when there was one, and otherwise ends where and how its input says |
| `CopyEscapable.ReadGroup` | docker/container/container.go:495-506 | reads on while single bytes match the keys, and keeps everything it read |
| `CopyEscapable.ReadsToTheEnd` | docker/container/container.go:528-534 | without read errors the input is read to its end, unless the copy detaches |
| `CopyEscapable.FailsAtBrokenRead` | docker/container/container.go:528-534 | the copy fails only at a broken read and leaves exactly what comes after it |
| `CopyEscapable.DetachesOnlyWhenTyped` | docker/container/container.go:495-506 | the copy detaches only if the keys are typed somewhere |
| `CopyEscapable.TypedKeysDetach` | docker/container/container.go:495-506 | typing the keys from the first read on detaches, and an input no longer than the keys detaches only that way |
| `CopyEscapable.ReliableKeysExactly` | docker/container/container.go:495-506 | typing the keys anywhere in an input without read errors detaches, whatever comes before, if and only if all keys are equal |
| `CopyEscapable.RepeatedFirstKeyHides` | docker/container/container.go:495-506 | for any keys that differ, typing the first one once more ahead of them is an input that does not detach |
| `CopyEscapable.MissedDetach` | docker/container/container.go:495-506 | ctrl-p ctrl-p ctrl-q ends with the default keys and does not detach |
| `CopyEscapable.MatchedAll` | docker/container/container.go:495-506 | the match count is complete exactly when the reads type the keys |

## Left out

- Name and ID look-up (`GetImageID`, `GetContainer`, reference parsing) is a parameter; only its outcome matters to what is modelled.
- The order of the records an image deletion returns, and its records of released layers, are not modelled; the deleted images are listed in order.
- `ImageStore.Store.Delete`: errors of the digest set and of the backend, which the code ignores or logs, are not modelled.
- `ImageDelete.ImageDaemon.DeleteAndPrune`: a layer release that fails, which would end the pruning early, is not modelled.
- The layer forest a v1 push walks is taken as given by the layer store: every stored layer is filed under its chain ID with its stored parent.
- A v1 image's configuration and ID are those of its chain or image ID; the JSON that the code hashes is not modelled.
- `LayerDownload.DownloadSafe`: the limit of five attempts and cancelling are covered as shorter sequences of attempts.
- The error text and the timestamps of a container's state are not modelled.
- Deadlock freedom and timing of the health channel, of stopping and of killing: the code gives no such guarantee; only safety is stated.
- `ContainerRemoval.RemovalExcludesStart`: the clean-up after a failed container creation is not among the steps.
- How the listing matches a name, an ID, labels or a status against the user's patterns enters as predicates, and the fast path for exact names and IDs is not modelled.
- The text of a port range is not rendered.
- `LinkIndex.NamedLinksBacked`: renaming containers is not among the operations, and a link's full name is the pair that the code joins into one path.
- `CopyEscapable.Copy`: reads that return more than the 32 KiB buffer do not exist; a read error together with data is modelled.
- Real file systems, HTTP transport, authentication, compression, progress output, graph drivers, networking, volumes, SELinux and the containerd client: calls with no visible semantics.
- The CLI, the builder, configuration reloading, OCI spec assembly and platform variants: they would only add easy members.
