# Verified model of the skills-fs core

skills-fs is an in-memory filesystem engine: paths are routed through a trie of mounts, streams are byte rings
with backpressure, handles coalesce writes, advisory locks and a handle budget guard concurrent use, and calls to
providers go through a circuit breaker, a cache and (at the HTTP edge) a rate limiter. This project models those
machines in Dafny and proves what they keep over every run. `dafny verify dfyconfig.toml` checks all of it.

Each machine has the same shape:

- a value or a pure function that says what the machine *is* (a bounded queue, a map of mounts, a ledger),
- where the source updates fields in place, a class whose methods are proved to compute exactly that,
- a step system in which every section under a mutex, and every atomic operation, is one step, so that runs are
  arbitrary interleavings; a wait on a condition variable parks the thread,
- theorems about every reachable state or every run.

| files | what |
|---|---|
| `Modular`, `Stream`, `StreamRuns` | the byte ring of `core/stream.go` as a bounded queue; interleavings of readers, writers and close |
| `Paths`, `PathText`, `Params`, `Entries` | path syntax as the code takes it apart and on the text alone, the 8-slot parameter set, mount entries |
| `Trie`, `TrieRuns`, `RenameLoss` | the router as a value: map of mounts and grow-only skeleton, and its runs |
| `Matching`, `Lookups`, `Echoes`, `NameViews` | what `match` means, when lookups keep their answers, what the bound parameters look like |
| `RouterAnswers` | which error the router answers when |
| `Router` | the mutable router, proved to compute the value model |
| `Snapshots`, `Consistency`, `Diff` | snapshot and restore, which lists of entries a router takes in, snapshot diffs |
| `Filesystem`, `FsEffects`, `MountAnswers`, `FsRuns`, `FsBreaks` | mount, unmount, rename and restore with skills, their runs, and how they break the limit and the reserved paths |
| `Reloading`, `ReloadExact`, `ReloadJobs` | configuration reload |
| `Locks` | the lock manager and its interleavings |
| `HandleBuffer`, `HandleRuns`, `HandleTable` | buffered writes with triggers and timer; the handle table and its CAS loop |
| `Breaker`, `ProviderCache` | the circuit breaker; the cache key and the cache |
| `RateLimit`, `RateLimitExact` | the token bucket, its bound, eviction, and an exact window characterization |

## What was found

Properties that do not hold as stated have a counterexample and the exact condition under which they do.

- `remove` undoes `add` on the map of mounts (`Matching.RemoveUndoesAdd`) but not on lookups: a removed static mount
  keeps shadowing a parameter route (`Matching.DeadNodeShadows`), and a missed path above it becomes a hit without a
  mount (`Lookups.DeadBranchAnswers`). `Lookups.AddThenRemoveKeptIff` says for every normal path when its answer is kept.
- A rename that fails puts the entry back exactly when the old path spells parameter names as the router does
  (`TrieRuns.RenameRefines`); otherwise the mount is gone (`RenameLoss.RenameLosesMount`).
- Mount refuses reserved paths, Rename and Restore do not look: `FsRuns.ReservedEntersIff` gives every way one gets
  mounted, `FsBreaks.RenameMountsReserved` and `FsBreaks.RestoreMountsReserved` an example of each.
- The mount limit is not kept by a restore of too many entries, nor where a skill's files are put at the root
  (`FsRuns.LimitKeptIff`; `FsBreaks.RestoreExceedsLimit`, `FsBreaks.SkillExceedsLimit`, `FsBreaks.ExposeExceedsLimit`);
  a mount that fails there may leave `/SKILL.md` behind (`FsEffects.MountEffect`).
- A restore can mount paths that no mount would store (`FsRuns.ProperKeptIff`, `FsBreaks.RestoreMountsImproper`).
- A restore and a reload stop midway exactly when their entries are not consistent with the router
  (`Consistency.RestoreSucceedsIff`, `ReloadExact.ReloadSucceedsIff`); giving a parameter another name is enough
  (`ReloadExact.RenamedParameterFails`).
- An open can be refused although there is room, while a drop has deleted its entry and not yet given the budget back
  (`HandleTableRuns.RefusedWhileDropping`); `HandleTableRuns.LateReturnIsConservative` says exactly when.
- A writer whose chunk is larger than the ring waits until close, whatever is read (`StreamRuns.DrainReleasesIff`).
- A `Write` that passed its `closed` test before `Close` can report success and never be delivered
  (`HandleRuns.LateWriteIsLost`, `HandleRuns.LateWriteHappens`); `HandleRuns.NilCloseIsFinalIff` gives the exact condition.
- Buffered bytes can be left without a timer that will flush them, by exactly two kinds of step: a write cut short by
  a refused flush when no timer is set, and the refusal of the last flush on its way, a timer's or a caller's, when no
  live timer is set (`HandleRuns.CoverStepIff`, `HandleRuns.BytesAreCoveredIff`; `HandleRuns.RefusedWriteForgets`,
  `HandleRuns.FailedFlushForgets` and `HandleRuns.CallerFlushForgets` show them).
- Evicting idle buckets keeps the rate bound exactly when the rate refills a burst within the ten-minute TTL
  (`RateLimitRuns.BoundSurvivesSweepsIff`).
- A query shares its cache key with some other query unless it has no parameters and no bar in provider or action
  (`CacheKeys.OwnsKeyIff`). Over a set of queries the cache never hands out another query's data exactly when no two
  of them share a key (`ProviderCache.NeverLeaksIff`), as is so for plain queries (`ProviderCache.PlainNeverLeaks`).
- `Get` and `ToMap` agree on what a route binds exactly when the route repeats no parameter name
  (`NameViews.RouteViewsAgreeIff`); `add` accepts routes that do (`NameViews.RepeatedNameIsMounted`).
- The comment on `Mount` promises EBUSY at the mount limit; the code, and the model, return ENOSPC.

## Model

| member | source | states |
|---|---|---|
| Modular.SlotIsRemainder | core/stream.go:127-133 | stepping an index with the ring's increment and wrap is adding and taking the remainder |
| Stream.StreamBuffer.constructor | core/stream.go:82-104 | 65536 bytes, Block mode and chunks of 65536, overridden by the mode and the positive settings; the ring starts as the empty queue |
| Stream.StreamBuffer.CopyOut | core/stream.go:127-133 | the copy loop hands out the oldest bytes in order and leaves the rest of the caller's slice alone |
| Stream.StreamBuffer.Read | core/stream.go:108-136 | one section of `read` is one step of the bounded queue; it parks, or answers EAGAIN if it may not block, exactly on the open empty stream, and else takes the oldest bytes that fit the slice |
| Stream.StreamBuffer.DropOldest | core/stream.go:161-165 | Drop mode's loop moves `r` and lets `count` fall below zero by a known amount when the chunk exceeds the ring |
| Stream.StreamBuffer.CopyIn | core/stream.go:179-183 | the copy loop lays the chunk out behind earlier bytes, overwriting only those that left the window, also with negative `count` |
| Stream.StreamBuffer.Store | core/stream.go:161-184 | after dropping and copying, the contents are the last `capacity` bytes of old contents and chunk |
| Stream.StreamBuffer.Write | core/stream.go:142-186 | one section of `write` is one step of the bounded queue in all three modes, for chunks of any length |
| Stream.WriteAnswers | core/stream.go:142-186 | its answer and queue, with every condition written out: EPIPE, ENOSPC, EAGAIN, parking, or the chunk of at most MaxChunkSize bytes behind the others and the newest `capacity` kept |
| Stream.StreamBuffer.Close | core/stream.go:188-193 | closing keeps the contents |
| Stream.StreamBuffer.WritePayload | core/filesystem.go:769-781 | the payload loop does to the ring what the specification does to the queue |
| Stream.DropPayload | core/filesystem.go:769-781 | in Drop mode an uninterrupted payload of any length, written to an open stream, leaves the newest `capacity` bytes and ends without error |
| Stream.DropIgnoresChunkSize | core/stream.go:142-186 | so the final contents do not depend on MaxChunkSize |
| Stream.FullPayload | core/filesystem.go:769-781 | in Block and Error mode a payload that fits goes in whole; of any other as many whole chunks as there is room for, and the loop ends with ENOSPC, EAGAIN or parking |
| Stream.ClosedPayload | core/stream.go:146-148 | on a closed stream every nonempty payload is refused with EPIPE as a whole |
| StreamRuns.ParksIff | core/stream.go:112-177 | in every reachable state a starting or woken call comes to wait exactly if it may block and finds the open stream empty, or in Block mode too full for its chunk |
| StreamRuns.StepMoves | core/stream.go:112-185 | what each such call takes out or puts in, and that whatever moved bytes leaves nobody parked |
| StreamRuns.OthersGoOn | core/stream.go:119-134 | every thread but the one that runs goes on waiting for its own call; close wakes all |
| StreamRuns.ClosedForGood | core/stream.go:142-193 | a closed stream stays closed, keeps nobody parked and takes nothing in, over every run |
| StreamRuns.FirstInFirstOut | core/stream.go:108-193 | Block and Error mode, every interleaving: bytes read followed by bytes held are the accepted chunks in order, and at most `capacity` are held |
| StreamRuns.HoldsNewest | core/stream.go:150-185 | every mode: the ring holds the newest accepted bytes |
| StreamRuns.ReadsAreInOrder | core/stream.go:108-186 | every mode, every interleaving: the places of the bytes readers got strictly increase among the accepted ones, so none is handed out twice, and lie before those still held |
| StreamRuns.NoLostWakeup | core/stream.go:119-134 | in every reachable state a parked thread's guard still fails and the stream is open |
| StreamRuns.OversizeNeverLeaves | core/stream.go:167-177 | a chunk larger than the ring stays parked through every run without close |
| StreamRuns.FittingIsReleased | core/stream.go:167-184 | a chunk that fits is released by one read and one resumption |
| StreamRuns.DrainReleasesIff | core/stream.go:167-184 | a parked writer can be released by draining exactly when its chunk is at most `capacity` |
| Paths.JoinOfSplit | core/filesystem.go:62-67 | joining the parts of a split gives the text back |
| Paths.SplitOfJoin | core/router.go:271-285 | splitting a join of separator-free parts gives the parts back |
| Paths.NormalAgreesWithClean | core/filesystem.go:51-69 | on every path `normalizePath` accepts, `cleanParts` succeeds with the segments, and they spell the path |
| Paths.NormalHasNoDoubleSlash | core/filesystem.go:51-69 | accepted paths have no empty segment |
| Paths.TextIsNormal | core/router.go:271-285 | well-formed segments spell a path both checks accept and take apart again |
| Paths.CleanIffTrimmedNormal | core/router.go:271-285 | `cleanParts` accepts exactly what is normal after trimming outer slashes |
| PathText.PartIff | core/filesystem.go:62-67 | a text is a part of a split exactly when it occurs between two slashes |
| PathText.NormalIffText | core/filesystem.go:51-69 | besides the root, exactly the paths that start with a slash and, with one put behind, contain none of "//", "/./" and "/../" are accepted |
| PathText.CleanOnText | core/router.go:271-285 | `cleanParts` on the text: what the slashes at both ends enclose is not empty and contains none of those; no part is empty, "." or ".." |
| Params.ParamSet.Set | core/params.go:21-27 | appends a pair, and silently ignores a ninth |
| Params.ParamSet.Reset | core/params.go:30-32 | empties the set |
| Params.ParamSet.Get | core/params.go:38-45 | the first pair with the key |
| Params.ParamSet.ToMap | core/params.go:57-66 | the map in which later pairs win |
| Params.ViewsAgree | core/params.go:38-66 | with distinct names the two views agree on every key |
| Params.ViewsDiffer | core/params.go:38-66 | a repeated name with different early and late values shows the difference: `Get` tells the early one, `ToMap` the late one |
| Params.ViewsAgreeIff | core/params.go:38-66 | the views agree whatever the values exactly when no name is repeated |
| NameViews.RouteViewsAgreeIff | core/params.go:38-66 | they agree on every lookup a mounted route answers exactly when the route repeats no name |
| NameViews.RepeatedNameIsMounted | core/router.go:37-55 | `add` accepts "/:id/:id", which repeats one |
| Trie.GrowKeeps | core/router.go:35-63 | the walk of `add`, failed or not, keeps the skeleton (at most eight parameters on every path), all names and all mounts |
| Trie.GrowSpells | core/router.go:35-63 | a completed walk ends at the path's position, spelled as the path spells it |
| Trie.GrowIffAccepts | core/router.go:35-63 | the walk completes exactly on paths within the parameter budget that spell existing parameter names |
| Trie.SpellLeadsBack | core/router.go:30-71 | every node spells well-formed segments that lead back to it |
| Trie.PositionsAreDistinct | core/router.go:30-71 | two nodes with one spelling are one node |
| TrieRuns.AddRefines | core/router.go:30-71 | `add` succeeds exactly on an accepted, free position and then is a map insertion; a failure leaves the map and the id counter alone |
| RouterAnswers.AcceptsIff | core/router.go:35-53 | the nodes accept a path exactly if it has at most eight parameters, none nameless and none named otherwise in its place |
| RouterAnswers.AddCode | core/router.go:30-68 | a failed `add` answers EINVAL exactly for a malformed path or one whose first fault is a nameless or ninth parameter, else EEXIST |
| TrieRuns.RemoveRefines | core/router.go:73-98 | `remove` deletes exactly the mounted entry of the position and never touches the skeleton |
| RouterAnswers.RemoveCode | core/router.go:73-94 | a failed `remove` answers EINVAL for a malformed path and else ENOENT |
| TrieRuns.AcceptsIffSpelled | core/router.go:47-52 | at an existing position a path is accepted exactly when it spells the names in force |
| TrieRuns.PutBack | core/filesystem.go:434-439 | re-adding a removed entry works exactly when the path is well spelled |
| TrieRuns.RenameRefines | core/filesystem.go:428-441 | success moves the entry; failure restores it up to id exactly when the old path is well spelled, else it is lost |
| TrieRuns.RenameSucceedsIff | core/filesystem.go:428-441 | a rename succeeds exactly when the target is accepted and free or is the source itself |
| RouterAnswers.RenameCode | core/filesystem.go:428-441 | which error a failed rename answers |
| FsRuns.RenameOutcome | core/filesystem.go:403-441 | what a rename answers and leaves, in all cases: moved, put back, lost, or refused with which error |
| RenameLoss.BadRenameLoses | core/filesystem.go:428-441 | a badly spelled rename onto another mount fails and takes the entry with it |
| RenameLoss.RenameLosesMount | core/filesystem.go:428-441 | so it goes with "/:id" and "/b" mounted and "/:x" renamed to "/b" |
| TrieRuns.RunKeeps | core/router.go:30-98 | over every run entries sit where their paths clean to, and the skeleton only grows with its names unchanged |
| TrieRuns.RunRefinesMap | core/router.go:30-98 | every run of add, remove and rename is a run of a plain map |
| Matching.WalkIsSound | core/router.go:175-211 | the node a walk ends at fits segment by segment, is unshadowed, and its bindings are the collected parameters |
| Matching.WalkIsComplete | core/router.go:175-211 | an unshadowed fitting node is where the walk ends |
| Matching.HitIsNormal | core/router.go:175-211 | `match` succeeds only on paths `normalizePath` accepts |
| RouterAnswers.HitHasNoDots | core/router.go:175-202 | an answered path has no empty, "." or ".." segment, and no parameter is bound to one |
| RouterAnswers.MissCode | core/router.go:175-217 | a miss answers EINVAL exactly if the path is not absolute, contains "//", or has a bad segment up to which the nodes lead; else ENOENT |
| Matching.MatchIsBest | core/router.go:175-230 | a returned mount fits, has exactly its parameters with none dropped, and beats every other mounted pattern that fits |
| Matching.MatchIff | core/router.go:175-230 | a mounted pattern is returned exactly for paths that fit it and that no static node takes away |
| Matching.OwnTextMatches | core/router.go:175-230 | looking up a mounted pattern's own text returns that entry |
| Matching.GrowthKeepsHitIff | core/router.go:220-229 | after any growth a lookup keeps its answer exactly when no new static node shadows it |
| Matching.RemoveUndoesAdd | core/router.go:73-98 | `remove` undoes `add` on the map of mounts; the grown nodes stay |
| Matching.DeadNodeShadows | core/router.go:92-97 | for every parameter route and fresh static name: adding and removing that static mount turns the lookup into a miss |
| Lookups.EndDecides | core/router.go:175-218 | the node where a walk ends decides the answer: its mount, a hit without one if it has children, else ENOENT |
| Lookups.HitKeptIff | core/router.go:175-230 | after growth a hit keeps its answer exactly when the walk still ends there, or a new inner node echoes the answer of an inner one |
| Echoes.EchoHappens | core/router.go:175-230 | such an echo exists: another end of the walk, and the same answer |
| Lookups.MissKeptIff | core/router.go:212-217 | a miss stays one exactly when its walk ends at no inner node now |
| Lookups.LookupKeptIff | core/router.go:175-230 | both together, for every normal path |
| Lookups.GrowKeys | core/router.go:35-63 | a completed walk of `add` creates exactly the missing nodes on the way to its position |
| Lookups.AddThenRemoveKeptIff | core/router.go:30-98 | `remove` undoes `add` on a lookup exactly when the nodes `add` is going to create leave that condition intact |
| Lookups.MissTurnsIff | core/router.go:30-98 | a miss becomes a hit through add and remove exactly when its walk then ends strictly above the removed mount |
| Lookups.DeadBranchAnswers | core/router.go:212-217 | on an empty router, mounting and unmounting "/a/b" makes "/a" a hit without a mount |
| Snapshots.ListsLength | core/router.go:233-250 | a snapshot has as many entries as there are mounts |
| Snapshots.AddSpelled | core/router.go:30-71 | adding at a free position spelled as an agreeing skeleton spells it succeeds and keeps the agreement |
| Snapshots.RestoreGivesBack | core/filesystem.go:848-860 | restoring a snapshot, in any order, into a router whose names agree gives the same map up to ids |
| Snapshots.RestoreLater | core/filesystem.go:840-860 | any snapshot can be restored into its own router after any later run |
| Snapshots.RestoreFresh | core/filesystem.go:848-860 | and into a fresh router |
| Consistency.AcceptsGrown | core/router.go:35-63 | once a path is in, another is accepted exactly if it was before and agrees with it on shared parameters |
| Consistency.AddAllIff | core/filesystem.go:854-858 | adding a list to an empty table succeeds exactly when the router accepts every path and the entries have different places and agree |
| Consistency.RestoreSucceedsIff | core/filesystem.go:848-860 | a restore succeeds exactly on a list consistent in this sense with the router as it is |
| RouterAnswers.AddAllStopsAt | core/filesystem.go:854-858 | a restore that fails stops at the first entry the router refuses, with its error, and undoes nothing |
| Consistency.FrontIsLongest | core/filesystem.go:848-860 | the front of a list used below is its longest consistent prefix |
| Consistency.SnapshotIsConsistent | core/filesystem.go:840-860 | every snapshot is consistent with every router that names shared parameters alike |
| Router.Router.AddTurn | core/router.go:35-63 | one turn of the loop of `add` on the mutable nodes is one step of the value model, errors included |
| Router.Router.GrowAll | core/router.go:35-63 | the whole loop |
| Router.Router.Add | core/router.go:30-71 | `add` on the mutable nodes computes the value model's result and state |
| Router.Router.Find | core/router.go:73-91 | the walk of `remove` finds a position's node exactly when there is one |
| Router.Router.Remove | core/router.go:73-98 | `remove` computes the value model's result and state |
| Router.Router.Collect | core/router.go:233-250 | the recursive walk lists the mounted entries of a subtree, each once |
| Router.Router.Snapshot | core/router.go:233-250 | every mounted entry once |
| Router.Router.CountFrom | core/router.go:253-269 | the recursive count of a subtree is the number of mounts in it |
| Router.Router.Count | core/router.go:253-269 | `count` is the size of the map of mounts |
| Router.Router.NextRoute | core/router.go:220-229 | static child first, then the parameter child with its binding |
| Router.Router.Scan | core/router.go:184-211 | the index scanner visits exactly the path's segments |
| Router.Router.Match | core/router.go:175-218 | `match` computes the value model's lookup, with its errors and parameters |
| Diff.DiffSnapshots | core/filesystem.go:864-888 | the loops compute the three lists, in order |
| Diff.DiffListsAreDisjoint | core/filesystem.go:864-888 | no path is in two lists |
| Diff.DiffApplies | core/filesystem.go:864-920 | applying the diff to the old snapshot gives the new one: the same paths, and for each the same kind, mode, owner, link, visibility, time and blob, stream capacity and mode, and skill name and switch |
| Diff.ModifiedIff | core/filesystem.go:864-920 | an entry of a path in both snapshots is not reported exactly when all these fields are equal; the last old entry with the path counts |
| Diff.DiffKeepsOrder | core/filesystem.go:875-886 | each list is the part of its snapshot that it should be, in the snapshot's order |
| MountAnswers.MountStores | core/filesystem.go:254-352 | a mount that succeeds stores the entry with mode 0444, default owner and time filled in where zero, and the rendered files of an exposed skill as read-only blobs; nothing else changes |
| MountAnswers.MountCode | core/filesystem.go:228-352 | the answer of a mount: the first of the refusals that applies, in order, each with its error |
| MountAnswers.ReservedIff | core/filesystem.go:19-28 | a reserved path is one whose first segment is "sys", "healthz" or "debug" |
| MountAnswers.ConfiguredIff | core/types.go:169-208 | what each kind of entry may carry |
| MountAnswers.UnmountOutcome | core/filesystem.go:361-395 | an unmount deletes what is mounted there, also when it then fails on the skill's name; its errors otherwise |
| Filesystem.FileSystem.MountAt | core/filesystem.go:228-310 | validation, limits, provider checks, defaults, the router's answer and the skill's files, in the source's order |
| Filesystem.FileSystem.UnmountAt | core/filesystem.go:361-395 | path check, then `remove`, then giving the skill back |
| Filesystem.FileSystem.SetUp | core/filesystem.go:295-304 | a skill that cannot be rendered or exposed takes its mount back |
| Filesystem.FileSystem.MountSkillAtRoot | core/filesystem.go:312-352 | adds the skill's files to the router directly, stopping at the first refusal |
| Filesystem.FileSystem.RenameTo | core/filesystem.go:428-441 | remove, add, and the attempt to put back |
| Filesystem.FileSystem.RestoreFrom | core/filesystem.go:848-860 | clears what the router's own snapshot lists, then adds until the first refusal |
| Filesystem.FileSystem.ReloadWith | cmd/skills-fs/config.go:239-272 | diff against the live snapshot, then the three loops, stopping at the first error |
| Reloading.ReloadSucceeds | cmd/skills-fs/config.go:239-272 | a reload of acceptable entries never fails and ends with exactly the configured paths; each holds its entry's kind, blob, link, visibility, stream and skill settings, and its mode, owner and time or the defaults for zeros; what was mounted anew is the whole configured entry |
| ReloadExact.ReloadSucceedsIff | cmd/skills-fs/config.go:239-272 | a reload of mountable entries succeeds exactly when they are consistent with the router, and then ends with exactly their places mounted, each with its configured path and settings |
| ReloadJobs.ReloadInOrder | cmd/skills-fs/config.go:253-270 | a reload is one list of calls: unmount what was removed, unmount and mount each changed entry, mount what was added; it stops at the first that fails, with its error |
| ReloadExact.RenamedParameterFails | cmd/skills-fs/config.go:253-270 | with "/:id" mounted and "/:uid" configured it unmounts the first, fails on the second and leaves nothing |
| FsEffects.MountEffect | core/filesystem.go:228-352 | a mount succeeds exactly on what can be mounted and set up, and then gains the entry and its skill's files; a failure leaves the table as it was, but for a skill file in exactly one case |
| FsEffects.RestoreEffect | core/filesystem.go:848-860 | a restore ends with exactly the longest front of its list that is consistent with the router as it was, and succeeds exactly when that is all of it |
| FsRuns.LimitKeptIff | core/filesystem.go:254-257 | a step of Mount, Unmount, Rename, Restore or exposing and hiding a skill keeps the mount limit exactly unless it puts skill files at the root that no longer fit, or restores a list whose consistent front is too long |
| FsRuns.ProperKeptIff | core/filesystem.go:848-860 | it keeps all paths normal and all skill names valid exactly unless it restores a list whose consistent front has an entry otherwise |
| FsRuns.ReservedEntersIff | core/filesystem.go:403-441 | a reserved place gets mounted exactly by a rename onto it that can go ahead, or a restore of a list whose consistent front has an entry there |
| FsRuns.LimitHoldsOverRuns | core/filesystem.go:254-257 | from an empty filesystem, limit, paths and names stay in order through a run exactly when no step breaks them; then a reload finds what it relies on |
| FsRuns.OwnSnapshotIsSafe | core/filesystem.go:840-860 | restoring a snapshot of a filesystem in order never breaks anything |
| FsBreaks.RestoreMountsReserved | core/filesystem.go:848-860 | restoring an entry at "/sys" mounts a reserved path |
| FsBreaks.RenameMountsReserved | core/filesystem.go:403-441 | so does renaming a mount at "/a" to "/sys" |
| FsBreaks.RestoreMountsImproper | core/filesystem.go:848-860 | restoring an entry at "/a/" mounts a path that is not normal |
| FsBreaks.RestoreExceedsLimit | core/filesystem.go:848-860 | with a limit of one, restoring two entries leaves two mounts |
| FsBreaks.SkillExceedsLimit | core/filesystem.go:312-352 | with a limit of one, a single mount with an exposed skill leaves two or three mounts |
| FsBreaks.ExposeExceedsLimit | cmd/skills-fs/config.go:207-215 | with a limit of one, exposing a skill with an agents file directly leaves two mounts |
| Locks.LockManager.StateFor | core/flock.go:50-60 | creates a path's state once |
| Locks.CanTakeIff | core/flock.go:122-134 | `canTake` holds exactly if no other handle holds the path exclusively, nor at all when an exclusive lock is wanted |
| Locks.LockManager.TryTake | core/flock.go:82-143 | the loop body takes the lock exactly when `canTake` allows |
| Locks.LockManager.Release | core/flock.go:145-166 | removes the handle from its holder set and clears its kind |
| LockRuns.ExclusiveExcludes | core/flock.go:62-143 | in every reachable state an exclusive holder is the only holder of its path |
| LockRuns.KindAgreesWithHolders | core/flock.go:62-166 | `lockKind` and the holder sets say the same |
| LockRuns.NothingLeftBehind | core/flock.go:62-120 | a handle with a call under way, a failed call and a closed handle hold nothing |
| LockRuns.ConflictTest | core/flock.go:122-134 | the sole-shared-holder case is never reached: `canTake` is a plain conflict test |
| LockRuns.AttemptOutcome | core/flock.go:82-119 | in every reachable state an attempt takes the lock exactly when no other handle's lock conflicts; otherwise a nonblocking call ends with nothing and a blocking one parks; no other handle is touched |
| LockRuns.AcquireOutcome | core/flock.go:62-75 | asking for the lock held changes nothing; asking for the other kind gives the held one up first and wakes the waiters |
| LockRuns.ReleaseOutcome | core/flock.go:145-166 | unlock and close take only the handle's own lock and wake the waiters of its path |
| LockRuns.TimersOutcome | core/flock.go:93-118 | a watchdog wakes its path and changes no lock; a call that gives up is over |
| LockRuns.NoForgottenWaiter | core/flock.go:82-134 | a parked waiter's `canTake` is false |
| LockRuns.ReleaseWakes | core/flock.go:145-166 | releasing wakes every waiter of the path |
| LockRuns.WokenTakes | core/flock.go:82-166 | a waiter whose only conflict is released takes the lock at its next attempt |
| HandleBuffer.Handle.StopTimerLocked | core/handles.go:379-386 | stops the timer and closes its channel, which was never closed before |
| HandleBuffer.Handle.FlushPrefixLocked | core/handles.go:350-364 | delivers a prefix or, when the mount refuses, changes nothing |
| HandleBuffer.Handle.WriteLocked | core/handles.go:281-306 | append, newline trigger, size trigger, timer, with early return on a refused flush |
| HandleBuffer.Handle.CloseLocked | core/handles.go:218-226 | flush and stop the timer whatever the flush says |
| HandleBuffer.FlushAllKeeps | core/handles.go:342-364 | a flush conserves bytes; success empties the buffer and stops the timer, failure changes nothing |
| HandleBuffer.WriteKeeps | core/handles.go:281-306 | conservation and timer discipline; success leaves fewer than `maxSize` bytes, or 65536 if that is not positive, no newline under FlushOnNewline, and a timer if bytes and a delay remain |
| HandleBuffer.WriteLeaves | core/handles.go:281-306 | whatever the mount answers: when a write succeeds, what is left in the buffer (all, the bytes behind the last newline, or nothing once those reach the size limit), and what becomes of the timer |
| HandleBuffer.WriteWaitsIff | core/handles.go:281-306 | a write delivers nothing exactly when the buffer stays below the size limit and holds no newline to flush |
| HandleBuffer.CloseKeeps | core/handles.go:218-235 | success means everything appended was delivered; no timer survives |
| HandleRuns.NothingLostOrReordered | core/handles.go:260-386 | every interleaving with arbitrary failures: delivered then buffered is appended; timer and channel set together on a nonempty buffer; each channel closed at most once |
| HandleRuns.EveryChannelIsClosed | core/handles.go:301-386 | in every reachable state a timer is set only if there is a delay, and each channel ever made is the set timer's or closed |
| HandleRuns.NilCloseIsFinalIff | core/handles.go:218-235 | a nil Close has delivered everything, and that stays so in every later run exactly when no write under way still brings bytes |
| HandleRuns.LateWriteIsLost | core/handles.go:260-306 | the last write under way after a nil Close, if it trips no trigger, reports success and its bytes are delivered in no later state |
| HandleRuns.LateWriteHappens | core/handles.go:218-306 | such a write exists for every payload below the triggers: a run from the fresh handle |
| HandleRuns.CoverStepIff | core/handles.go:281-377 | from a covered state, bytes in an open handle with a delay lose their live timer or flush exactly by a write whose trigger's flush is refused with no timer set and no flush on its way, or by the refusal of the last flush on its way, a timer's or a caller's, when no live timer is set |
| HandleRuns.BytesAreCoveredIff | core/handles.go:281-377 | they are covered in all states of a run exactly when it takes no such step |
| HandleRuns.NoForgottenBytes | core/handles.go:301-377 | in particular when the mount refuses nothing |
| HandleRuns.RefusedWriteForgets | core/handles.go:282-303 | every payload that trips a trigger and is refused waits without a timer |
| HandleRuns.FailedFlushForgets | core/handles.go:366-377 | one refused timer flush leaves bytes behind a spent timer |
| HandleRuns.CallerFlushForgets | core/handles.go:310-317 | a caller's refused flush does so too, with no timer ever set |
| HandleRuns.StaysForgotten | core/handles.go:301-303 | from then on no later write below the triggers sets another timer, and nothing more is delivered until a trigger, Flush or Close |
| HandleTable.HandleManager.Acquire | core/handles.go:110-123 | the CAS loop, with what other threads do to `active` between its loads and swaps as an argument |
| HandleTable.ContendKeepsLimit | core/handles.go:114-122 | whatever they do, it is refused only on seeing the limit reached, and raises `active` by one only from below the limit |
| HandleTable.ContendStops | core/handles.go:110-122 | the loop goes round exactly while `active` is below the limit and changes under it; then it refuses, or counts one more and hands out the next id |
| HandleTable.HandleManager.Store | core/handles.go:125-130 | the shards act as one map under `put` |
| HandleTable.HandleManager.Get | core/handles.go:132-138 | and under `get` |
| HandleTable.HandleManager.Remove | core/handles.go:140-150 | and under `drop`, which gives the budget back only for a stored handle (both halves, under the shard's mutex) |
| HandleTableRuns.HalvesMakeDrop | core/handles.go:140-150 | the two halves of a drop make the whole one: the entry goes, and its place in the budget is given back once if it was counted |
| HandleTable.HandleManager.Snapshot | core/handles.go:155-166 | lists every stored handle exactly once |
| HandleTableRuns.BudgetHolds | core/handles.go:110-150 | under every interleaving of load, swap, numbering, put and the two halves of drop, `active` is stored handles, acquired ones on their way and drops under way, and never exceeds the limit |
| HandleTableRuns.RefusedIffFull | core/handles.go:114-118 | an open is refused exactly when those use up the limit |
| HandleTableRuns.LateReturnIsConservative | core/handles.go:140-150 | handles in use never exceed the limit; a refusal with room left happens exactly while drops under way take up that room, and the next decrement ends it |
| HandleTableRuns.RefusedWhileDropping | core/handles.go:140-150 | such a refusal exists, with a limit of one |
| HandleTableRuns.IdsNeverReused | core/handles.go:110-123 | ids are strictly increasing; stored and pending ids are issued ones and disjoint |
| HandleTableRuns.UnlimitedNeverCounts | core/handles.go:110-113 | without a limit nothing is counted or refused |
| Breaker.CircuitBreaker.Refuses | core/filesystem.go:1111-1128 | the admission step; refused exactly when enabled and still open |
| Breaker.CircuitBreaker.Record | core/filesystem.go:1136-1161 | the recording step |
| BreakerRuns.ClosedOpensIff | core/filesystem.go:1153-1160 | closed opens exactly with the failure that completes a streak of FailureThreshold failures, read off the history |
| BreakerRuns.OpenLeftIff | core/filesystem.go:1118-1126 | open is left exactly by an admission more than ResetTimeout after the latest recorded failure, never straight to closed |
| BreakerRuns.OpenLasts | core/filesystem.go:1118-1126 | on a nondecreasing clock an open breaker stays open until its timeout has passed |
| BreakerRuns.AdmissionStartsTrial | core/filesystem.go:1119-1123 | leaving open starts a trial with both counters at zero |
| BreakerRuns.TrialGoesOnIff | core/filesystem.go:1143-1160 | half-open lasts exactly while both counts of the trial are below their thresholds |
| BreakerRuns.TrialVerdict | core/filesystem.go:1143-1160 | which result ends a trial, and where it goes |
| BreakerRuns.TrialEnds | core/filesystem.go:1143-1160 | half-open is left within FailureThreshold + HalfOpenMaxCalls - 1 results |
| BreakerRuns.TrialBoundIsTight | core/filesystem.go:1143-1160 | one fewer is not always enough |
| BreakerRuns.RecoveryIsEarned | core/filesystem.go:1111-1161 | every run from open to closed contains a late enough admission followed by HalfOpenMaxCalls successes |
| BreakerRuns.DisabledNeverMoves | core/filesystem.go:1112-1114 | switched off, it never leaves its initial state |
| CacheKeys.SortedIsUnique | core/filesystem.go:1041 | there is one way to sort a collection of names |
| CacheKeys.DeterministicCacheKey | core/filesystem.go:1031-1050 | the key is a function of the query, whatever order the map is walked in |
| CacheKeys.KeySplits | core/filesystem.go:1031-1050 | a plain query's key, split at the bar, gives its components back |
| CacheKeys.KeyIsInjective | core/filesystem.go:1031-1050 | plain queries with one key are one query |
| CacheKeys.OwnsKeyIff | core/filesystem.go:1031-1050 | no other query has a query's key exactly when it has no parameters and no bar in provider or action |
| CacheKeys.ParamsInAction | core/filesystem.go:1042-1047 | all parameters of any query can pass for a part of the action |
| CacheKeys.BarMovesOver | core/filesystem.go:1033-1035 | a bar moves between provider and action, whatever the rest of the query |
| CacheKeys.EqualsInName | core/filesystem.go:1043-1046 | an equals sign in a name moves into the value: two different queries, one key |
| CacheKeys.BarInValue | core/filesystem.go:1042-1047 | a bar in a value makes a second parameter: two different queries, one key |
| ProviderCache.Cached.Find | core/filesystem.go:996-1004 | a hit is a stored entry that has not expired |
| ProviderCache.Cached.Keep | core/filesystem.go:1015-1019 | stores under the key with the TTL added to the clock |
| ProviderCache.HitIff | core/filesystem.go:995-1021 | over queries whose keys differ, every interleaving: answered from the cache exactly when the latest result stored for that very query is younger than its TTL, and with that result |
| ProviderCache.LogIsHistory | core/filesystem.go:995-1021 | the stored results are those the run's provider calls produced, read off the events alone; failed and uncached calls produced none |
| ProviderCache.AskIff | core/filesystem.go:995-1021 | after every run over queries whose keys differ: a question is answered without the provider exactly when its capability is cached and the run's latest result for that query is younger than its TTL; otherwise the provider is called |
| ProviderCache.ProduceOutcome | core/filesystem.go:1006-1021 | a failed call, or one of a capability without TTL, leaves the cache alone |
| ProviderCache.HitIsGenuine | core/filesystem.go:995-1021 | so every hit is data a call of the same query produced within the storing TTL |
| ProviderCache.NeverLeaksIff | core/filesystem.go:995-1021 | every hit of every run over a set of queries is genuine exactly when no two of them share a key |
| ProviderCache.PlainNeverLeaks | core/filesystem.go:995-1021 | as for the queries with no bar in a component and no equals sign in a name |
| ProviderCache.CollisionLeaks | core/filesystem.go:995-1021 | queries with colliding keys are given each other's data |
| RateLimit.RateLimiter.Allow | adapter/middleware/rate_limit.go:46-71 | the admission decision and the new bucket, nothing else changed |
| RateLimit.RateLimiter.Cleanup | adapter/middleware/rate_limit.go:93-102 | deletes exactly the buckets idle for longer than the TTL |
| RateLimitRuns.BucketsAreIndependent | adapter/middleware/rate_limit.go:46-102 | a client's bucket depends on its own requests and the sweeps alone |
| RateLimitRuns.WindowBound | adapter/middleware/rate_limit.go:46-71 | from every reachable state, a window without sweeps admits at most the burst plus `rate` times its seconds |
| RateLimitRuns.BoundSurvivesSweepsIff | adapter/middleware/rate_limit.go:93-102 | with sweeps that bound holds over all runs exactly when `rate` times 600 seconds is at least the burst |
| RateLimitRuns.SweepsInvisibleIff | adapter/middleware/rate_limit.go:93-102 | sweeps change no answer in any run exactly when the capacity is at least 1 and `rate` times 600 seconds at least the capacity |
| RateLimitRuns.AlikeRun | adapter/middleware/rate_limit.go:93-102 | under that condition all answers, and every bucket after its client's next request, are as without sweeps |
| RateLimitExact.NoWindowOverdrawn | adapter/middleware/rate_limit.go:57-71 | in every window, what was spent plus what could be spent stays within the allowance |
| RateLimitExact.SomeWindowAccounts | adapter/middleware/rate_limit.go:50-71 | some window of the history accounts for the bucket's tokens exactly |
| RateLimitExact.AdmittedIffEveryWindowHasRoom | adapter/middleware/rate_limit.go:46-71 | a request is admitted exactly when every window ending with it, itself included, stays within the capacity plus `rate` times the window's seconds: the bucket refines a definition that knows only the history |
| RateLimitExact.NoCapacityAdmitsIff | adapter/middleware/rate_limit.go:50-69 | without capacity a request is admitted exactly when there is no bucket |
| RateLimitExact.RememberedIff | adapter/middleware/rate_limit.go:46-102 | there is one exactly when some request of the client was at most 600 seconds old at every later sweep |

## Left out

- Router nodes are cells of an arena linked by index rather than heap objects linked by pointers; nodes are never freed or shared, so aliasing between nodes is not captured.
- Mutexes and condition variables are taken as correct: a locked section is one step. Data races outside the locks and fairness are not modelled.
- Integer widths: the 64-bit sequence counters and byte counts are unbounded; floats of the rate limiter are reals.
- Clocks are parameters. One Reload uses one clock reading for all modification times; nothing depends on their differing.
- Filesystem.FileSystem.MountAt: what the skill templates render is an argument of the configuration; a template error and an invalid skill are one refusal.
- Filesystem.FileSystem.UnmountAt: the lock purge and the stream close of an unmount touch other machines, keyed by path, and are not part of it.
- Filesystem.FileSystem.ReloadWith: is one uninterrupted call, while the source takes the lock anew for its snapshot and for every Unmount and Mount; mounts by others in between are not modelled.
- ReloadExact.ReloadSucceedsIff: as in Reloading.ReloadSucceeds, configured entries have no enabled skill, since such a skill mounts files the configuration does not list; entries it replaces or removes may have one.
- Locks, streams and writeback results across Unmount and Rename, which are keyed by concrete path and not moved; `purge` leaves a handle's lock kind stale, so lock safety is per mount lifetime with each handle used by one thread at a time.
- Blob bytes shared between snapshots and live entries: entries are values.
- `toMountEntry`, configuration includes and environment expansion: parsing and file I/O. Reload takes the parsed entries.
- `router.list`, `router.node`, Stat, Readdir, ReadLink, FollowLink and the stream manager's map: easy beside what is modelled.
- Namespaces, permission bits and open flags of handles, writes through unbuffered and stream handles.
- Providers, the HTTP, IPC and local back ends, schema validation, the SHA-256 provider cache: their answers are arbitrary here.
- FUSE, WinFsp, WebDAV and WebSocket adapters, language bindings, metrics, audit, events, CLI and daemon.
- Client address extraction of the rate limiter; addresses are given.
- `%v` rendering of cache parameters; values are given as rendered.
- RateLimitExact.AdmittedIffEveryWindowHasRoom: counts a window's length without the time between the two clock readings of each call, during which the source lets no tokens flow in.
