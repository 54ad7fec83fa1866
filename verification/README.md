# Formal model of the path resolver, the coalescing map, version ranges and conda-lock

Four self-contained parts of the rattler workspace, modelled in Dafny and proved correct.
`dafny verify dfyconfig.toml` checks everything.

## The parts

**Path resolver** (`crates/path_resolver/src/lib.rs`). A trie of path components records which
packages tag a directory and which own a file; a list gives the packages in decreasing priority.

- `PathTrie.dfy`: nodes, what is at a path, and the effect of every change at every path.
- `ClobberView.dfy`: the view, that is which file a package order makes visible at each path. The
  walk that computes it is proved equal to a flat description (`VisibleIffTopmost`), and the
  four-case difference of two walks is proved to lead from one view to the other.
- `ResolverState.dfy`: the five-part invariant that every run of insertions, removals and reorderings
  keeps, the exactness of the conflict report and of the restore list, and the undo law.
- `InsertedView.dfy`: what adding and removing a package does to the view, and where conflict and
  restore reports part from visibility.
- `TrieWalks.dfy`: the recursive walks and in-place passes as methods, each proved against its
  specification. Maps are drained in arbitrary order.
- `PathResolution.dfy`: the resolver as a class whose methods change its fields.
- `ClobberDisk.dfy`: a disk of files and directories, and the two loops that move files between the
  target prefix and the clobbers area. A directory stays when its last file is moved away.
- `ClobberSync.dfy` and `UnregisterSync.dfy`: exactly when those loops, run on the reports of a
  reordering or of an unregistration, show the new view on disk.
- `SyncFailures.dfy`: reachable states and disks on which they do not.

**Coalescing map** (`crates/coalesced_map/src/lib.rs`). `SingleFlight.dfy` is the protocol as a step
system over map entries, calls and broadcast channels; its theorems are about every interleaving.
`CoalescedMapObject.dfy` is the shared object: one method for each uninterrupted section of the source,
each proved to be the step of that name.

**Version ranges** (`crates/rattler/src/range.rs`). `VersionRange.dfy` proves the operations on segment
lists through cuts: a cut is a place just before or just after a version, or one of the two ends of
the order. Two normal forms containing the same cuts are the same list, over any total order, so the
Boolean laws hold for segment lists over any total order, dense or not.

**conda-lock** (`crates/rattler_conda_lock/src`).

- `LockModel.dfy` has the data, the canonical order of packages and the canonical form; `LockTies.dfy`
  the order between packages of equal identity.
- `LockTree.dfy` is the emitted document tree; `LockShape.dfy` proves it, and what is hashed, to be the
  one tree of a separately described style that reads as the canonical lock.
- `LockParser.dfy` is the parser as functions and `LockFieldTable.dfy` the parser itself, which empties
  a table of fields. Two descriptions that do not mention the parser are proved equivalent to it, for
  every tree: `LockGrammar.dfy` of what is accepted and as which lock, and `LockFaults.dfy` of what is
  rejected and with which error.
- `LockRoundTrip.dfy` has the inverse laws, `LockQuoting.dfy` the law about unquoted scalars, and
  `LockHandWritten.dfy` the documents that take every liberty the parser allows.
- `LockRules.dfy` says when a lock is valid and which error comes first, `LockValidation.dfy` is the
  validator, and `ContentHashes.dfy` has the per-platform content hashes.

`Orders.dfy` holds orders and sorting for all parts.

## What the proofs brought to light

- `sync_clobbers` does not always produce the view that `reprioritize_packages` computed. It does so
  exactly when every visible file to hide has room in the clobbers area and no file to restore finds a
  directory at its place (`SyncReachesNewViewIff`). On a disk without empty directories that can be
  read off the trie: every visible file to hide is the only one of its package above or below it, and
  no file visible before lies strictly below a restored path (`TidySyncIff`).
  `SwapFailsForDirectories` is a smallest instance of the second kind: when a directory should give way
  to a file, the files in it are moved away, the emptied directory stays, and the file is silently not
  restored. `SwapFailsForNestedFiles` is one of the first kind: a second file of the same package
  keeps the place the first one should move to.
- Restoring what `unregister_package` returns shows the new view exactly when, of the listed files
  that were hidden, those and only those become visible at whose place nothing stands in the target
  (`UnregisterSyncIff`, `TidyUnregisterSyncIff`). It can fail with an error: `UnregisterSyncFails`.
- A path that `insert_package` reports as conflicting may be visible all the same, because the file it
  clashes with can itself be hidden (`ReportedYetVisible`). `InsertView` says when the new file is
  visible. A pair that `unregister_package` restores may likewise stay hidden (`RestoredYetHidden`);
  `RestoredVisibleIff` says when, from the trie before the call.
- `to_clobbers` may contain files that were not visible, always strictly below a visible one; moving
  them is harmless.
- At most one initialiser of a key runs as long as no eviction drops the pending entry of a live
  attempt, as `clear` never does (`AtMostOneInitialiser`). An eviction followed by a new caller leaves
  two running exactly when it dropped such an entry (`EvictionAllowsTwoIff`); a `retain` can do so
  (`EvictingPendingAllowsTwo`). Dropping an entry that a failed attempt left behind does no harm.
- Ranges with the same versions have equal segment lists exactly over dense orders without endpoints
  (`MembersDecideSegmentsIffDense`), so over the integers structural equality is finer than equality
  of version sets. The algebraic laws do not need density.
- The fallback rank `usize::MAX` is never used: every tag of a reachable trie is a registered package
  (`RunsKeepInvariant`).

## Model

| member | source | states |
|---|---|---|
| ResolverState.RunsKeepInvariant | crates/path_resolver/src/lib.rs:99-113 | every run of insertions, removals and reorderings keeps the five facts: owners are tagged, tags shrink downwards, no node below the root is untagged, tags are registered packages without repetition, and each tag has an owned file on its branch |
| ResolverState.InsertKeepsInvariant | crates/path_resolver/src/lib.rs:170-265 | one insertion keeps the invariant, including the tags pushed into older descendants |
| ResolverState.RemoveKeepsInvariant | crates/path_resolver/src/lib.rs:314-355 | removing a package and pruning keeps the invariant, leaving no untagged node |
| ResolverState.ReorderKeepsInvariant | crates/path_resolver/src/lib.rs:467-515 | an order accepted by the reordering test has no repetition and covers the same packages, so the invariant survives it |
| ResolverState.ReorderingIff | crates/path_resolver/src/lib.rs:467-475 | the size and set test accepts exactly the permutations of the registered packages |
| ResolverState.InsertedAt | crates/path_resolver/src/lib.rs:130-161 | at every path: exactly the new files are added to the owners; nodes appear only on the way to a new file; only the new package's tag is added, and only on the way to or below a new file |
| ResolverState.TagsAfterInsert | crates/path_resolver/src/lib.rs:252-262 | the tags at every path exactly: the package is added on the way to each new file, and at older nodes at or below a directory on whose place a new file was put |
| ResolverState.RemovedAt | crates/path_resolver/src/lib.rs:314-355 | at every path the removed package disappears from tags and owners and nothing else does |
| ResolverState.CheckIffClashes | crates/path_resolver/src/lib.rs:204-250 | the conflict walk reports a path exactly when it is a prefix or an extension of an owned file, also where pruning left nodes held only by a tag |
| ResolverState.CheckMeans | crates/path_resolver/src/lib.rs:204-250 | the walk finds a file conflict exactly when a file is owned at the path or on the way to it, and a directory conflict exactly when there is none and the path is an inner node |
| ResolverState.InsertThenUnregister | crates/path_resolver/src/lib.rs:170-358 | inserting an unregistered package and unregistering it restores the trie and the order exactly |
| ResolverState.RestoresExactly | crates/path_resolver/src/lib.rs:272-312 | the restore walk yields (path, package) exactly when the removed package owns a file on that branch and the other is the first package after it owning the path; the early return loses nothing |
| ResolverState.NewlyVisibleIsRestored | crates/path_resolver/src/lib.rs:271-358 | every file visible after an unregistration and not before is among the restored pairs |
| InsertedView.InsertView | crates/path_resolver/src/lib.rs:170-265 | an insertion leaves the visible files of others alone; a new file is visible exactly where nothing was tagged, no best-tag file stands above, and the package has no file of its own at an untagged place above |
| InsertedView.InsertShows | crates/path_resolver/src/lib.rs:170-265 | the same law on the state that an insertion of an unregistered package leaves, with the package last in priority |
| InsertedView.UnreportedIsVisible | crates/path_resolver/src/lib.rs:163-265 | a new path that is not reported is visible unless the package has another new file above it |
| InsertedView.ReportedYetVisible | crates/path_resolver/src/lib.rs:204-250 | a reachable state in which a path is reported as a conflict and yet becomes visible |
| InsertedView.RestoredVisibleIff | crates/path_resolver/src/lib.rs:271-358 | read off the trie before the call: a restored pair is visible afterwards exactly when, without the removed package, its package is the best tag at the path and no best tag above owns its node |
| InsertedView.RestoredYetHidden | crates/path_resolver/src/lib.rs:271-358 | a reachable state where the only restored pair stays hidden below a file of a third package |
| ClobberView.VisibleIffTopmost | crates/path_resolver/src/lib.rs:390-411 | the walk that stops at the first file emits exactly the paths whose best tag owns them and above which no best tag owns a file |
| ClobberView.VisibleAntichain | crates/path_resolver/src/lib.rs:390-411 | visible files are pairwise incomparable and have one owner each |
| ClobberView.LocalFileShadow | crates/path_resolver/src/lib.rs:368-388 | a file found by the walk that does not stop is visible or strictly below a visible one |
| ClobberView.DiffTurnsOldIntoNew | crates/path_resolver/src/lib.rs:413-464 | the four-case walk: restored is new view minus old; old view minus hidden plus restored is the new view; hidden files are owned, not in the new view, and were visible or strictly below a visible file |
| ClobberView.SameOrderNoChanges | crates/path_resolver/src/lib.rs:1245-1270 | reprioritising to the present order hides and restores nothing |
| TrieWalks.Rank | crates/path_resolver/src/lib.rs:362-366 | the ranks are the positions in the order |
| TrieWalks.GreatestRankIsFirst | crates/path_resolver/src/lib.rs:414-424 | the tag of greatest rank is the first one in decreasing priority, whatever order the tags are visited in |
| TrieWalks.MaxByRank | crates/path_resolver/src/lib.rs:374-380 | the loop returns a tag of greatest rank, or none when there is no tag |
| TrieWalks.Winner | crates/path_resolver/src/lib.rs:414-428 | over registered tags the winner is unique and the fallback rank is not consulted |
| TrieWalks.CollectRemovedSubtree | crates/path_resolver/src/lib.rs:368-388 | lists every file below the node that its best old tag owns, each path once |
| TrieWalks.CollectNewWinners | crates/path_resolver/src/lib.rs:390-411 | lists exactly the files visible from the node, each path once |
| TrieWalks.Diff | crates/path_resolver/src/lib.rs:413-464 | the two change lists are those of the four-case specification, each path once |
| TrieWalks.CollectNextCandidates | crates/path_resolver/src/lib.rs:272-312 | lists exactly the restorable pairs, each path once |
| TrieWalks.FirstOwner | crates/path_resolver/src/lib.rs:289-295 | the first candidate that owns the path |
| TrieWalks.PropagatePrefix | crates/path_resolver/src/lib.rs:156-161 | the in-place recursion tags the whole subtree |
| TrieWalks.RemovePackage | crates/path_resolver/src/lib.rs:319-326 | the in-place recursion removes the package from every node |
| TrieWalks.PruneBranches | crates/path_resolver/src/lib.rs:314-317 | the bottom-up retain removes exactly the dead branches, and reports whether the node itself is dead |
| PathTrie.PruneToBase | crates/path_resolver/src/lib.rs:314-317 | two tries with the same tags and owners everywhere prune to the same trie, if one has no untagged node |
| PathTrie.RemovePruneTagged | crates/path_resolver/src/lib.rs:314-325 | after removal and pruning every node below the root is tagged again |
| PathResolution.CheckPath | crates/path_resolver/src/lib.rs:204-250 | the component loop computes the recursive verdict: file clash on the way, file at the end, directory at the end, or none |
| PathResolution.FindInsertConflicts | crates/path_resolver/src/lib.rs:204-260 | one pass over the new paths finds the conflicting ones and those inserted on a directory |
| PathResolution.ChangesTurnOldIntoNew | crates/path_resolver/src/lib.rs:361-518 | lists that follow the walk specification form change sets taking the old view to the new one |
| PathResolution.RestoredFallBacks | crates/path_resolver/src/lib.rs:271-358 | a list that follows the restore walk is the exact fall-back list and misses no newly visible file |
| PathResolution.PathResolver.constructor | crates/path_resolver/src/lib.rs:115-123 | a new resolver is empty and satisfies the invariant |
| PathResolution.PathResolver.InsertPackage | crates/path_resolver/src/lib.rs:170-265 | owners gain exactly the new paths; older packages keep their places and the winner of every tag set they meet, a new package comes last and shows where `ShowsInserted` says; the result is sorted, without repetition, and holds exactly the new paths comparable with a file owned before |
| PathResolution.PathResolver.UnregisterPackage | crates/path_resolver/src/lib.rs:271-358 | the package and its ownership disappear, nothing else does, and the others keep their priority; nothing is hidden; restored is exactly the fall-back of every path of the package, once each and parents first, and includes all that becomes visible; an unknown package changes nothing |
| PathResolution.PathResolver.ReprioritizePackages | crates/path_resolver/src/lib.rs:361-518 | the trie is unchanged, the stored order is the argument read backwards, and the change sets take the old view to the new one |
| PathResolution.PathResolver.PackagesForPrefix | crates/path_resolver/src/lib.rs:562-573 | the tags of an existing node, none otherwise |
| PathResolution.PathResolver.PackagesForExact | crates/path_resolver/src/lib.rs:576-581 | the owners at an existing node, none otherwise |
| PathResolution.PathResolver.FindConflicts | crates/path_resolver/src/lib.rs:584-600 | exactly the paths with several owners, once each, with all their owners |
| PathResolution.PathResolver.CollectClobberedPaths | crates/path_resolver/src/lib.rs:613-656 | the same paths; the winner is the owner of highest priority, the losers are all the others |
| PathResolution.GetNode | crates/path_resolver/src/lib.rs:603-609 | follows a path to its node, or finds that it does not exist |
| ClobberDisk.Prefix.Move | crates/path_resolver/src/lib.rs:530-556 | one guarded move of a file or directory, with the failure when a needed directory is a file |
| ClobberDisk.Prefix.SyncClobbers | crates/path_resolver/src/lib.rs:524-559 | the two loops: all hides in order, then all restores, stopping at the first failure |
| ClobberDisk.MoveFile | crates/path_resolver/src/lib.rs:530-536 | moving a regular file moves nothing else, adds the directories above its new place and leaves those above its old one |
| ClobberDisk.HideAllHolds | crates/path_resolver/src/lib.rs:542-548 | the first loop takes exactly the listed shown files out of the target, puts each into the clobbers area with its content, skips what is not there, and removes no directory |
| ClobberDisk.RestoreAllHolds | crates/path_resolver/src/lib.rs:550-556 | the second loop shows exactly the listed files at whose place nothing stood, overwriting nothing |
| ClobberSync.SyncReachesNewView | crates/path_resolver/src/lib.rs:361-559 | from a disk showing the old view that the change sets fit, the loops succeed and show the new view, every other owned file being in the clobbers area with its content |
| ClobberSync.SyncReachesNewViewIff | crates/path_resolver/src/lib.rs:361-559 | on every disk showing the old view: they do so exactly when each visible file to hide has room in the clobbers area and no file to restore finds a directory at its place |
| ClobberSync.TidySyncIff | crates/path_resolver/src/lib.rs:361-559 | without empty directories: exactly when each visible file to hide is the only one of its package above or below it, and no file visible before lies strictly below a restored path |
| ClobberSync.CrowdedFileStays | crates/path_resolver/src/lib.rs:542-548 | a visible file to hide without room in the clobbers area stays in the target, or the call fails |
| ClobberSync.DirectoryKeepsFileHidden | crates/path_resolver/src/lib.rs:550-556 | a file to restore whose place is a directory stays in the clobbers area, or the call fails |
| SyncFailures.SwapFailsForDirectories | crates/path_resolver/src/lib.rs:361-559 | a reachable state and a tidy disk showing its view, on which a change of order hides the file below a directory, keeps the emptied directory and does not restore the file in its place |
| SyncFailures.SwapFailsForNestedFiles | crates/path_resolver/src/lib.rs:361-559 | a reachable state and a tidy disk showing its view, on which a change of order should swap two files and nothing moves |
| UnregisterSync.UnregisterSyncIff | crates/path_resolver/src/lib.rs:271-559 | on every disk showing what is left of the old view, restoring the list of an unregistration shows the new view exactly when the hidden listed files that surface are those at whose place nothing stands |
| UnregisterSync.TidyUnregisterSyncIff | crates/path_resolver/src/lib.rs:271-559 | without empty directories: exactly when the hidden listed files that surface are those with no visible file of another package at their place or below it |
| UnregisterSync.UnregisterSyncFails | crates/path_resolver/src/lib.rs:271-559 | a reachable state where restoring the list fails on every disk showing what is left, because a file stands where a directory is needed |
| SingleFlight.StepKeepsInv | crates/coalesced_map/src/lib.rs:205-289 | every step keeps senders, channels, entries and waiting calls consistent |
| SingleFlight.RunKeepsInv | crates/coalesced_map/src/lib.rs:205-289 | so every state of every run is consistent |
| SingleFlight.EnterOutcome | crates/coalesced_map/src/lib.rs:214-249 | a caller initialises exactly when there is no entry or a dead pending one; else it waits on the live attempt or returns the value |
| SingleFlight.NoLostWakeUp | crates/coalesced_map/src/lib.rs:226-239 | in every later state of every run, evictions included, a waiter still waits, was dropped, got the value its attempt sent, or the failure of an attempt that sent none |
| SingleFlight.WaiterProgress | crates/coalesced_map/src/lib.rs:226-261 | a waiter can receive exactly when its attempt has ended; a live attempt has an owner holding the sender; it was sent exactly when its owner returned that value |
| SingleFlight.AtMostOneInitialiser | crates/coalesced_map/src/lib.rs:205-289 | in every run without an eviction of a pending entry whose attempt is live, at most one initialiser per key runs in every state |
| SingleFlight.EvictionAllowsTwoIff | crates/coalesced_map/src/lib.rs:205-279 | an eviction followed by a new caller leaves two initialisers of the key running exactly when the entry was pending on a live attempt |
| SingleFlight.EvictingPendingAllowsTwo | crates/coalesced_map/src/lib.rs:273-279 | a run in which dropping a pending entry lets two initialisers of a key run |
| SingleFlight.AtMostOneSuccess | crates/coalesced_map/src/lib.rs:252-261 | without evictions at most one initialisation per key succeeds in a run |
| SingleFlight.OneValuePerKey | crates/coalesced_map/src/lib.rs:205-271 | without evictions all values returned or looked up for a key are equal |
| SingleFlight.AnswersAreProduced | crates/coalesced_map/src/lib.rs:205-262 | in every state of every run, evictions included: a stored or returned value is one that an initialiser called for that key came back with before, an error is the one the same call failed with before, and only a waiter is told of a coalesced failure |
| SingleFlight.OwnValueReturned | crates/coalesced_map/src/lib.rs:252-258 | a value an initialiser comes back with is stored for its key at once, and its own call publishes it, has returned it, or was dropped |
| SingleFlight.NoDeadlock | crates/coalesced_map/src/lib.rs:205-262 | an unfinished call means some call can take a step other than being dropped |
| SingleFlight.StepLowersWork | crates/coalesced_map/src/lib.rs:205-262 | each step of a call lowers a measure that evictions and lookups leave alone |
| SingleFlight.RunsTerminate | crates/coalesced_map/src/lib.rs:205-262 | a run has at most three call steps per call, and at measure zero all calls have finished |
| CoalescedMapObject.CoalescedMap.constructor | crates/coalesced_map/src/lib.rs:140-178 | an empty map, before any call has entered |
| CoalescedMapObject.CoalescedMap.Enter | crates/coalesced_map/src/lib.rs:214-249 | occupying or observing the entry under its lock is the entering step |
| CoalescedMapObject.CoalescedMap.Begin | crates/coalesced_map/src/lib.rs:216-222 | a new channel and a pending entry on it |
| CoalescedMapObject.CoalescedMap.FinishInit | crates/coalesced_map/src/lib.rs:252-256 | storing the value is one step |
| CoalescedMapObject.CoalescedMap.Send | crates/coalesced_map/src/lib.rs:257-258 | sending and returning it is the next |
| CoalescedMapObject.CoalescedMap.FailInit | crates/coalesced_map/src/lib.rs:260 | an error closes the channel and leaves the pending entry |
| CoalescedMapObject.CoalescedMap.Drop | crates/coalesced_map/src/lib.rs:205-262 | cancellation or panic drops what the call holds |
| CoalescedMapObject.CoalescedMap.Receive | crates/coalesced_map/src/lib.rs:232-238 | the value sent, or the failure when the channel closed without one |
| CoalescedMapObject.CoalescedMap.Get | crates/coalesced_map/src/lib.rs:266-271 | the fetched value, nothing for pending or missing entries |
| CoalescedMapObject.CoalescedMap.Retain | crates/coalesced_map/src/lib.rs:274-279 | keeps exactly the accepted entries, and equals a series of eviction steps |
| CoalescedMapObject.CoalescedMap.Clear | crates/coalesced_map/src/lib.rs:286-289 | keeps exactly the pending entries, as evictions of fetched ones |
| VersionRange.Contains | crates/rattler/src/range.rs:141-160 | the loop finds membership in some segment |
| VersionRange.MemberIsCut | crates/rattler/src/range.rs:141-160 | a version is a member exactly when the cut just before it lies in the segments |
| VersionRange.NegateSegments | crates/rattler/src/range.rs:113-139 | the loop computes the complement from a start bound; the unreachable arm needs an unbounded lower bound |
| VersionRange.NormalIsNegatable | crates/rattler/src/range.rs:113-130 | in normal form only the first lower bound can be unbounded, so that arm is never reached |
| VersionRange.NegateFlips | crates/rattler/src/range.rs:85-110 | complement keeps normal form and flips every cut |
| VersionRange.NegateInvolution | crates/rattler/src/range.rs:85-139 | complementing twice gives the same segment list |
| VersionRange.SameCutsSameSegments | crates/rattler/src/range.rs:383-430 | normal forms with the same cuts are the same list, over any total order |
| VersionRange.BoundsAsCuts | crates/rattler/src/range.rs:179-294 | what the comparisons of bounds decide: disjointness, later lower bound, earlier upper bound |
| VersionRange.DisjointBelow | crates/rattler/src/range.rs:179-228 | the two disjointness tests |
| VersionRange.OverlapLower | crates/rattler/src/range.rs:230-246 | the lower bound of the overlap |
| VersionRange.OverlapUpper | crates/rattler/src/range.rs:248-294 | the upper bound of the overlap, and which side is used up |
| VersionRange.Intersection | crates/rattler/src/range.rs:170-307 | the two-pointer loop terminates and computes the recursive intersection |
| VersionRange.IntersectIn | crates/rattler/src/range.rs:170-307 | a cut is in the intersection exactly when it is in both |
| VersionRange.IntersectNormal | crates/rattler/src/range.rs:170-307 | the intersection of normal forms is in normal form |
| VersionRange.OperationsIn | crates/rattler/src/range.rs:85-307 | complement, intersection and De Morgan union keep normal form and are complement, meet and join at every cut |
| VersionRange.OperationsContain | crates/rattler/src/range.rs:591-643 | the same for membership of every version |
| VersionRange.Commutative | crates/rattler/src/range.rs:597-601 | intersection and union commute as segment lists |
| VersionRange.Associative | crates/rattler/src/range.rs:618-621 | both are associative as segment lists |
| VersionRange.Distributive | crates/rattler/src/range.rs:163-307 | intersection distributes over union as segment lists |
| VersionRange.DistributiveUnion | crates/rattler/src/range.rs:163-307 | union distributes over intersection as segment lists |
| VersionRange.ComplementLaws | crates/rattler/src/range.rs:623-638 | a range and its complement meet in none, join to any, and differ |
| VersionRange.UnitLaws | crates/rattler/src/range.rs:603-616 | any is neutral, none absorbs, intersection is idempotent |
| VersionRange.UnionMerges | crates/rattler/src/range.rs:163-167 | [a, b) and [b, c) join to the one segment [a, c) |
| VersionRange.ContainsByIntersection | crates/rattler/src/range.rs:657-660 | a version is a member exactly when its singleton meets the range |
| VersionRange.MembersDecideSegmentsIffDense | crates/rattler/src/range.rs:383-430 | same members mean same segments exactly over dense orders without endpoints |
| VersionRange.ConstructorsNormal | crates/rattler/src/range.rs:20-83 | every constructor gives a normal form, between exactly for increasing arguments, and they complement each other as named |
| VersionRange.ConstructorsContain | crates/rattler/src/range.rs:20-83 | which versions each constructor holds, over any total order |
| LockModel.PackageOrder | crates/rattler_conda_lock/src/model.rs:61-88 | the canonical package order is total: ties are equal packages |
| LockModel.IdentityDecides | crates/rattler_conda_lock/src/serialize.rs:125-129 | packages of distinct identity compare as their identities do |
| LockModel.IdentityLessMeans | crates/rattler_conda_lock/src/model.rs:104-119 | identities compare by platform, conda before pip, name, category |
| LockModel.PlatformDecides | crates/rattler_conda_lock/src/serialize.rs:125-129 | packages of distinct platforms compare as the platforms do |
| LockTies.TiesBrokenBy | crates/rattler_conda_lock/src/model.rs:61-88 | between equal identities: by version, dependencies, URL, MD5, SHA256, source, build, optional; absent before present, false before true |
| LockTies.EntriesLessIff | crates/rattler_conda_lock/src/model.rs:61-88 | maps compare at their least differing key: values there if both have it, else the map that has it comes first if the other goes on, and last if not |
| LockModel.LowercaseIdempotent | crates/rattler_conda_lock/src/serialize.rs:257-263 | lower-casing is idempotent, keeps length, touches only ASCII capitals, and leaves none |
| LockModel.CanonicalStaysSorted | crates/rattler_conda_lock/src/serialize.rs:241-255 | lower-casing digests keeps packages of distinct identity sorted and distinct |
| LockModel.CanonicalMetadataMeans | crates/rattler_conda_lock/src/serialize.rs:154-191 | canonical metadata has its platforms sorted and digests lowered; channels, sources and everything else stay as they are |
| LockModel.CanonicalMeans | crates/rattler_conda_lock/src/serialize.rs:18-42 | the canonical packages are the packages of the lock in canonical order, with only their digests lowered |
| LockModel.CanonicalIdempotent | crates/rattler_conda_lock/src/serialize.rs:24-42 | the canonical form of a canonical lock is itself |
| LockTree.PresentReadsBack | crates/rattler_conda_lock/src/serialize.rs:206-239 | in a written struct each present field is found with its value and each absent one is missing |
| LockTree.MapReadsBack | crates/rattler_conda_lock/src/serialize.rs:169-191 | a written map is read back key by key |
| LockParser.DuplicateFound | crates/rattler_conda_lock/src/parse.rs:69-118 | the key visit accepts exactly the trees without a repeated key in any mapping |
| LockGrammar.ParseIff | crates/rattler_conda_lock/src/parse.rs:132-458 | for every tree: the parser gives a lock exactly when no mapping repeats a key and the tree has the form of that lock in a grammar that does not mention the parser |
| LockGrammar.ToMapMeans | crates/rattler_conda_lock/src/parse.rs:166-181 | without repeated keys a mapping holds exactly its entries |
| LockFaults.ParseFailsIff | crates/rattler_conda_lock/src/parse.rs:132-458 | for every tree and error: the parser fails with it exactly when it names the first repeated key or, without one, the first rule of the grammar broken in the order of the checks |
| LockFaults.RepeatedIff | crates/rattler_conda_lock/src/parse.rs:69-118 | the reported key is repeated and nothing before its second occurrence, top down, is |
| LockFaults.UnknownFaultIff | crates/rattler_conda_lock/src/parse.rs:192-201 | the final check names the least unknown field |
| LockQuoting.QuotingChangesNothing | crates/rattler_conda_lock/src/parse.rs:218-238 | for every tree: putting quotes around the spelling of an unquoted scalar wherever a text is expected changes neither the lock that is read nor the error |
| LockQuoting.QuotedAlikeReadAlike | crates/rattler_conda_lock/src/parse.rs:218-238 | documents that differ only in which of their texts are quoted are read alike |
| LockFieldTable.IndexKeys | crates/rattler_conda_lock/src/parse.rs:69-118 | the loop over fields and items returns the first repeated key |
| LockFieldTable.FieldTable.Required | crates/rattler_conda_lock/src/parse.rs:182-186 | takes a field out of the table, or reports it missing |
| LockFieldTable.FieldTable.Optional | crates/rattler_conda_lock/src/parse.rs:187-191 | takes a field out if present |
| LockFieldTable.FieldTable.Finish | crates/rattler_conda_lock/src/parse.rs:192-201 | succeeds exactly when no field is left, else names an unknown one |
| LockFieldTable.TakeHashes | crates/rattler_conda_lock/src/parse.rs:294-300 | the hash object as specified |
| LockFieldTable.TakeSource | crates/rattler_conda_lock/src/parse.rs:386-458 | the source object, of kind url only |
| LockFieldTable.TakePackage | crates/rattler_conda_lock/src/parse.rs:386-458 | a package as specified: fields in the order asked for, first error kept, no field left over |
| LockFieldTable.TakeMetadata | crates/rattler_conda_lock/src/parse.rs:317-385 | the metadata as specified |
| LockFieldTable.TakeLock | crates/rattler_conda_lock/src/parse.rs:275-293 | version 1, metadata, packages, nothing else |
| LockFieldTable.ParseTree | crates/rattler_conda_lock/src/parse.rs:132-159 | the imperative parser computes the specified result for every tree, errors included |
| LockRoundTrip.StructReadsBack | crates/rattler_conda_lock/src/parse.rs:161-202 | a written struct gives its fields and passes the final check |
| LockRoundTrip.PackageReadsBack | crates/rattler_conda_lock/src/parse.rs:386-458 | reading a written package gives it with digests lowercased |
| LockRoundTrip.MetadataReadsBack | crates/rattler_conda_lock/src/parse.rs:317-385 | reading written metadata gives it with platforms sorted and digests lowercased |
| LockRoundTrip.LockReadsBack | crates/rattler_conda_lock/src/parse.rs:275-293 | reading a written lock gives its canonical form |
| LockRoundTrip.LockNoDuplicates | crates/rattler_conda_lock/src/serialize.rs:131-255 | no written mapping repeats a key |
| LockRoundTrip.RoundTrip | crates/rattler_conda_lock/src/serialize.rs:24-42 | parsing what is emitted succeeds with the canonical lock, for every lock |
| LockRoundTrip.WrittenAlikeIff | crates/rattler_conda_lock/src/serialize.rs:24-42 | two locks are written alike exactly when their canonical forms are equal |
| LockRoundTrip.RewritingIsStable | crates/rattler_conda_lock/src/serialize.rs:24-42 | writing what was read back gives the same document |
| LockHandWritten.LooseReadsBack | crates/rattler_conda_lock/src/parse.rs:275-458 | every lock is read back from a document without version, with main and empty dependencies left out, bare channels, nulls, nothing quoted, and another field order |
| LockHandWritten.HandWrittenReadsAlike | crates/rattler_conda_lock/src/parse.rs:132-458 | a document taking any of these liberties anywhere reads as the emitted one does |
| LockShape.WrittenIff | crates/rattler_conda_lock/src/serialize.rs:24-42 | a tree is what is written for a lock exactly when it has the canonical style (keys of every map ascending, structs in their own order, version stated, nothing null or unquoted, channels as objects) and parses to the canonical lock |
| LockShape.PreimageIff | crates/rattler_conda_lock/src/serialize.rs:70-122 | a tree is what is hashed for a platform exactly when it is a list of objects of the canonical style that reads as the packages of the platform in canonical order |
| LockShape.PreimageKeysAscend | crates/rattler_conda_lock/src/serialize.rs:70-122 | for every lock and platform the keys of every mapping in what is hashed, however deep, are strictly increasing |
| LockValidation.CheckPlatforms | crates/rattler_conda_lock/src/validation.rs:26-42 | no error exactly for distinct well-formed platforms that each have a hash; else the fault of the first platform that has one |
| LockValidation.CheckContentHashes | crates/rattler_conda_lock/src/validation.rs:43-50 | no error exactly when all hashes are of declared platforms and have 64 hexadecimal digits; else the fault of least key |
| LockValidation.CheckChannels | crates/rattler_conda_lock/src/validation.rs:51-59 | no error exactly when no channel is blank; else the first blank one |
| LockValidation.CheckSources | crates/rattler_conda_lock/src/validation.rs:60-69 | no error exactly when sources are distinct relative paths; else the first source at fault |
| LockValidation.CheckInputs | crates/rattler_conda_lock/src/validation.rs:87-108 | no error exactly when input hashes and sources name each other and the hashes are digests; else the first fault |
| LockValidation.CheckPackages | crates/rattler_conda_lock/src/validation.rs:109-191 | no error exactly when every package passes its checks and identities are distinct; a reported package is the first one at fault, with the rule it breaks first |
| LockValidation.CheckPackage | crates/rattler_conda_lock/src/validation.rs:111-190 | the fault is explained by the rule it names, all rules checked before it being kept; a taken identity comes after name, version, platform and category |
| LockValidation.FirstFaultIff | crates/rattler_conda_lock/src/validation.rs:111-190 | a fault is the one found exactly when the package breaks the rule it names and keeps all rules checked before |
| LockRules.OneFirstError | crates/rattler_conda_lock/src/validation.rs:21-193 | a lock has at most one first error |
| LockRules.OneExplanation | crates/rattler_conda_lock/src/validation.rs:111-190 | a package has at most one first fault |
| LockRules.PlatformMeans | crates/rattler_conda_lock/src/validation.rs:208-222 | a platform is well formed exactly when it is two non-empty words of lower-case letters and digits joined by a dash, at most 32 characters long |
| LockValidation.Validate | crates/rattler_conda_lock/src/validation.rs:21-193 | no error exactly for valid locks; else the error is the first one of the lock, which is unique |
| LockValidation.ToYaml | crates/rattler_conda_lock/src/serialize.rs:24-42 | writes exactly the valid locks, as their canonical tree; else gives the first error |
| LockValidation.CanonicalValid | crates/rattler_conda_lock/src/validation.rs:21-193 | the canonical form is valid exactly when the lock is |
| LockValidation.WriteThenRead | crates/rattler_conda_lock/src/serialize.rs:24-42 | for a valid lock: reading back succeeds with a valid canonical lock that is written as the same document |
| ContentHashes.ComputeContentHashes | crates/rattler_conda_lock/src/serialize.rs:99-122 | one digest of the preimage for each declared platform |
| ContentHashes.HashOf | crates/rattler_conda_lock/src/serialize.rs:104-120 | the digest of the slice between the two partition points |
| ContentHashes.SliceIsPlatform | crates/rattler_conda_lock/src/serialize.rs:105-108 | the two partition points cut out exactly the packages of the platform |
| ContentHashes.HashedAreOwnSorted | crates/rattler_conda_lock/src/serialize.rs:99-129 | what is hashed is the platform's packages in canonical order |
| ContentHashes.PreimageDependsOnOwnPackages | crates/rattler_conda_lock/src/serialize.rs:78-122 | the preimage depends on the multiset of the platform's packages only |
| ContentHashes.PermutedPreimage | crates/rattler_conda_lock/src/serialize.rs:78-122 | permuting the input changes no preimage |
| ContentHashes.PreimageDeterminesPackages | crates/rattler_conda_lock/src/serialize.rs:78-122 | equal preimages mean equal packages up to the case of digests |

## Left out

Path resolver:

- Trie nodes are values owned by their parent; `&mut` recursion rebuilds a node, so in-place update of a shared node is not expressed. The resolver itself is an object.
- Paths are sequences of components; spelling rules of `std::path` and the `Path`-based comparison of package names are not modelled. Ranks are unbounded numbers.
- Owners and losers are sets, since hash sets have no order; the source lists losers in priority order.
- `reprioritize_packages` panics on an order that is not a reordering; the model demands one.
- A full difference of views for `unregister_package`: the source returns nothing to hide. What is restored is exact, and `RestoredVisibleIff` says which of it is visible.
- The two trees of the disk are apart, although the clobbers area lies inside the target prefix. Symbolic links do not occur, and the one error is a file standing where a directory is needed.
- The synchronisation after an unregistration is on a disk from which the package's own files are gone, with any directories left; removing them is the installer's work.
- `clobber_registry.rs` and other callers of the resolver.

Coalescing map:

- DashMap shards and the Tokio channel: an entry step is atomic because the entry lock is held, and a channel is sent on once. Keys that share a shard lock are not modelled.
- A `retain` or `clear` is one step per evicted key; the sections between `.await` points are the steps.
- Hashers, capacity, `len`, `is_empty`, error texts.

Version ranges:

- The `Display` form and the `VersionSet` adapter, which only forwards.

conda-lock:

- YAML text, byte spans, the node paths and related locations of errors, and their rendering; the model starts at the value tree, and of an error keeps its kind with what it names.
- Checkers of other crates (package names, versions, constraints, URLs, timestamps, white space) are parameters of the validator, with their own length limits.
- JSON rendering and SHA256 are one function parameter applied to the preimage tree.
- ContentHashes.ComputeContentHashes: the partition point is the number of leading packages below the platform; the binary search of the standard library is not modelled.
- Sorting is specified as the sorted arrangement of the same packages, which is unique; the sorting algorithm of the standard library is not modelled.
- `to_path`, reading files, `Display` of managers and identities.

The JavaScript and Python bindings, caches, URL handling, platform tables, the solver and all network code of the workspace are not part of this model.
