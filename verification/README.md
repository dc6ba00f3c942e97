# r9p: verified models

r9p is a 9P2000 library. This project models its state machines and its wire codec in Dafny and proves what
they promise. `dafny verify dfyconfig.toml` checks all of it.

The parts, from the most to the least involved:

- **The front's namespace store** (`Front*`, `Paths`): a tree of nodes with a qid index, fid reference counts,
  and detached trees that live on while a client still holds a fid into them. `FrontStore` states the
  invariant; `FrontCollect`, `FrontOps`, `FrontReattach`, `FrontPublish`, `FrontRetire`, `FrontRetain` and
  `FrontRegister` give each operation as a function of the store and prove what it keeps and what it does to
  paths, nodes and qids. One idea carries the proofs: removing what nobody refers to any more is a function
  `Collect`, releasing a fid is `Collect` after lowering a count, removal is `Collect` after detaching, and
  reattachment is `Collect` after moving; `CollectAbsorbs` makes step-by-step and all-at-once agree.
  `FrontState` is the mutable store itself, every method proved equal to those functions. `FrontSession` is
  one session's fids, `FrontWalk` the walk, and `FrontWorld` runs any number of sessions and owners together.
  `FrontRoom` counts free qid paths and missing directories, and `FrontOutcomes` and `FrontAnswers` say of
  each operation, from the store before it, when it succeeds and with which error it fails; `FrontContents`
  and `FrontPushEffects` say what it leaves in the nodes. `FrontGrants` and `FrontPrincipals` give roots to
  users, `FrontAdmission` says who may attach where, and `FrontSettings` what sets the settings. `FrontAccess`
  adds what the sessions do lock by lock and asks whether a client stays within its attach root: `FrontLines`
  follows the parents of a node upwards, `FrontParents` shows which operations leave all parents alone,
  `FrontUproot` treats the one that does not, and `FrontEscape` and `FrontCreateEscape` are runs in which it
  matters.
- **Relayed requests** (`FrontRelay`, `FrontRelayRuns`, `FrontRelayQueue`, `FrontRelayReplies`): the queue
  that hands requests to owners, the tables that pair them with responses, and a ledger of all requests of a
  run that both are proved to agree with.
- **Logs** (`LogBody`, `LogTail`): a bounded window that refines an unbounded log, and its readers.
- **The wire** (`Wire`, `Stats`, `Messages`, `Referrals`, `Codec`, `Layout`, `Framing`, `Frames`, `DirPages`):
  9P2000 as in section 5 of the Plan 9 Programmer's Manual, intro(5), stat(5) and read(5). A message is a
  type, a tag, plain fields and a tail; each format is a row of a table, and both directions are proved
  inverse once for all formats. `Referrals` routes paths through referrals. `Layout` writes the layouts out as
  the manual does and proves that these are the bytes. `Framing` holds the loops over buffers and cursors,
  `Frames` reads from a connection that delivers bytes in any pieces, and `DirPages` pages through
  directories.
- **The client's cache** (`AbsolutePaths`, `Cache`, `CacheFeed`), **the FUSE node table** (`Nodes`,
  `NodeEffects`, `NodeTable`), **tags** (`Requests`, `ClientTags`, `ClientReplies`), **the encrypted stream**
  (`SecureStream`), **the reverse broker's threads** (`Broker`) and **dates** (`Calendar`).

Code that computes is modelled by functions, code that changes things by classes and loops proved equal to
such functions; statements about whole runs are about the functions. Errors are values (`Result`), with the
message of the source where it is a fixed text.

Some promises hold only under a condition, and then the exact condition is proved:

- a tag is found unless the only usable one is the single value the search does not visit (`AllocSucceedsIff`,
  `FreeTagIsMissed`);
- moving a path prefix keeps paths distinct unless something lands on a node that stays, which an empty target
  allows (`MoveKeepsDistinctIff`, `RenameToRootCollides`);
- a directory read with a fixed count is complete unless a record is larger than the count
  (`FixedCountIsCompleteIff`);
- the printed path of a node leads back to it unless one of its names does not print back
  (`LookupInvertsPath`, `PrintedNamesReadBack`);
- a day has its date unless the year leaves i32 (`CivilFromDays`);
- a client stays within its attach root, with all it holds, walks over and has made for it, unless a push
  brings a detached node back from below that root to a place outside it, or the qid of a node made for it
  belongs to another node, outside, by the time it is bound (`ActContainsIff`, `PushConfinesIff`,
  `AnswerContainsIff`; `PushLetsClientOut`, `CreatedIsLetOut`, `CreateBindsAnother`);
- a cache hit is as new as what the feed has told unless something that changes it is told between its read
  and its fill (`StatHitIff`, `ListingHitIff`, `LateFillIsWrong`);
- a tag begun again gets a new key unless the generation counter is at its top (`KeysRepeatAtTheTop`);
- the node table accounts for every fid unless a lookup of a new path meets an id that is in use and has a fid
  (`InsertAccountsIff`, `LastIdLosesFid`).

## Model

| member | source | states |
|---|---|---|
| `FrontWorld.RunKeepsWorld` | crates/front/src/tree.rs:66-84 | after any sequence of publishes, removals, retains, registrations, attaches, walks, creates, clunks and session drops by any number of sessions, the store invariant holds and every reference count is the number of fid bindings to that node |
| `FrontWorld.NextKeepsWorld` | crates/front/src/model.rs:1050-1066 | each single operation of any session or owner keeps both, whether it succeeds or fails |
| `FrontWorld.LiveFidsStayValid` | crates/front/src/tree.rs:66-84 | in every reachable state a bound fid names a node that still exists, and the count of that node equals its fids across all sessions |
| `FrontWorld.UnreachableNodesAreHeld` | crates/front/src/model.rs:1104-1115 | in every reachable state a node that no path reaches lies below a detached root, and some session holds a fid into that very subtree |
| `FrontStore.FreshStoreIsGood` | crates/front/src/model.rs:320-376 | the initial state satisfies the invariant that all operations keep |
| `FrontStore.NodesArePartitioned` | crates/front/src/model.rs:1084-1102 | every node lies below exactly one of the root and the detached roots: the table is their disjoint union |
| `FrontStore.TopPathUnique` | crates/front/src/model.rs:1178-1193 | a node is reached from only one root or detached root and by only one path |
| `FrontStore.RankGrowsDown` | crates/front/src/model.rs:1068-1102 | following entries never returns to a node met before, so every walk up or down the tree ends |
| `FrontStore.IndexInverts` | crates/front/src/model.rs:403-425 | the qid index and the qid paths of the nodes are exact inverses |
| `FrontCollect.CollectIsSound` | crates/front/src/model.rs:1104-1115 | collection restores the full invariant from the shape alone, keeps all counts, and drops exactly the detached roots without a fid below |
| `FrontCollect.CollectKeepsTree` | crates/front/src/model.rs:1104-1115 | a tree that is not dead keeps all its nodes |
| `FrontCollect.CollectFreesQids` | crates/front/src/model.rs:1142-1156 | every node of a dead tree is gone and its qid path is free again |
| `FrontCollect.CollectKeepsPaths` | crates/front/src/model.rs:1104-1115 | no path from the root changes what it leads to |
| `FrontCollect.CollectSettledIsNoop` | crates/front/src/model.rs:1104-1115 | with nothing dead the store is unchanged |
| `FrontCollect.CollectAbsorbs` | crates/front/src/model.rs:1104-1156 | removing dead trees one after another comes to the same as removing all at once |
| `FrontFids.ReleaseKeepsInv` | crates/front/src/model.rs:1056-1066 | releasing a fid keeps the invariant, fails exactly for an unreferenced node and lowers that one count by one |
| `FrontFids.LastReleaseFreesTree` | crates/front/src/model.rs:1056-1066 | releasing the last fid into a detached tree removes the whole tree and frees its qid paths |
| `FrontWorld.DropCollectsOnce` | crates/front/src/tree.rs:945-968 | dropping a session, which releases its fids one by one in any order, equals lowering every count by the fids the session has on the node and collecting once |
| `FrontFids.IncKeepsInv` | crates/front/src/model.rs:1050-1054 | retaining a fid keeps the invariant, raises that one count by one and changes no other |
| `FrontRegister.RegisterIntakeMakesEntry` | crates/front/src/front.rs:139-152 | a registered intake is a new entry known by its own id and prefix; registering the prefix again is refused and changes nothing |
| `FrontRegister.RegisterIntakeKeepsInv` | crates/front/src/front.rs:139-152 | registering an intake keeps the invariant and all counts, also on failure |
| `FrontRegister.RegisterRenameKeepsInv` | crates/front/src/front/rename.rs:5-20 | registering a rename relay keeps the invariant and all counts, also on failure |
| `FrontState.State.constructor` | crates/front/src/model.rs:320-376 | the new state is the initial store |
| `FrontState.State.SubtreeHasFidReference` | crates/front/src/model.rs:1092-1102 | true exactly when a node of the subtree has a fid; the recursion ends on every reachable store |
| `FrontState.State.RemoveNodeRecursive` | crates/front/src/model.rs:1142-1156 | the nodes of the subtree and their qid paths are gone, and nothing else changes |
| `FrontState.State.RemoveEntries` | crates/front/src/model.rs:1142-1156 | the loop over the entries of a directory removes exactly the trees below them |
| `FrontState.State.FindDead` | crates/front/src/model.rs:1104-1115 | finds the detached roots without a fid below them, and no others |
| `FrontState.State.CollectUnreferencedDetachedSubtrees` | crates/front/src/model.rs:1104-1115 | the result is the collected store |
| `FrontState.State.RetireDetachedSubtree` | crates/front/src/model.rs:1084-1090 | the tree is kept as a detached root while a fid refers into it and removed otherwise |
| `FrontState.State.LookupPath` | crates/front/src/model.rs:1178-1193 | follows the path from the root, with the same errors |
| `FrontState.State.LookupOptionalPath` | crates/front/src/model.rs:1158-1176 | the result of the function `OptionalOutcome` is about |
| `FrontState.State.NodeIsDetached` | crates/front/src/model.rs:1068-1082 | true exactly for nodes that cannot be reached from the root |
| `FrontState.State.PathRelativeTo` | crates/front/src/model.rs:1274-1294 | the names on the way up to the given root, in order |
| `FrontState.State.RetainFidNode` | crates/front/src/model.rs:1050-1054 | counts one more reference |
| `FrontState.State.ReleaseFidNode` | crates/front/src/model.rs:1056-1066 | counts one less and collects |
| `FrontState.State.RemoveSubtreeIfExists` | crates/front/src/model.rs:975-993 | the store after detaching the subtree and collecting, with the outcome reported |
| `FrontState.State.MarkUpTo` | crates/front/src/model.rs:1016-1026 | marks a node and its ancestors up to the given root |
| `FrontState.State.MarkPaths` | crates/front/src/model.rs:1007-1027 | marks exactly the nodes on the way to the given paths, or reports the first path that does not resolve |
| `FrontState.State.CollectStaleSubtrees` | crates/front/src/model.rs:1117-1140 | lists the topmost unmarked nodes below the root, each once |
| `FrontState.State.RetainSubtreePaths` | crates/front/src/model.rs:995-1048 | the store that keeps exactly the given paths, or the old store on an error |
| `FrontState.State.ForgetPrincipals` | crates/front/src/model.rs:1042-1046 | forgets exactly the principals whose roots are gone |
| `FrontState.State.RetireAll` | crates/front/src/model.rs:1031-1040 | retiring the listed trees one by one equals detaching all and collecting once |
| `FrontState.State.NextAvailableQidPath` | crates/front/src/model.rs:393-401 | the least free qid path from the next id on, or an error when there is none |
| `FrontState.State.ReplaceQidPath` | crates/front/src/model.rs:410-425 | moves the node to the new qid path in node and index together, or fails without a change |
| `FrontState.State.ApplyPushed` | crates/front/src/model.rs:427-443 | the node carries the qid and metadata of its owner |
| `FrontState.State.EnsureDir` | crates/front/src/model.rs:483-526 | the directory is found or made; a leaf in its place is an error |
| `FrontState.State.EnsureDirs` | crates/front/src/model.rs:528-535 | the directories on the way are found or made, and stay made when a later one fails |
| `FrontState.State.EnsurePathDir` | crates/front/src/model.rs:528-535 | makes the directories of a path |
| `FrontState.State.Place` | crates/front/src/model.rs:537-605 | the store and the outcome of publishing a leaf, which succeeds as `PlaceOutcome` says and leaves what `PlaceStores` says |
| `FrontState.State.PlaceIn` | crates/front/src/model.rs:547-605 | publishing once the directory is there: replace the file, append to the log, or add a node, or the error |
| `FrontState.State.ReattachDetachedPushedNode` | crates/front/src/model.rs:759-802 | a detached node that still prints the published path comes back with its id |
| `FrontState.State.MoveNode` | crates/front/src/model.rs:777-799 | takes the node out of its old place and hangs it under the new parent |
| `FrontState.State.PushIn` | crates/front/src/model.rs:617-683 | publishing with metadata once the directory is there |
| `FrontState.State.PlacePushed` | crates/front/src/model.rs:607-757 | the store and the outcome of publishing a file or directory with the metadata of its owner, as `PushOutcome` says |
| `FrontState.State.InsertPushedChildDirectory` | crates/front/src/model.rs:804-888 | the store and the outcome of adding a resolved child directory, as `AdoptOutcome` says |
| `FrontState.State.InsertCreatedRelayNode` | crates/front/src/model.rs:890-973 | the store and the outcome of adding a node created on behalf of a client, as `CreateOutcome` says |
| `FrontState.State.CreateIn` | crates/front/src/model.rs:900-973 | the new or confirmed node once its directory is there |
| `FrontState.State.SetPrincipalClassAname` | crates/front/src/front.rs:347-394 | the store and the outcome of giving a root to a user, as `GrantOutcome` and `GrantSets` say |
| `FrontState.State.RetainPrincipalRoots` | crates/front/src/front.rs:396-411 | keeps exactly the entries of the users given |
| `FrontPublish.NextQidIsLeastFree` | crates/front/src/model.rs:393-401 | no smaller free qid path is passed over; failure means that none is left |
| `FrontRoom.EnsureDirsIff` | crates/front/src/model.rs:483-535 | the directories on a way are made exactly when no name on it leads to something else and enough qid paths are free for those that are missing; they take the least free ones, and the error is told otherwise |
| `FrontOutcomes.MakeDirsOutcome` | crates/front/src/model.rs:528-535 | a directory path is made exactly when it names something, nothing on it is something else and qid paths are free; otherwise the error |
| `FrontOutcomes.PlaceOutcome` | crates/front/src/model.rs:537-605 | publishing a leaf succeeds exactly when the path names something, no directory on the way is something else, qid paths are free for every node to be made, and what is there, if anything, is a file for a file or a log for a log; the id, and the error of each other case |
| `FrontOutcomes.PushOutcome` | crates/front/src/model.rs:607-802 | a push succeeds exactly when a directory has no length, the path names something, its directories are there or can be made, what is there is of the right kind and may have the qid path, and what is not there may come with it, as new or as the unreachable node that prints this path; the id, and the error of each other case |
| `FrontOutcomes.CreateOutcome` | crates/front/src/model.rs:890-973 | an entry made for a client is accepted exactly when its parent exists, its directories are there or can be made, and it is either the very node reported or is not there and its qid path is not in use; the id, and the error of each other case |
| `FrontOutcomes.AdoptOutcome` | crates/front/src/model.rs:804-888 | a child directory is adopted exactly when it has no length, its parent is a directory, and the entry is a directory or is not there with a qid path not in use; the id, and the error of each other case |
| `FrontOutcomes.PlaceSameTables` | crates/front/src/model.rs:537-605 | publishing a leaf touches neither intakes, rename relays, principals nor settings |
| `FrontOutcomes.CreateSameTables` | crates/front/src/model.rs:890-973 | nor does making an entry for a client |
| `FrontPushEffects.PlacePushedLeaves` | crates/front/src/model.rs:427-443 | a push keeps the relays of a node that was there and the entries of a directory, gives a new node none, and leaves every other node that stays as it is but for the entries of directories |
| `FrontPushEffects.PlacePushedTables` | crates/front/src/model.rs:607-802 | a push keeps principals and settings, and takes from the tables of intakes and rename relays only nodes that are gone |
| `FrontPushEffects.AdoptMakes` | crates/front/src/model.rs:804-888 | an adopted directory that was there only gets the relay for removals, if the owner wants one; a new one is empty, is read through the prefix given and has the qid and metadata given; nothing else changes |
| `FrontPushEffects.ChildRelayIsPath` | crates/front/src/model.rs:815-828 | removals of the child are announced under its own path |
| `FrontPushEffects.EnsureDirsMakePlain` | crates/front/src/model.rs:483-526 | the directories made on the way have no owner, no metadata and no relays |
| `FrontPushEffects.InsertCreatedLeaves` | crates/front/src/model.rs:890-973 | making an entry for a client keeps the metadata, the other relays and the entries of one that was there, and gives a new one none |
| `FrontPublish.EnsureDirsKeepInv` | crates/front/src/model.rs:483-535 | making directories keeps the invariant, also when it fails half-way |
| `FrontPublish.PlaceKeepsInv` | crates/front/src/model.rs:537-605 | publishing a leaf keeps the invariant, also on failure |
| `FrontPublish.ApplyPushedSetsEntry` | crates/front/src/model.rs:427-443 | the entry ends up with the qid, version, generation, metadata and bytes given, or nothing changes |
| `FrontPublish.ReattachKeepsInv` | crates/front/src/model.rs:759-802 | reattachment keeps the invariant and the id of the node; every failure leaves the store unchanged |
| `FrontPublish.InsertPushedChildKeepsInv` | crates/front/src/model.rs:804-888 | adding a resolved child directory keeps the invariant, also on failure |
| `FrontPublish.InsertCreatedKeepsInv` | crates/front/src/model.rs:890-973 | adding a created node keeps the invariant, also on failure |
| `FrontPublishPaths.PlacePushedKeepsInv` | crates/front/src/model.rs:607-757 | publishing with metadata keeps the invariant and all counts, also on failure |
| `FrontPublishPaths.EnsureDirsAt` | crates/front/src/model.rs:483-535 | the directories made are the prefixes of the path, no other path appears and none changes |
| `FrontPublishPaths.PlaceResolves` | crates/front/src/model.rs:537-605 | after publishing the path leads to the node reported; no path changes its target and only prefixes of the path appear |
| `FrontPublishPaths.PlacePushedResolves` | crates/front/src/model.rs:607-757 | the same for publishing with metadata, where a reattached tree reappears below the path |
| `FrontPublishPaths.ReattachAt` | crates/front/src/model.rs:759-802 | a reattached tree is walkable at its path and below it exactly as it was |
| `FrontContents.PlaceStores` | crates/front/src/model.rs:537-605 | the node holds what was published: the bytes of a file with the next version, the entries of a log after those kept, or a new node with an unused id and qid; every other node is as before but for entries added |
| `FrontContents.PlacePushedCarries` | crates/front/src/model.rs:607-757 | the node at the path carries the qid, version, generation, metadata and bytes of its owner, whether new, existing or reattached |
| `FrontContents.InsertCreatedMakes` | crates/front/src/model.rs:890-973 | a created node is walkable by its name, has the identity reported, sends writes to its owner, and disturbs no other path or node |
| `FrontContents.EnsureDirsFindsDirs` | crates/front/src/model.rs:483-535 | directories that exist are left alone |
| `FrontReattach.HangKeepsAcyclic` | crates/front/src/model.rs:759-802 | hanging a detached tree under a reachable directory, even one made later, closes no cycle |
| `FrontReattach.MoveKeepsShape` | crates/front/src/model.rs:759-802 | moving a detached node under a reachable directory keeps the tree shape, the index and the separation of attached and detached nodes |
| `FrontReattach.MoveResolves` | crates/front/src/model.rs:759-802 | the moved tree is found under its new name with everything below it |
| `FrontReattach.MoveOnlyAdds` | crates/front/src/model.rs:759-802 | a path that appears leads into the moved tree |
| `FrontRetire.RemoveSubtreeResolves` | crates/front/src/model.rs:975-993 | after a removal exactly the paths at and below it stop resolving, the rest resolve to the same nodes; on error nothing changes |
| `FrontRetire.RemoveSubtreeKeepsInv` | crates/front/src/model.rs:975-993 | a removal keeps the invariant and all counts |
| `FrontRetire.RetireNext` | crates/front/src/model.rs:1084-1090 | detaching and collecting step by step equals detaching all and collecting once |
| `FrontRetain.RetainResolves` | crates/front/src/model.rs:995-1048 | all or nothing: on error the store is unchanged; on success the paths that resolve under the root are exactly the given ones and their ancestors, each to the same node, and every other path is as before |
| `FrontRetain.RetainKeepsInv` | crates/front/src/model.rs:995-1048 | retaining keeps the invariant and all counts |
| `FrontAnswers.ResolveOutcome` | crates/front/src/model.rs:1178-1193 | a path that leads nowhere fails with "not a directory" exactly when a name before the last leads to something else, and is missing otherwise |
| `FrontAnswers.OptionalOutcome` | crates/front/src/model.rs:1158-1176 | an optional path is its node, nothing when an entry is missing, and an error exactly when something on the way is no directory |
| `FrontAnswers.RemoveOutcome` | crates/front/src/model.rs:975-993 | a removal is refused exactly for the root and behind something that is no directory; removing what is not there is no error |
| `FrontAnswers.RemoveLeaves` | crates/front/src/model.rs:975-993 | what a removal leaves is as it was but for the entries of directories, with the tables losing only nodes that are gone |
| `FrontAnswers.RetainOutcome` | crates/front/src/model.rs:995-1048 | retaining fails exactly when the root is no directory or a supplied path is not below it or leads nowhere, and reports a change exactly when something below the root is not wanted; without a change the store is the old one |
| `FrontAnswers.RetainErrors` | crates/front/src/model.rs:995-1027 | the error is that of the root, or of the first supplied path that is refused |
| `FrontAnswers.RetainLeaves` | crates/front/src/model.rs:1042-1046 | exactly the principals whose roots are gone are forgotten; what is left is as it was but for the entries of directories |
| `FrontAnswers.RegisterIntakeOutcome` | crates/front/src/front.rs:139-152 | an intake is registered exactly when its prefix names a directory that is there or can be made, without an entry `new`, and qid paths are free; the error of each other case |
| `FrontAnswers.IntakeEntry` | crates/front/src/front.rs:139-152 | its entry is `new` in the directory the prefix names, however many slashes the prefix has |
| `FrontAnswers.RegisterRenameOutcome` | crates/front/src/front/rename.rs:5-20 | a rename relay is registered exactly when it has a prefix and its path is a directory or can be made one; it is then the relay of that directory, and no other changes |
| `FrontSettings.RunSettings` | crates/front/src/front.rs:118-121 | over any run the capacity of logs is the one set last and never zero, and principals are required exactly from the first grant that names a directory |
| `FrontSettings.NextSettings` | crates/front/src/front.rs:347-411 | the settings and the principals change only with the operations that set them, and the principals also with a retain |
| `FrontRetainLoops.StaleBelowSplits` | crates/front/src/model.rs:1117-1140 | the stale nodes of a directory are those of its entries, which the recursion visits |
| `Paths.PrintedNamesReadBack` | crates/front/src/model.rs:1312-1321 | printing names and splitting the text gives the names back exactly when they are nonempty, free of slashes and not cut short by trimming |
| `Paths.SegmentsArePrintable` | crates/front/src/model.rs:1312-1321 | the names of any path text are such names, and print as the trimmed text |
| `Paths.TrimTakesSlashes` | crates/front/src/model.rs:1312-1321 | trimming takes slashes off both ends and nothing else |
| `FrontPaths.LookupInvertsPath` | crates/front/src/model.rs:1274-1294 | looking up the printed path of an attached node gives the node back exactly when its names print back |
| `FrontAccess.RunContains` | crates/front/src/tree.rs:154-345 | over any run of attaches, walks taken lock by lock, creates from request to answer, and operations of owners and other sessions, in which no push and no answer to a create lets one out, every bound fid, every walk in progress and every node made for a pending create stays within its attach root: going up from its node meets that root, or a node that is gone, before the root of the namespace |
| `FrontAccess.ActContainsIff` | crates/front/src/tree.rs:154-345 | every single act keeps that containment, except exactly two, told from the state before: a push that brings a node back from between a tracked node and its attach root to a place not below that attach root, and the answer to a create whose qid path belongs by then to another node, outside the attach root, above which the release of the old node of the fid frees nothing |
| `FrontAccess.BoundFidsStayUnder` | crates/front/src/tree.rs:179-239 | after such a run a fid is on the root of the namespace only if that is its attach root, and one on a node that can be reached is under its attach root |
| `FrontAccess.PushContainsIff` | crates/front/src/model.rs:759-802 | a push keeps all fids and walks contained exactly when it lets none of them out |
| `FrontAccess.AnswerContainsIff` | crates/front/src/tree.rs:327-339 | the answer to a create lets the fid out exactly when its qid path belongs by then to another node than the one made, outside the attach root, with all that is above it staying |
| `FrontAccess.MadeIsSafe` | crates/front/src/front.rs:675-706 | a node the owner makes for a pending create is within the attach root of the client that asked |
| `FrontAccess.BoundIsSafeIff` | crates/front/src/tree.rs:66-77 | a fid bound to any node is within its attach root afterwards exactly when the node is, or when the release of the old node frees a tree above it |
| `FrontUproot.CutsIff` | crates/front/src/model.rs:1056-1066 | moving a fid takes a node above its new node away exactly when such a node is in a detached tree that the old node alone kept and that does not hold the new one |
| `FrontUproot.ComebackIff` | crates/front/src/model.rs:759-802 | a push brings a node back exactly when its qid belongs to a node that cannot be reached, prints the path pushed and is of its kind, nothing is at that path and the directories on the way can be made |
| `FrontCreateEscape.CreatedIsLetOut` | crates/front/src/front.rs:675-742 | a run of ten steps from the empty front in which the owner makes /a/b for a client, removes /a and pushes /a/b again before the client binds it: the client ends outside, and ".." leads to the root of the namespace |
| `FrontCreateEscape.CreateBindsAnother` | crates/front/src/tree.rs:327-339 | a run of ten steps in which the owner gives the qid of the node made to /x before the client binds it: no step but the last lets anybody out, and the last binds the client to /x |
| `FrontLines.ConfinedAgainIff` | crates/front/src/model.rs:1104-1156 | when nodes only go, a node that was out is contained again exactly when one of its parents is gone |
| `FrontAccess.ActsAreCalls` | crates/front/src/tree.rs:154-239 | the steps of these runs are the calls of attach and of the end of a walk |
| `FrontAccess.WalkNameIsSafe` | crates/front/src/tree.rs:186-213 | one name of a walk, down or "..", leads from a contained node to a contained node |
| `FrontUproot.PushConfinesIff` | crates/front/src/model.rs:607-802 | a push lets a node out of its attach root exactly when the detached node it brings back lies strictly between the two, stale parents counted, and no directory on the way to the pushed path is the attach root |
| `FrontUproot.MovedLine` | crates/front/src/model.rs:777-799 | the same for the move itself, after the collection that follows it |
| `FrontUproot.BelowMovedSurvives` | crates/front/src/model.rs:777-802 | whatever has the moved node above it survives the collection that follows the move |
| `FrontUproot.ReattachLetsOut` | crates/front/src/model.rs:759-802 | a node brought back from below the attach root to a place not below it is out: ".." leads to its new parent, which the root of the namespace reaches |
| `FrontUproot.WalkOut` | crates/front/src/tree.rs:186-192 | from a node that is out, ".." visits every parent up to the root of the namespace |
| `FrontUproot.CreatedIsConfined` | crates/front/src/model.rs:890-973 | a node created below a directory within an attach root is within it |
| `FrontEscape.PushLetsClientOut` | crates/front/src/model.rs:759-802 | a run of ten steps from the empty front, in which a client attached at /a and walked to /a/b is let out when the owner removes /a and pushes /a/b again; from its fid ".." leads to the root of the namespace |
| `FrontParents.StoreAfterInherits` | crates/front/src/model.rs:483-1048 | no operation on the namespace but a push changes the parent of a node |
| `FrontParents.NextInherits` | crates/front/src/tree.rs:66-84 | nor does any operation of a session |
| `FrontLines.InheritsConfines` | crates/front/src/model.rs:1084-1156 | an operation that changes no parent lets no node out of its attach root |
| `FrontLines.ConfinedIsUnder` | crates/front/src/model.rs:1274-1294 | a contained node that can be reached is under its attach root |
| `FrontWalk.UndisturbedWalk` | crates/front/src/tree.rs:179-239 | on a store that nobody changes between its locks a walk is the walk on that one state |
| `FrontWalk.WalkStaysUnder` | crates/front/src/tree.rs:179-239 | on one state of the store, a walk that begins under the attach root visits only nodes under it, with any mix of names and ".." |
| `FrontWalk.WalkIsLexical` | crates/front/src/tree.rs:179-239 | on one state of the store, a walk from a reachable node at or below its reachable attach root visits the nodes of the lexically simplified path, stopped at the attach root, and fails only if its first step does |
| `FrontSession.FrontTree.Attach` | crates/front/src/tree.rs:154-177 | binds the fid to the attach root of the user and counts it, exactly when the user is admitted there (`AttachIff`), and otherwise changes nothing |
| `FrontAdmission.AttachIff` | crates/front/src/tree.rs:154-177 | an attach succeeds exactly when the user is admitted: to the root of the namespace while no principals are set, and else to the root of an entry of the user that is open to the name or to all, and exists; the fid is then on that root, with that root as its attach root, in the name of the user and its principal, and no other fid changes; otherwise nothing changes |
| `FrontAdmission.AttachErrors` | crates/front/src/model.rs:1296-1309 | which error a refused attach reports |
| `FrontAdmission.CarriedAfter` | crates/front/src/tree.rs:154-345 | only an attach brings a new attach root, user, name or principal into a session; walks and creates pass on those of the fid they start from |
| `FrontAdmission.RunAdmits` | crates/front/src/tree.rs:154-345 | over any run each fid, walk and pending create goes back to an attach of its session, under the user and name it shows, to a root that was open to them at that moment |
| `FrontAdmission.FidGoesBackToAttach` | crates/front/src/tree.rs:154-177 | the same for one fid |
| `FrontPrincipals.GrantOutcome` | crates/front/src/front.rs:347-394 | a root is given to a user exactly when the user, the principal and the name are not empty, the path leads to a directory, and the user has no entry or one of the same principal and path; the error of each other case |
| `FrontPrincipals.GrantSets` | crates/front/src/front.rs:347-394 | a grant opens one more name to its user, at the directory the path leads to now, and leaves the entries of all others; one that fails leaves all entries |
| `FrontPrincipals.KeepsNamed` | crates/front/src/front.rs:396-411 | retaining principals forgets exactly the other ones |
| `FrontPrincipals.SameRootIff` | crates/front/src/model.rs:1323-1330 | two texts give the same root path exactly when they name the same path |
| `FrontPrincipals.EntriesAreGiven` | crates/front/src/front.rs:347-411 | over any run each entry of a user was given: each name of it by a grant to that user, and its root by a grant that found it under the path of the entry |
| `FrontPrincipals.FidIsEntitled` | crates/front/src/tree.rs:154-177 | over any run each fid goes back to an attach of its session, before which its user was given its attach root under its name or under all names; only while no root was given to anybody is it the root of the namespace |
| `FrontAdmission.CreateAskedIff` | crates/front/src/tree.rs:261-297 | a create is put to an owner exactly when the fid is on a directory that relays creates and can be printed below the attach root and below the root of the namespace |
| `FrontAdmission.RunCreates` | crates/front/src/tree.rs:261-325 | over any run a pending create is what the client asked for: its name, and the owner and generation of the directory the fid was on at that moment |
| `FrontSession.WalkNames` | crates/front/src/tree.rs:185-224 | the loop over the names, which sees the store anew at each lock: two states for each name |
| `FrontSession.FrontTree.Walk` | crates/front/src/tree.rs:179-239 | whatever states of the store it sees between its locks, binds the new fid to the last node walked, only if every name was walked |
| `FrontSession.FrontTree.Clunk` | crates/front/src/tree.rs:498-505 | unbinds the fid and releases its node |
| `FrontSession.FrontTree.Bind` | crates/front/src/tree.rs:66-77 | the new node is counted before the old binding is released |
| `FrontSession.FrontTree.Unbind` | crates/front/src/tree.rs:79-84 | removes the binding and releases the node once |
| `FrontSession.FrontTree.Drop` | crates/front/src/tree.rs:945-953 | every count is lowered by the fids the session has on the node, and what nobody refers to any more is collected |
| `FrontRelayRuns.RunKeepsTables` | crates/front/src/tree.rs:677-859 | over all runs the response and prefix tables have equal keys, directory marks are a subset, and all ids are below the next one |
| `FrontRelayRuns.WrongKindIsUnreachable` | crates/front/src/front.rs:842-948 | neither "wrong response kind" error can ever be reported for a request a session has issued |
| `FrontRelayRuns.FilledSlotNeverChanges` | crates/front/src/front.rs:525-620 | a filled response slot keeps its response until it is taken away |
| `FrontRelayRuns.AnsweredAtMostOnce` | crates/front/src/front.rs:525-620 | each request is answered at most once in any run |
| `FrontRelayRuns.CompletionReachesReader` | crates/front/src/front.rs:842-888 | the bytes an owner completes a request with are what its reader gets, however many other steps come between |
| `FrontRelayRuns.ListingReachesReader` | crates/front/src/front.rs:907-948 | the names an owner completes a directory request with are what its reader gets |
| `FrontRelayRuns.RejectionReachesReader` | crates/front/src/front.rs:602-620 | the error an owner rejects a request with is what its reader gets |
| `FrontRelay.FirstUnderIsFirst` | crates/front/src/model.rs:1229-1235 | the request popped for a prefix is the oldest one pending for it |
| `FrontRelayQueue.QueueIsLedger` | crates/front/src/model.rs:1199-1235 | over any run the queue is exactly the requests asked so far, each with the prefix and the bytes it was asked with and in that order, less those handed out or withdrawn |
| `FrontRelayQueue.RequestIsAccounted` | crates/front/src/model.rs:1199-1235 | every request ever asked is in the queue once and unaltered, or was handed unaltered to the owner of its prefix, or was withdrawn |
| `FrontRelayQueue.PopHandsOldest` | crates/front/src/model.rs:1229-1235 | the owner of a prefix is handed the oldest request under it that was neither handed out nor withdrawn, and is told there is none only when there is none |
| `FrontRelayQueue.PopsAreInOrder` | crates/front/src/model.rs:1229-1235 | requests of one prefix are handed out in the order of asking |
| `FrontRelayQueue.HandedOnce` | crates/front/src/model.rs:1229-1235 | no request is handed out twice |
| `FrontRelayQueue.SlotHasPrefixAsked` | crates/front/src/tree.rs:677-859 | a slot answers to the prefix its request was asked under |
| `FrontRelayReplies.SlotIsOpenIff` | crates/front/src/model.rs:1204-1209 | over any run a slot is there exactly when it was made and its request was not withdrawn |
| `FrontRelayReplies.FileReplyIff` | crates/front/src/front.rs:525-557 | the reply to a file read is taken exactly when such a request was made under that prefix and is neither withdrawn nor answered; it then fills that slot and changes nothing else |
| `FrontRelayReplies.DirectoryReplyIff` | crates/front/src/front.rs:559-600 | the same for a directory read, whose names must all be names of entries |
| `FrontRelayReplies.RejectionIff` | crates/front/src/front.rs:602-620 | the same for a rejection of either kind of read |
| `FrontRelayReplies.SecondReplyIsRefused` | crates/front/src/front.rs:525-620 | a second reply is told that the request is complete |
| `FrontRelayReplies.ReaderWaitsIff` | crates/front/src/front.rs:842-948 | a reader waits exactly while its request is neither withdrawn nor answered, and is told when it is withdrawn |
| `FrontRelayReplies.RpcReadsShareSlot` | crates/front/src/tree.rs:677-859 | until it is restarted or clunked every read of an rpc fid looks at the slot of the first one, whatever else happens |
| `FrontRelayReplies.DirectoryReadsShareSlot` | crates/front/src/tree.rs:677-859 | until its page is taken, or it is clunked or moved to another directory, every read of a directory fid looks at the slot of the first one |
| `FrontRelay.RelayTables.SubmitRequest` | crates/front/src/tree.rs:677-859 | a new id, a pending request and an empty slot, in all tables together |
| `FrontRelay.RelayTables.RemovePendingRequest` | crates/front/src/model.rs:1199-1202 | withdraws the request from the queue and leaves the others in order |
| `FrontRelay.RelayTables.RemoveResponseRequest` | crates/front/src/model.rs:1204-1209 | forgets slot, prefix and mark together |
| `FrontRelay.RelayTables.PopPendingForPrefix` | crates/front/src/model.rs:1229-1235 | takes the oldest pending request of the prefix, and no other; `QueueIsLedger` says what stays |
| `FrontRelay.RelayTables.CompleteRequest` | crates/front/src/front.rs:525-557 | fills an empty slot of a plain request, exactly when `FileReplyIff` says |
| `FrontRelay.RelayTables.CompleteDirectoryRequest` | crates/front/src/front.rs:559-600 | fills an empty slot of a directory request, exactly when `DirectoryReplyIff` says |
| `FrontRelay.RelayTables.RejectRequest` | crates/front/src/front.rs:602-620 | fills an empty slot with an error, exactly when `RejectionIff` says |
| `LogBody.ReplayRefinesHistory` | crates/front/src/model.rs:63-125 | for any start offset and any appends with changing capacities the log is a window over all bytes ever appended, ends where they end, and keeps at most the larger of the capacity and the newest entry |
| `LogBody.AppendKeepsWindow` | crates/front/src/model.rs:97-106 | one append extends the history by its bytes and evicts only whole old entries |
| `LogBody.AppendAllKeepsWindow` | crates/front/src/model.rs:559-565 | publishing entries over a log extends its history by all of them in order |
| `LogBody.EvictKeepsWindow` | crates/front/src/model.rs:97-106 | eviction drops no more entries than the capacity demands |
| `LogBody.SliceIsHistory` | crates/front/src/model.rs:108-124 | a read inside the window is exactly that slice of the full history |
| `LogBody.LogFile.Append` | crates/front/src/model.rs:97-106 | the loop that evicts leaves the log with the entry appended |
| `LogBody.LogFile.Read` | crates/front/src/model.rs:108-124 | the loop over the entries returns the slice asked for |
| `LogTail.ReadLog` | crates/front/src/front.rs:1097-1134 | a waiting reader gets the answer of the first state of the log that has one, and nothing when the wait is over |
| `LogTail.FollowerSeesHistory` | crates/front/src/front.rs:1097-1134 | a reader that asks on from where it stopped gathers one unbroken piece of the history among any appends and evictions, or is told that bytes are gone |
| `LogTail.ReadMakesProgress` | crates/front/src/front.rs:1097-1134 | a reader inside the window gets at least one byte, and is told of loss exactly when its offset was evicted |
| `Codec.TRoundTrip` | crates/core/src/codec.rs:374-479 | every request that encodes decodes to itself |
| `Codec.TReadBack` | crates/core/src/codec.rs:180-292 | every frame accepted as a request is what that request encodes to |
| `Codec.RRoundTrip` | crates/core/src/codec.rs:490-547 | every reply that encodes decodes to itself |
| `Codec.RReadBack` | crates/core/src/codec.rs:294-372 | every frame accepted as a reply is what that reply encodes to |
| `Codec.SealOpens` | crates/core/src/codec.rs:558-570 | opening a sealed frame gives its type, tag, fields and tail back |
| `Codec.OpenSeals` | crates/core/src/codec.rs:168-178 | sealing what an accepted frame held gives the frame back, so the size check accepts one length only |
| `Codec.ReferralsRoundTrip` | crates/core/src/codec.rs:572-587 | valid referrals decode to themselves |
| `Codec.ReferralsReadBack` | crates/core/src/codec.rs:589-602 | accepted referrals are valid and encode to the bytes read |
| `Referrals.ValidIff` | crates/core/src/referral.rs:20-49 | a referral is valid exactly when its mount is the text of a path below the root without blank, "." or ".." segments or control bytes, its exported root is the text of such a path or "/", its other texts are not empty and free of control bytes, and its numbers are positive |
| `Referrals.CanonicalIff` | crates/core/src/referral.rs:74-95 | a text is canonical exactly when it is the text of such a path |
| `Referrals.RoutesIff` | crates/core/src/referral.rs:52-62 | routing, which works on texts, replaces the mount in front of a path by the exported root segment by segment, exactly when the path is at or below the mount |
| `Referrals.OtherTextsAreRefused` | crates/core/src/referral.rs:52-53 | a text that is not canonical is refused |
| `Referrals.RoutesBack` | crates/core/src/referral.rs:52-62 | a referral from one place to another and one back undo each other |
| `Messages.TPartsRoundTrip` | crates/core/src/message.rs:128-166 | a request is determined by its type, tag, fields and tail |
| `Messages.TPartsReadBack` | crates/core/src/codec.rs:180-292 | and no two different layouts give the same request |
| `Messages.RPartsRoundTrip` | crates/core/src/message.rs:236-276 | a reply is determined by its type, tag, fields and tail |
| `Messages.RPartsReadBack` | crates/core/src/codec.rs:294-372 | and no two different layouts give the same reply |
| `Layout.RequestAsInManual` | crates/core/src/codec.rs:374-479 | a request encodes to the bytes that intro(5) lists, exactly when its strings, counts and size can be written |
| `Layout.ReplyAsInManual` | crates/core/src/codec.rs:490-547 | a reply encodes to the bytes that intro(5) lists, exactly when its strings, counts and size can be written and its referrals are valid |
| `Layout.StatAsInManual` | crates/core/src/stat.rs:56-75 | a stat encodes to the record that stat(5) lists, exactly when its strings and its body fit their counts |
| `Layout.FieldsAreLaid` | crates/core/src/stat.rs:157-180 | fields are written in order, exactly when every string is short enough |
| `Layout.FrameIsLaid` | crates/core/src/codec.rs:558-570 | a frame is size, type, tag and body, and the size counts all of them |
| `Layout.ReferralsLaid` | crates/core/src/codec.rs:572-587 | referrals are written in order, exactly when each is valid and its strings are short enough |
| `Framing.EncodeTMessage` | crates/core/src/codec.rs:374-479 | the growing buffer with its patched size is the frame of the request, or the error |
| `Framing.EncodeRMessage` | crates/core/src/codec.rs:490-547 | the growing buffer with its patched size is the frame of the reply, or the error |
| `Framing.EncodeFrame` | crates/core/src/codec.rs:558-570 | a zero size patched at the end gives the same frame as writing the size first |
| `Framing.DecodeTMessage` | crates/core/src/codec.rs:180-292 | the moving cursor reads the request the frame holds, or reports the first error |
| `Framing.DecodeRMessage` | crates/core/src/codec.rs:294-372 | the moving cursor reads the reply the frame holds, or reports the first error |
| `Framing.DecodeFrame` | crates/core/src/codec.rs:168-178 | size, type, fields, tail and end of frame are checked in the order of the source |
| `Framing.PushReferrals` | crates/core/src/codec.rs:572-587 | the loop validates and writes each referral |
| `Framing.ReadReferrals` | crates/core/src/codec.rs:589-602 | the loop reads and validates each referral |
| `Frames.ReadFrame` | crates/core/src/codec.rs:118-158 | a frame is read whole or not at all, a quiet end takes nothing from the stream, and without faults the outcome depends on the bytes alone |
| `Frames.ReadSize` | crates/core/src/codec.rs:119-139 | a quiet end is reported only before the first size byte; later it is a truncated size |
| `Frames.BackToBack` | crates/core/src/codec.rs:118-158 | frames written back to back are read back one by one, followed by the quiet end |
| `Frames.QuietEndIsBoundary` | crates/core/src/codec.rs:118-158 | the quiet end is met exactly when the stream is whole frames and no more |
| `Frames.CutFrame` | crates/core/src/codec.rs:118-158 | a frame that is cut off is told apart from the end of the stream, and a cut in its size from a cut in its body |
| `Frames.ReceiveAll` | crates/core/src/codec.rs:76-92 | whatever the pieces, the frames read are the first of the stream; without faults they are all of them |
| `Frames.RequestsArrive` | crates/core/src/codec.rs:481-488 | requests encoded within the agreed size arrive: same frames, same requests, then the quiet end |
| `Frames.ReplyArrives` | crates/core/src/codec.rs:549-556 | a reply encoded within the agreed size passes the size checks of the reader and decodes to itself |
| `Frames.ClampedReadFits` | crates/core/src/codec.rs:72-74 | a reply with a clamped count of bytes is a frame within the agreed size |
| `Frames.ClampIsLargest` | crates/core/src/codec.rs:72-74 | and no larger count within the one asked for would fit |
| `Frames.LargestWriteFits` | crates/core/src/codec.rs:160-162 | a request that writes at most the largest payload is a frame within the agreed size |
| `Frames.LargestWriteIsLargest` | crates/core/src/codec.rs:160-162 | and no larger payload would fit |
| `Wire.FieldRoundTrip` | crates/core/src/stat.rs:157-180 | reading what was written, in front of anything, gives the value and leaves the rest |
| `Wire.FieldReadBack` | crates/core/src/stat.rs:182-246 | whatever was read is what writing it produces |
| `Wire.FieldsRoundTrip` | crates/core/src/stat.rs:157-180 | the same for any sequence of fields |
| `Wire.FieldsReadBack` | crates/core/src/stat.rs:182-246 | the same for any sequence of fields |
| `Wire.Cursor.Take` | crates/core/src/stat.rs:234-246 | takes exactly the bytes asked for, or fails and takes none |
| `Wire.Cursor.Fields` | crates/core/src/stat.rs:196-232 | reads a sequence of fields in order, or reports the first that is cut short |
| `Stats.StatRoundTrip` | crates/core/src/stat.rs:56-75 | every stat that encodes decodes to itself |
| `Stats.StatReadBack` | crates/core/src/stat.rs:77-110 | every record accepted is what its stat encodes to |
| `Stats.EntriesRoundTrip` | crates/core/src/stat.rs:137-155 | the records of a listing, end to end, decode to the listing |
| `Stats.EntriesReadBack` | crates/core/src/stat.rs:137-155 | bytes that decode are exactly the records of what they decode to |
| `Stats.DecodeDirEntries` | crates/core/src/stat.rs:137-155 | the loop over the bytes decodes the listing or reports its first error |
| `DirPages.DirreadChunk` | crates/core/src/stat.rs:113-135 | returns whole records from the offset on, as many as fit; fails exactly when it gets as far as an entry that cannot be encoded |
| `DirPages.OffBoundaryReadsNothing` | crates/core/src/stat.rs:113-135 | an offset inside a record, or beyond the end, reads nothing |
| `DirPages.FillToIsGreedy` | crates/core/src/stat.rs:113-135 | what is taken fits, and the next record does not |
| `DirPages.ReadAll` | crates/core/src/blocking.rs:533-548 | pages of any sizes give whole records from the start, up to one that does not fit its page, or the error of the first entry that cannot be encoded |
| `DirPages.ReadDirStats` | crates/core/src/blocking.rs:550-553 | with every count at least the largest record, reading and decoding gives each entry once and in order, or the error of the first that cannot be encoded |
| `DirPages.FixedCountIsCompleteIff` | crates/core/src/blocking.rs:533-548 | with one fixed count the reading is complete exactly when every record fits into it |
| `CacheFeed.StatHitIff` | crates/session/src/control/snapshot.rs:255-273 | in every state of every run, with values stored any time after they are read and changes told any time after they happen, a stat hit shows the namespace as told so far, or as it was read if that is later, exactly when nothing told between its read and its fill changed it |
| `CacheFeed.ListingHitIff` | crates/session/src/control/snapshot.rs:275-295 | the same for a listing hit |
| `CacheFeed.UncoveredHitsAreCurrent` | crates/session/src/feed/worker.rs:421-440 | a hit is never older than what has been told if nothing told between its read and its fill covers it |
| `CacheFeed.LateFillIsWrong` | crates/session/src/control/snapshot.rs:266-272 | a run in which a stat read before a change and stored after its notification is a wrong hit |
| `CacheFeed.TwoPathsAreTwoNotes` | crates/session/src/cache.rs:183-198 | a change that names two paths can be told path by path, as the two locks of its notification do |
| `CacheFeed.TellIsExact` | crates/session/src/cache.rs:183-198 | a note that is told drops exactly the hits it covers |
| `Cache.HitsAreCurrent` | crates/session/src/cache.rs:132-150 | in runs that store each value as it is read and tell each change as it happens, renames included, every hit equals the current namespace |
| `AbsolutePaths.ParseIsSpelling` | crates/session/src/cache.rs:347-354 | a text is read as a path exactly when it begins with a slash and is the segments of that path in order, each behind one or more slashes, with any slashes at the end; every other text is read as none |
| `AbsolutePaths.SlashedParses` | crates/session/src/cache.rs:347-354 | every path of nonempty segments without slashes has a text that is read as it |
| `Cache.NotifiedChangeIsHonest` | crates/session/src/cache.rs:183-214 | a change covered by its notification, where a text covers what it spells, leaves only hits that are still so |
| `Cache.MarkNotifiedIsExact` | crates/session/src/cache.rs:200-223 | a notification drops the stats at and below the path its text spells and the listings there and of its parent, and nothing else; a text that is not absolute drops everything |
| `Cache.UpdateStatIsHonest` | crates/session/src/cache.rs:152-169 | a stat taken from the namespace keeps the cache honest; a kept listing is still right |
| `Cache.IsDirIff` | crates/session/src/cache.rs:299-301 | a stat is that of a directory exactly when the top bit of its qid type or of its mode is set |
| `Cache.UpdateDirectoryIsHonest` | crates/session/src/cache.rs:171-181 | a listing taken from the namespace keeps the cache honest, seeded children included |
| `Cache.SeedIsHonest` | crates/session/src/cache.rs:323-345 | seeding the stats of listed children keeps the cache honest |
| `Cache.FillsHit` | crates/session/src/cache.rs:152-169 | a stat filled in is a hit, and no other hit changes |
| `Cache.StatKeepsListing` | crates/session/src/cache.rs:152-169 | a listing survives a new stat exactly when the qid is the same and the stat is that of a directory |
| `Cache.DirectoryFillsHit` | crates/session/src/cache.rs:171-181 | a listing filled in is a hit exactly under a fresh directory stat |
| `Cache.DirectorySeedsHits` | crates/session/src/cache.rs:323-345 | a listing filled in makes hits of the stats it shows, of the last one where a name is listed twice |
| `Cache.NamespaceCache.StatHit` | crates/session/src/cache.rs:132-139 | a stat is returned only if it is fresh |
| `Cache.NamespaceCache.DirectoryHit` | crates/session/src/cache.rs:141-150 | a listing is returned only if both it and its stat are fresh |
| `Cache.NamespaceCache.SetStat` | crates/session/src/cache.rs:152-169 | stores the stat and drops the listing of another identity or of no directory |
| `Cache.NamespaceCache.SetDirectory` | crates/session/src/cache.rs:171-181 | stores the listing and seeds its children |
| `Cache.NamespaceCache.MarkPathStale` | crates/session/src/cache.rs:200-214 | the loop marks all nodes at or below the path and clears the listing of the parent |
| `Cache.NamespaceCache.MarkAllStale` | crates/session/src/cache.rs:216-223 | the loop marks every node |
| `Cache.NamespaceCache.NotifyChange` | crates/session/src/cache.rs:183-198 | marks both paths of a change; a text that is not absolute marks everything |
| `NodeTables.RunKeepsAccount` | crates/fuse/src/node.rs:110-213 | over any run of lookups, forgets, rebindings, takes, stale marks, removals and renames given new fids, each fid is held by exactly one node or was returned exactly once, and no two nodes share a path |
| `NodeTables.NextKeepsAccount` | crates/fuse/src/node.rs:110-213 | each operation hands back exactly the fids it stops holding |
| `NodeTables.RenameIsExact` | crates/fuse/src/node.rs:296-327 | a rename takes away what is at and below the target and moves what is at and below the source there, keeping what follows; no other node changes |
| `NodeEffects.MarkIsExact` | crates/fuse/src/node.rs:421-463 | a stale mark takes the fid, the listing and the freshness of exactly the nodes at the path, or at and below it, but never of the root, leaves every other node as it is, and reports each of them once, in order, with its fid, its last name and the last node at the path of its parent |
| `NodeEffects.RemoveIsExact` | crates/fuse/src/node.rs:296-314 | a removal takes exactly the nodes at and below a nonempty path and leaves the others as they are |
| `NodeEffects.MoveIsExact` | crates/fuse/src/node.rs:316-327 | a move changes the path of exactly the nodes at and below a nonempty source, keeping what follows the source, and nothing else |
| `NodeEffects.LookupIsExact` | crates/fuse/src/node.rs:110-171 | a lookup renews the node at the path, and no other, with every field told, or makes one; which fid is kept and which is handed back |
| `NodeEffects.ForgetIsExact` | crates/fuse/src/node.rs:173-191 | a forget lowers the lookups of a node that has more, and else removes it and hands back its fid; no other node changes |
| `NodeEffects.RebindIsExact` | crates/fuse/src/node.rs:193-209 | a rebinding gives the node the new fid and stat, with every field told, and hands back the fid it had if that is another |
| `NodeEffects.RefreshIsExact` | crates/fuse/src/node.rs:215-227 | a refresh gives the node the new stat and keeps its fid and generation |
| `NodeEffects.TakeIsExact` | crates/fuse/src/node.rs:211-213 | taking the fid of a node leaves all else of it |
| `NodeEffects.IdentityIsExact` | crates/fuse/src/node.rs:480-482 | two stats are of one node exactly when their inodes and kinds agree |
| `NodeEffects.InodeIsExact` | crates/fuse/src/node.rs:466-468 | two qids give one inode exactly when they agree on the type and the low 55 bits of the path |
| `Nodes.InsertAccountsIff` | crates/fuse/src/node.rs:110-171 | a lookup keeps the account of fids exactly when its path has a node, or the next id names no node with a fid |
| `Nodes.ForgetAccounts` | crates/fuse/src/node.rs:173-191 | a forgotten node hands back its fid |
| `Nodes.ForgetUndoesLookup` | crates/fuse/src/node.rs:110-191 | forgetting a lookup once undoes its counting, and removes a node made for it |
| `Nodes.ReplaceAccounts` | crates/fuse/src/node.rs:193-209 | a rebound node hands back the fid it had |
| `Nodes.TakeAccounts` | crates/fuse/src/node.rs:211-213 | a taken fid is handed back and no longer held |
| `Nodes.MarkAccounts` | crates/fuse/src/node.rs:421-463 | a stale mark hands back the fids of exactly the nodes it marks, which `MarkIsExact` names |
| `Nodes.RemoveAccounts` | crates/fuse/src/node.rs:296-314 | a removal hands back the fids of exactly the nodes it removes |
| `Nodes.MoveKeepsDistinctIff` | crates/fuse/src/node.rs:316-327 | moving a prefix keeps paths distinct exactly when no moved node lands on one that stays |
| `Nodes.RenameKeepsDistinct` | crates/fuse/src/node.rs:296-327 | removing what is at a nonempty target and then moving there keeps paths distinct |
| `Nodes.RenameToRootCollides` | crates/fuse/src/node.rs:296-327 | with an empty target two nodes can end with one path |
| `Nodes.LastIdLosesFid` | crates/fuse/src/node.rs:149-150 | otherwise, at the top of the id counter, the fid of the node that is replaced is neither held nor returned |
| `Nodes.InsertKeepsDistinct` | crates/fuse/src/node.rs:110-171 | a lookup adds a node only at a path that has none |
| `NodeTables.NodeTable.constructor` | crates/fuse/src/node.rs:54-76 | the root node with its fid |
| `NodeTables.NodeTable.NodeidAtPath` | crates/fuse/src/node.rs:329-333 | the first node at the path in the order of the table |
| `NodeTables.NodeTable.InsertNode` | crates/fuse/src/node.rs:110-171 | the table after a lookup, its node and the fid to clunk, or the error |
| `NodeTables.NodeTable.ForgetNode` | crates/fuse/src/node.rs:173-191 | lowers the lookups or removes the node; the root stays |
| `NodeTables.NodeTable.RebindNode` | crates/fuse/src/node.rs:193-209 | the table after a rebinding and the fid replaced |
| `NodeTables.NodeTable.TakeFidOf` | crates/fuse/src/node.rs:211-213 | the table without the fid, and the fid |
| `NodeTables.NodeTable.RemoveSubtree` | crates/fuse/src/node.rs:296-314 | the loop removes the nodes at or below the path and collects their fids |
| `NodeTables.NodeTable.MovePrefix` | crates/fuse/src/node.rs:316-327 | the loop moves every node at or below the source |
| `NodeTables.NodeTable.MarkWith` | crates/fuse/src/node.rs:421-463 | the loop marks the matching nodes but the root and lists their bindings, as `MarkIsExact` says |
| `Requests.KeysAreUnique` | crates/core/src/flush.rs:34-73 | over any run no key is handed out twice, whatever is finished, flushed, reused or reset, and none ends twice |
| `Requests.StaleKeyStaysStale` | crates/core/src/flush.rs:50-58 | a key that is no longer live never finishes the request that reuses its tag |
| `Requests.InFlightIs` | crates/core/src/flush.rs:34-73 | over any run a key is in flight exactly when it was handed out since the last reset and has neither been finished nor cancelled |
| `Requests.BeginsIff` | crates/core/src/flush.rs:34-48 | a tag can be begun exactly when it is not NOTAG and every key handed out for it since the last reset has ended |
| `Requests.EndsIff` | crates/core/src/flush.rs:50-68 | a key finishes, and a flush of its tag cancels it, exactly when it is in flight |
| `Requests.GenerationCounts` | crates/core/src/flush.rs:34-73 | the generation counts the keys handed out and the resets |
| `Requests.KeysRepeatAtTheTop` | crates/core/src/flush.rs:44 | a tag begun again gets the same key exactly when the generation counter is at its top |
| `Requests.RequestTable.BeginRequest` | crates/core/src/flush.rs:34-48 | a new key for a tag not in flight; NOTAG and tags in flight are refused |
| `Requests.RequestTable.FinishRequest` | crates/core/src/flush.rs:50-58 | only the live key of a tag finishes it |
| `Requests.RequestTable.FlushRequest` | crates/core/src/flush.rs:60-68 | cancels what is in flight under the tag |
| `Requests.RequestTable.ResetTable` | crates/core/src/flush.rs:70-73 | nothing is in flight, and older keys stay dead |
| `ClientTags.RunMatches` | crates/core/src/client.rs:268-444 | over any run each issued tag accepts at most one reply: every answer follows an issue of that tag with nothing in between |
| `ClientTags.AcceptedIsAnswered` | crates/core/src/client.rs:268-411 | every reply the client accepts is such an answer |
| `ClientTags.RepliesNeedLiveTags` | crates/core/src/client.rs:437-443 | a reply is accepted only for a tag in flight and takes it out of flight |
| `ClientReplies.ReplyTakenIff` | crates/core/src/client.rs:268-411 | a reply is taken exactly when it answers the version offered, within the size offered and not below the smallest, or a tag in flight, an open or create also keeping to the size agreed on |
| `ClientReplies.ReplyEnds` | crates/core/src/client.rs:268-411 | a reply takes out of flight exactly its own tag, with the reply to a flush also the tag flushed, and with a new version all of them |
| `ClientReplies.ReplyForgets` | crates/core/src/client.rs:268-411 | what a tag was to flush is forgotten exactly with a new version, an error reply to it and the reply to the flush |
| `ClientReplies.ClientUsesAgreed` | crates/core/src/client.rs:79-89 | over any run the client uses the size and the version of the last answer of the server that agreed with its offer, and no version while an offer is open |
| `ClientReplies.FlushReplyCancels` | crates/core/src/client.rs:246-257 | whatever happens while a flush is in flight, its reply takes the request it was for out of flight |
| `ClientReplies.GivenUp` | crates/core/src/client.rs:259-266 | giving a tag up takes exactly that tag out of flight; a new negotiation takes all of them |
| `ClientTags.AllocSucceedsIff` | crates/core/src/client.rs:413-426 | a tag is found exactly when a usable one exists other than the one the 65535 tries do not reach |
| `ClientTags.TwoFreeTagsSuffice` | crates/core/src/client.rs:413-426 | two usable tags are enough |
| `ClientTags.OneFreeTagMayFail` | crates/core/src/client.rs:413-426 | a single usable tag can be the one that is missed |
| `ClientTags.FreeTagIsMissed` | crates/core/src/client.rs:413-426 | it is missed in a run: a new client gives out all 65535 tags, hears a reply to the last of them, and finds none |
| `ClientTags.AsksTakeTagsInOrder` | crates/core/src/client.rs:413-426 | a new client gives out the tags in order |
| `ClientTags.AllocTakesFree` | crates/core/src/client.rs:413-426 | the tag given out was not in flight and is not NOTAG; nothing else changes |
| `ClientTags.Client.AllocTag` | crates/core/src/client.rs:413-426 | the loop gives out the first usable tag from the next one on |
| `ClientTags.Client.FlushTag` | crates/core/src/client.rs:246-257 | a flush remembers the tag it is for |
| `ClientTags.Client.VersionRequest` | crates/core/src/client.rs:79-89 | a new negotiation takes every tag out of flight and sends the size and the name of the variant under NOTAG |
| `ClientTags.Client.AbandonTag` | crates/core/src/client.rs:259-266 | an abandoned tag is no longer in flight |
| `ClientTags.Client.ReceiveReply` | crates/core/src/client.rs:268-411 | the state and answer after any reply |
| `ClientTags.Client.FinishTag` | crates/core/src/client.rs:437-443 | takes the tag out of flight or reports it unknown |
| `SecureStream.SecureReader.Read` | crates/auth/src/stream.rs:133-159 | whatever arrives, the bytes handed out are a prefix of the bytes written; a nonempty buffer is left empty only at the end of the stream |
| `SecureStream.SecureReader.ReadRecord` | crates/auth/src/stream.rs:97-131 | a record is opened under the next nonce or nothing is handed out; one that is refused shuts the transport down, and a stream of whole records is never refused |
| `SecureStream.ReadCiphertext` | crates/auth/src/stream.rs:97-115 | a whole record is taken whole; an end before its first byte is told from one inside it |
| `SecureStream.SecureWriter.Write` | crates/auth/src/stream.rs:162-199 | one record per write, sealed under a nonce never used before, with a length that fits u16; after a failure nothing follows on the wire |
| `SecureStream.SecureWriter.WriteAll` | crates/auth/src/stream.rs:162-199 | writing all of an input sends exactly its bytes |
| `SecureStream.ReadToEnd` | crates/auth/src/stream.rs:96-199 | for any writes and any buffer sizes all bytes written come out in order and nothing else |
| `Broker.CountersAreRight` | crates/reverse/src/broker.rs:508-518 | under every interleaving the waiting count is at least the queue, equal to it when no thread is between steps, and neither limit is exceeded |
| `Broker.StreamsEndOnce` | crates/reverse/src/broker.rs:329-477 | under every interleaving each authenticated stream is queued, bridged or discarded exactly once, and the queue is first in first out |
| `Broker.NoUnderflow` | crates/reverse/src/broker.rs:514-518 | no shared counter is lowered below zero |
| `Broker.NextKeepsTally` | crates/reverse/src/broker.rs:543-571 | every atomic step keeps each counter equal to what it counts |
| `Broker.PlacesMove` | crates/reverse/src/broker.rs:360-370 | every atomic step moves streams between places and never copies or loses one |
| `Calendar.CivilFromDays` | crates/cli/src/format.rs:139-155 | the result is the valid Gregorian date whose day number is the input exactly when the input lies between the first day of the smallest i32 year and the last of the largest, negative days included |
| `Calendar.Wide` | crates/cli/src/format.rs:139-149 | before narrowing, every day has its valid date |
| `Calendar.Era` | crates/cli/src/format.rs:141-142 | the corrected truncating division rounds down for negative days too |
| `Calendar.YearOfEra` | crates/cli/src/format.rs:143-145 | the year and the day of the year are right for each of the 146097 days of an era |
| `Calendar.FromMarch` | crates/cli/src/format.rs:146-149 | the month and day are right for each day of a year that begins in March, leap or not |
| `Calendar.CivilSteps` | crates/cli/src/format.rs:139-155 | consecutive inputs give consecutive dates |
| `Calendar.CivilBegins` | crates/cli/src/format.rs:139-155 | day 0 is 1 January 1970 |
| `Calendar.DayNumberCounts` | crates/cli/src/format.rs:139-155 | the day number used above counts days one by one |
| `Calendar.DayNumberIsInjective` | crates/cli/src/format.rs:139-155 | different valid dates have different day numbers |
| `Calendar.UtcComponents` | crates/cli/src/format.rs:126-137 | date, hour and minute recombine to the time they came from, to the minute, exactly when the day is in that range |

## Left out

- Sockets, files, clocks, timeouts, condition variables, mount supervision and argument parsing: a timeout or a wait that ends appears as a step or an outcome that may happen.
- The requests by which a walk has a missing child directory resolved: in the runs of `FrontAccess` the child is added by an `Adopt` step before the walk looks it up, and the waiting and its time limit are not told apart from a late lookup.
- Renaming in the front, and the write, remove, wstat and create relays: their slots may be overwritten, so they have no write-once property like that of plain responses.
- Completeness of a relayed directory listing after a rejected page.
- The server and multiplexing loops, and the FUSE operations and handles around the node table.
- Request contexts (principal, session, cancellation) carried along with relayed requests.
- Cryptography: the cipher is any pair of functions that opens exactly what was sent under its nonce.
- Names and paths inside the front are strings of characters, since all of them come from checked UTF-8; on the wire and in caches they are bytes.
- Ids, versions and offsets that are u64 in the front are unbounded numbers, except where a table, a qid path or a version would wrap or run out.
- FrontState.State.RemoveNodeRecursive: takes the store and the removals so far as specification-only arguments; the depth of the call stack is not modelled.
- FrontWalk.WalkStaysUnder: about one state of the store, while a walk unlocks it between names; what holds then is in `FrontAccess`.
- FrontWalk.WalkIsLexical: about one state of the store and a reachable attach root; what holds while others change the store is in `FrontAccess`.
- FrontSession.WalkNames: a name that is missing under its lock is missing; the resolution of missing child directories is not part of the loop.
- FrontSession.FrontTree.Walk: the same.
- In the runs of `FrontAccess` a session may act while its walk or create is under way, and a create may be answered with any of the nodes made for it: more than the exclusive borrow and the reply slot of the source allow.
- CacheFeed.StatHitIff: a directory read in several pages is one read of one state of the namespace.
- FrontSession.FrontTree.Clunk: the buffers, the open mode and the relayed requests of the fid are not part of this class; `FrontRelayRuns` has the requests.
- FrontSession.FrontTree.Drop: the same holds for those of the whole session.
- FrontRelay.RelayTables.CompleteRequest: a reply to a request without a slot is published as a file under its intake prefix, which leaves these tables alone; the file is not made here.
- NodeTables.RunKeepsAccount: for runs shorter than the id space; `InsertAccountsIff` says exactly what can happen at its end.
- Requests.KeysAreUnique: for runs shorter than the generation counter; `KeysRepeatAtTheTop` shows what happens at its end.
- Refreshing nodes by qid and rebinding them in bulk: when no node matches, the new fid is dropped.
- Calendar.CivilFromDays: the addition of the epoch offset is on unbounded numbers, so the last 719468 values of i64 are not told apart.
- A client's guarantee that a flushed tag is not reused before its reply, or that the kind of a reply matches its request: the client tracks neither.
- Messages that contain a formatted number or path report the fixed part of their text.
- The broker after shutdown has begun, when the queue is dropped with the streams in it.
- The server side of version negotiation, the choice among several referrals, and the freshness of cached entries by age.
