# musefs-core: a verified model

musefs presents a music library as a file system: tracks appear under paths rendered from
their tags, and reading one returns freshly synthesized metadata followed by the untouched
audio of the backing file. This project models five parts of `musefs-core` that each replace
something simple by something fast or concurrent, and proves that the fast form agrees with
the simple one.

* **The virtual tree** (`Names`, `NameFacts`, `TreePlan`, `TreeCanon`, `TreeRebuild`, `TreeDirty`,
  `TreeGate`, `TreeMarks`, `TreeWalk`, `TreeState`, `TreeBuild`, `TreeRepair`, `TreeChange`,
  `TreeConserve`, `Inodes`, `VirtualTree`, `TreeRefresh`, `TreeFacts`, `TreeNames`,
  `TreeLimits`, `TreeFolded`). A `Plan` says which tracks and directories exist and at which rank of its
  rendered name each stands; class `VirtualTree` holds the maps of the source, and `Holds` ties
  them to a plan and an assignment of inodes. A group of equally rendered siblings is *correct*
  when its ranks are dense and follow the least track id below each member; a plan is
  *canonical* when every group is. A *vocabulary* gives every directory, by its rendered
  path, the set of rendered names allowed there; it is *unambiguous* when in no directory one
  allowed name is a ranked candidate of another. `ApplyChanges` dirties, patches and rebuilds
  the maps in place. Main result: over any unambiguous vocabulary, from a canonical tree and
  with a true diff, it never fails and ends in exactly the maps, inodes included, that a build
  from scratch gives; where a directory has a name and a ranked candidate of it, there is a
  tree and a batch for which it does not. The pieces are that the dirty walks mark a directory
  above every group the batch leaves out of order (`DirtySound` and `BatchDirtied`), that a
  rebuild puts everything below its directory in order and moves nothing else
  (`RebuildRestores`), and that a canonical plan is determined by its tracks
  (`CanonicalUnique`). Whatever the names, a patch is the batch in ascending order and then a
  run of rebuilds of marked directories; it loses and invents no track (`TreeConserve`), and
  the maps stay consistent (`TreeFacts`). `NameFacts` says what the naming functions compute,
  in bytes and characters, and `TreeNames` which names of a tree fit in 255 bytes.
  `TreeFolded` is the build for a case-insensitive mount.
* **Read-ahead** (`Windows`, `ReadAhead`, `Backing`, `Prefetch`, `Ledger`, `LedgerOwners`,
  `LedgerEpochs`). The
  ring of cached windows, the reader above it, the prefetch planner with its compare-and-swap
  loop, and the pool's byte ledger and locks as a system of atomic steps.
* **Serving** (`OggPages`, `OggLayout`, `OggServe`, `Reader`). Any window of a synthesized file is the slice
  of the whole. For Ogg the whole is every page of the backing region with its header patched;
  page layout is section 6 of RFC 3533, stated a second time as a writer of pages in `OggLayout`.
* **The scan** (`Walk`, `Pipeline`, `ByteBudget`). The walk as a graph search; workers, channel,
  byte semaphore and batching writer as a step system with an invariant, absence of deadlock
  and a measure that every step lowers.
* **Path templates** (`TemplateParse`, `TemplateGrammar`, `Template`, `TemplateFacts`). The
  parser against a grammar that says which text writes which parts, the renderer, and what it
  shows of each part.

Code that updates state in place is a class with those fields; concurrent code is a system
of atomic steps whose properties hold in every reachable state; a method with a loop is proved
against a function or predicate about which the lemmas then speak.

## What the proofs show about the code

* `apply_changes` does not always agree with a build from scratch. With `t (2).flac` (track 3)
  in the tree and tracks 1 and 2 added at `t.flac`, the walks mark nothing and track 2 lands
  on `t (3).flac`; built from scratch it is `t (2).flac`. Short names are those a rank suffix
  still leaves within 255 bytes. Over them agreement holds for every unambiguous vocabulary
  (`ApplyChanges`), so equal names in different directories never matter. As soon as a
  directory may hold a name and its candidate of rank `k`, there are a canonical tree and a
  true diff for which the patched tree fails the oracle (`CollisionDiverges`, `PatchDiverges`;
  for `k` up to 2^32 - 6, as the tree needs `k + 1` tracks). The directory is any that is
  reached by names not shaped like a rank, the first not reserved in the root; for a name
  reserved in the root it is the one two levels below. For vocabularies that are the same in
  every directory the condition is thus exact. Unambiguous means that ranked names determine
  name and rank (`UnambiguousIsInjective`); names not shaped like a rank are one such set
  (`PlainUnambiguous`).
* A cold Ogg read succeeds at every offset of a region of valid pages exactly when every page
  with a successor is at most 65,304 bytes and fewer than 64 look-alikes precede the page
  (`ReachableEverywhere`, `LocatedExactly`). The scan window is one maximum page long, so after
  a larger page a read that starts one to three bytes into the next one finds nothing.
* The documentation of `reconcile` gives the ledger's invariant over registered buffers. It
  fails when a read that is still going as its handle is released dispatches a prefetch job
  after the release has moved the epoch on: the job passes the epoch test after the buffer has
  left the registry, and its bytes stay charged (`StoredAfterRelease`). When every job still
  waiting at the last release is stale, no read is going then, and nobody panics, the
  invariant holds at every rest of every run (`ExactInLawfulRuns`). In any run, with every
  change charged and none lost, it holds exactly when no unregistered buffer holds bytes
  (`ExactOverRegistered`). Over all buffers, and up to charges not yet applied, it holds in
  every reachable state, because a thread that took a buffer's length still holds the buffer's
  lock when it changes it (`StepCurrent`, `StepBalanced`).
* The collision gate after a removal never matters over an unambiguous vocabulary: the walks
  before the removal have already marked enough.
* The truncation of an over-long component always ends within 255 bytes (`TruncatedFits`),
  that of a ranked name not: its stem gives way, its extension does not. A ranked name is
  within 255 bytes exactly when rank and extension together are (`CandidateFits`), and so is
  every name in a tree (`NodeNameFits`). `a.` followed by 252 letters is truncated nowhere,
  and its second rank is longer than a component may be (`OverlongCandidate`).
* A page that cannot be read makes the Ogg scan settle on an earlier one; the window served is
  right all the same (`NearStart`, `WalkPages`).

## Model

| member | source | states |
|---|---|---|
| TreeRefresh.Refresh | musefs-core/src/facade/refresh.rs:345-399 | One refresh: over an unambiguous vocabulary, on a canonical tree with a true diff, the incremental path is taken, its oracle holds, and the published tree is that of a build from scratch, again canonical; on any input the fallback publishes the built tree, a path that stays live keeps its inode, no inode changes hands, and the allocator ends within twice the live nodes |
| TreeRefresh.MatchesFreshBuild | musefs-core/src/facade/refresh.rs:366-384 | The oracle holds whenever the tree's plan is the built one, and when it holds the maps are those of the built plan |
| TreeRefresh.FreshBuild | musefs-core/src/tree.rs:215-249 | Building paths over an unambiguous vocabulary in ascending id order gives a canonical plan of exactly those tracks |
| TreeRefresh.CanonicalIsBuilt | musefs-core/src/tree.rs:819-934 | A canonical plan of the new paths is the plan a build from scratch gives |
| TreeRefresh.PrunedLinks | musefs-core/src/tree.rs:140-145 | A prune keeps the path-to-inode link of every live node |
| VirtualTrees.VirtualTree.ApplyChanges | musefs-core/src/tree.rs:819-934 | A missing rendered path is an error before anything changes; a success, whatever the names, is the batch inserted in ascending order and then as many rebuilds as it returns, each of a directory that the walks or gates marked; it loses and invents no track and leaves each at its old place or its new path; when the walks and gates mark nothing, nothing is rebuilt and the batch is inserted in ascending order; for a true diff on a canonical tree, over any unambiguous vocabulary, it succeeds and ends canonical with exactly the new tracks; no inode is reissued or reassigned |
| VirtualTrees.VirtualTree.RebuildDirty | musefs-core/src/tree.rs:911-934 | Rebuilding the live dirty directories shallow-first, skipping those below a rebuilt one, is a run of rebuilds of dirty directories, as many as it returns, that carries every track over, changes nothing when none is dirty, and restores order to every group when the dirty set covers the disordered ones |
| VirtualTrees.VirtualTree.RebuildSubtree | musefs-core/src/tree.rs:714-746 | Takes out exactly the tracks below the directory and puts them back at their paths in ascending id order; fails exactly when one has no path, naming the first |
| VirtualTrees.VirtualTree.MarkDirty | musefs-core/src/tree.rs:855-888 | The dirty set on the old tree, in full: the levels whose least id leaves, the branch points onto a taken name, and the levels whose least id an addition lowers |
| VirtualTrees.VirtualTree.MarkAdded | musefs-core/src/tree.rs:862-888 | Marks exactly the deepest existing directory when the first new component's key is taken, and the gated levels above with a larger least id |
| VirtualTrees.VirtualTree.DirtyRemovedAncestors | musefs-core/src/tree.rs:757-779 | Marks exactly the parents of gated ancestors that the leaving track introduced |
| VirtualTrees.VirtualTree.DirtyMinFlipAncestors | musefs-core/src/tree.rs:785-808 | Marks exactly the parents of gated ancestors whose introducing id the new one undercuts |
| VirtualTrees.VirtualTree.Partition | musefs-core/src/tree.rs:832-853 | A changed track moves exactly when its file's path differs from its rendered path; an absent one is inserted; the first without a path is the error |
| VirtualTrees.VirtualTree.RemoveAndInsert | musefs-core/src/tree.rs:890-909 | Removals, then insertions in ascending id order whatever order they were listed in; the dirty set grows by exactly the survivors of pruned chains whose gate opens |
| VirtualTrees.VirtualTree.RemoveTracks | musefs-core/src/tree.rs:890-898 | Each removal in turn; a directory that lost a pruned chain is marked exactly when the gate for the lost name is open there |
| VirtualTrees.VirtualTree.MoveBatch | musefs-core/src/tree.rs:855-909 | The dirty set is exactly what the walks and gates mark; it covers all that the batch leaves out of order; nothing marked means nothing to rebuild |
| VirtualTrees.VirtualTree.CollisionGate | musefs-core/src/tree.rs:537-565 | Open exactly when the child's name is not its rendered name or is shaped like a rank, or a sibling of the same rendered name holds a rank before the first free one |
| VirtualTrees.VirtualTree.IntroducingId | musefs-core/src/tree.rs:643-662 | The least track id below the node, or the maximal id when there is none |
| VirtualTrees.VirtualTree.DeepestExistingAncestor | musefs-core/src/tree.rs:940-961 | The directory of the longest existing proper prefix of the rendered path, and that prefix's length |
| VirtualTrees.VirtualTree.AncestorIn | musefs-core/src/tree.rs:964-978 | True exactly when the node or a directory above it is in the set |
| VirtualTrees.VirtualTree.PathOfInode | musefs-core/src/tree.rs:665-680 | The disambiguated path from the root |
| VirtualTrees.VirtualTree.RemoveTrack | musefs-core/src/tree.rs:686-706 | Removes the track and every directory this empties, and no more; reports the surviving directory and the name it lost |
| VirtualTrees.VirtualTree.PruneEmptyDirsUpward | musefs-core/src/tree.rs:983-1009 | Climbs past exactly the directories without tracks |
| VirtualTrees.VirtualTree.InsertFile | musefs-core/src/tree.rs:327-371 | Adds the missing directories and the file, each at the first free rank of its truncated name; a path without components is ignored; nothing else moves |
| VirtualTrees.VirtualTree.EnsureDir | musefs-core/src/tree.rs:373-407 | Merges with the directory of the same rendered name if one exists, else adds one |
| VirtualTrees.VirtualTree.Disambiguate | musefs-core/src/tree.rs:426-437 | The name at the least rank free among siblings and reserved root names |
| VirtualTrees.VirtualTree.NameTakenMeaning | musefs-core/src/tree.rs:481-494 | A name is taken exactly when a child holds it or it is reserved in the root |
| VirtualTrees.VirtualTree.DirChildNamed | musefs-core/src/tree.rs:521-528 | Finds the directory of that rendered name exactly when it exists |
| VirtualTrees.VirtualTree.BuildWith | musefs-core/src/tree.rs:215-249 | Inserting the entries in order gives a consistent tree of the built plan |
| TreeConserve.RebuildCarries | musefs-core/src/tree.rs:714-746 | A rebuild, whatever the names, moves a track only to its new path and drops it only if that path names nothing |
| TreeConserve.BatchTracks | musefs-core/src/tree.rs:890-909 | The batch as an operation on the track map: the removed out, the inserted in at their components |
| TreeRebuild.CanonicalUnique | musefs-core/src/tree.rs:819-934 | Two canonical plans with the same tracks are equal: ranks are forced by introducing ids |
| TreeRebuild.RebuildRestores | musefs-core/src/tree.rs:714-746 | A rebuild keeps tracks and members, moves nothing outside the directory, and leaves every group below it in order, provided the groups above are |
| TreeRebuild.AscendingFill | musefs-core/src/tree.rs:899-909 | A group filled from empty in ascending id order is in order |
| TreeCanon.InsertAscending | musefs-core/src/tree.rs:327-371 | Inserting a track with an id above all others of the group keeps the group in order |
| TreeCanon.FirstFreeInGroup | musefs-core/src/tree.rs:426-437 | Over an unambiguous vocabulary the first free rank is the end of the group: groups of different rendered names never collide |
| TreeDirty.DirtySound | musefs-core/src/tree.rs:855-888 | After the batch a group is in order unless its directory was marked and survived the removals |
| TreeChange.BatchDirtied | musefs-core/src/tree.rs:855-919 | The marked directories that survive keep their inodes, so the dirty inodes cover every disordered group of the patched tree |
| TreeChange.StablePath | musefs-core/src/tree.rs:838-846 | A track whose disambiguated path equals its rendered path over the vocabulary already sits at that path's components |
| TreeChange.RefreshedTracks | musefs-core/src/tree.rs:832-909 | For a true diff the batch leaves exactly the tracks whose new path names something |
| TreeRepair.RebuildStep | musefs-core/src/tree.rs:916-932 | Rebuilding the next dirty directory keeps earlier rebuilds in order and the remaining dirt covered |
| TreeRepair.SkipStep | musefs-core/src/tree.rs:918-927 | Skipping a directory that is gone, or below a rebuilt one, loses nothing |
| TreeState.AttachHolds | musefs-core/src/tree.rs:352-371 | Entering a child in all maps gives the maps of the larger plan |
| TreeState.DetachHolds | musefs-core/src/tree.rs:686-706 | Removing a childless node from all maps gives the maps of the smaller plan |
| TreeState.HeldUnique | musefs-core/src/tree.rs:254-256 | The plan and the allocator's paths determine every map, so equal plans make structurally equal trees |
| TreeFacts.ChildrenAreNodes | musefs-core/src/tree.rs:327-407 | A child entry exists exactly for the node with that parent and name |
| TreeFacts.RenderedAreNodes | musefs-core/src/tree.rs:609-640 | The index by rendered name lists exactly the children so rendered |
| TreeFacts.DirectoriesHaveMaps | musefs-core/src/tree.rs:373-407 | Exactly the directory nodes have child maps, the root among them |
| TreeFacts.TracksAreFiles | musefs-core/src/tree.rs:327-371 | The track map and the file nodes are inverse |
| TreeFacts.EveryNodeClimbs | musefs-core/src/tree.rs:665-680 | Every node reaches the root through directories in as many steps as its path is long |
| TreeFacts.NothingEmptyNothingReserved | musefs-core/src/tree.rs:983-1009 | No directory below the root is empty and the root never holds a reserved name |
| TreeFacts.TakenExactly | musefs-core/src/tree.rs:481-494 | A name is taken exactly by a child that has it, and in the root by `.musefs-metrics` and `.metadata_never_index` |
| TreeGate.GateExactly | musefs-core/src/tree.rs:537-565 | In a canonical tree the gate is shut exactly for a member alone under its rendered name, at rank 1, whose name is not shaped like a rank |
| TreeGate.RemovalMarkedExactly | musefs-core/src/tree.rs:757-779 | In a canonical tree a removal marks a directory exactly when a contested member of it loses its least track: one that shares its rendered name, has a rank, or is shaped like one |
| TreeGate.FlipMarkedExactly | musefs-core/src/tree.rs:785-808 | An addition marks exactly the directories, at and above the branch point, of contested directories whose tracks all come after it |
| TreeNames.NodeNameFits | musefs-core/src/tree.rs:426-437 | A node's name is within 255 bytes if and only if it is at rank 1 or its rank and its extension together are |
| TreeNames.BuiltFits | musefs-core/src/tree.rs:215-249 | Every component of every built track is within 255 bytes |
| TreeNames.PatchFits | musefs-core/src/tree.rs:819-934 | So is every component after a patch |
| TreeNames.OverlongCandidate | musefs-core/src/tree.rs:1067-1077 | A name that is nearly all extension, whose second rank is longer than 255 bytes |
| TreeLimits.CollisionDiverges | musefs-core/src/tree.rs:862-909 | For every short name and rank whose candidate is also allowed: a canonical tree that a build gives and a true diff of it, such that nothing is marked and inserting the batch names a track otherwise than a build from scratch |
| TreeLimits.PatchDiverges | musefs-core/src/facade/refresh.rs:345-384 | The same on the trees themselves: built, patched, and then found by the oracle not to be the tree a build gives |
| TreeLimits.BeforeCanonical | musefs-core/src/tree.rs:215-249 | The tree before the batch is canonical |
| TreeLimits.NothingMarked | musefs-core/src/tree.rs:855-898 | On that tree neither the walks nor the gates mark any directory for the batch, so nothing repairs it |
| TreeFolded.FoldedConsistent | musefs-core/src/tree.rs:221-249 | After any case-insensitive build with distinct ids the folded index has each child under its folded name and nothing else, no two siblings compare equal, every member hangs in a directory that is there, none is empty, the root is spared its reserved names, and exactly the tracks whose path names something have a file, in the directory of their folded components |
| TreeFolded.InsertedConsistent | musefs-core/src/tree.rs:327-407 | One more track keeps all that and moves nothing already there |
| TreeFolded.LookupFinds | musefs-core/src/tree.rs:286-296 | Looked up in any casing a name gives the child that compares equal, exactly when there is one |
| TreeFolded.KeysApart | musefs-core/src/tree.rs:102-125 | Different members of a folded tree have different inode keys; across trees two keys are equal exactly when the shown paths compare equal, so another casing of a directory keeps the inodes below it |
| Inodes.InodeAllocator.Intern | musefs-core/src/tree.rs:116-125 | A known path keeps its inode; a new one gets a number never issued before, to this or any other path |
| Inodes.InodeAllocator.PruneRetired | musefs-core/src/tree.rs:140-145 | Live paths keep their inodes, nothing is reissued, the map ends within twice the live nodes, and below that threshold nothing is dropped |
| Names.SlotNameInjective | musefs-core/src/tree.rs:1067-1077 | Over an unambiguous vocabulary, rendered name and rank can be read off the disambiguated name |
| Names.UnambiguousIsInjective | musefs-core/src/tree.rs:1067-1077 | For short names, a vocabulary is unambiguous if and only if they can |
| Names.PlainUnambiguous | musefs-core/src/tree.rs:1067-1091 | The short names that are not shaped like a rank are an unambiguous vocabulary |
| Names.CandidateRankInjective | musefs-core/src/tree.rs:1067-1077 | Different ranks of a name always differ, truncated or not, so a free rank exists |
| Names.CandidateIsSuffixShaped | musefs-core/src/tree.rs:1067-1091 | A ranked candidate of a short name is recognised as shaped like a rank |
| Names.SplitJoin | musefs-core/src/tree.rs:1013-1019 | Splitting a joined path gives back its components |
| Names.TruncateBytes | musefs-core/src/tree.rs:1035-1046 | The longest prefix within the byte limit that ends between characters |
| NameFacts.TruncatedFits | musefs-core/src/tree.rs:1050-1062 | A truncated component is within 255 bytes; a leaf with an extension that leaves room keeps it behind the longest prefix of its stem that fits, anything else is the longest prefix of the name that fits |
| NameFacts.BytesEncode | musefs-core/src/tree.rs:1037-1046 | The bytes counted are those of the UTF-8 encoding |
| NameFacts.CandidateFits | musefs-core/src/tree.rs:1067-1077 | A ranked candidate is within 255 bytes if and only if its rank and its extension together are |
| NameFacts.CandidateReads | musefs-core/src/tree.rs:1067-1077 | It is a prefix of the stem that cannot be longer, a space, the rank in decimal in parentheses, and the extension |
| NameFacts.FitsExactly | musefs-core/src/tree.rs:1067-1077 | A name is short exactly when no 32-bit rank has to cut it |
| NameFacts.ShapedExactly | musefs-core/src/tree.rs:1080-1091 | A name is shaped like a rank exactly when its stem ends in a space and a number in parentheses that is at least 2 and fits in 32 bits |
| NameFacts.DecimalDigits | musefs-core/src/tree.rs:1067-1077 | A rank is written in decimal, without leading zeros |
| NameFacts.DigitsValuePlaces | musefs-core/src/tree.rs:1080-1091 | A number is read place by place |
| NameFacts.SplitSuffixExactly | musefs-core/src/tree.rs:1023-1028 | The extension is what follows the last dot, unless that dot is the first character |
| NameFacts.TreeKeysFit | musefs-core/src/tree.rs:327-371 | The keys of a path are its components in order, each within 255 bytes, a leaf truncated before its extension |
| NameFacts.SplitUnique | musefs-core/src/tree.rs:327-371 | Splitting finds the only pieces without separators that join to the path |
| Windows.ReachWithout | musefs-core/src/readahead.rs:312-340 | Dropping a window that does not alone reach furthest keeps the furthest end among windows that contain the frontier |
| Windows.TrimmedOnce | musefs-core/src/readahead.rs:298-302 | There is only one way to trim, and it keeps as many windows as may stay |
| Windows.PlaceExactly | musefs-core/src/readahead.rs:277-303 | Placing a window keeps order and every other window but one with the same start |
| Windows.CoversExactly | musefs-core/src/readahead.rs:270-275 | A window covers a range exactly when every byte of it lies inside |
| ReadAheads.ReadAhead.EvictVictim | musefs-core/src/readahead.rs:312-340 | The first window behind the reader, else the furthest ahead, else the first of least reach |
| ReadAheads.ReadAhead.InsertWindow | musefs-core/src/readahead.rs:277-303 | Sorted insertion or replacement, then exactly the victims go until the ring fits; the byte count follows and the reach at the frontier never shrinks |
| ReadAheads.ReadAhead.StoreWindow | musefs-core/src/readahead.rs:342-346 | A prefetched window goes through the same insertion; the sizes before and after are reported |
| ReadAheads.ReadAhead.ReadInto | musefs-core/src/readahead.rs:348-401 | Succeeds exactly when the bytes are cached or a fill can supply them, returns the file's own bytes, fills exactly on a miss inside the file, and leaves the ring with the new window placed and trimmed; an error leaves the ring as it was |
| ReadAheads.ReadAhead.MissExactly | musefs-core/src/readahead.rs:368-385 | A miss where the last read ended doubles the window up to the cap, any other starts over at 512 KiB or the cap; it reads that or what was asked for, whichever is more, within the file |
| ReadAheads.ReadAhead.Clear | musefs-core/src/readahead.rs:248-254 | Empties the ring and reports the bytes freed |
| ReadAheads.ReadSequentially | musefs-core/src/readahead.rs:348-401 | Reading N contiguous bytes in reads of at most r through a one-window ring costs at most log + 1 + N / (cap - r + 1) fills and returns the file's bytes |
| ReadAheads.DoublingsIsCeilLog | musefs-core/src/readahead.rs:362-372 | That log is the least number of doublings that take the floor to the cap |
| Backing.BackingReader.ReadExactAt | musefs-core/src/readahead.rs:690-731 | A success gives the file's bytes; a read within the file succeeds on a sound device; the ledger is charged the ring's exact change, even after poisoning; fills, epoch, cap and plan change exactly as the hit or miss says |
| Backing.PrefetchDepth | musefs-core/src/readahead.rs:457-459 | How many windows of that size the share holds, rounded down, but at least 1 and at most 4 |
| Backing.CapExactly | musefs-core/src/readahead.rs:54-59 | A stream's share is a quarter of the budget, at least 512 KiB and at most 8 MiB; none without a budget |
| Prefetch.PlanPrefetch | musefs-core/src/readahead.rs:472-503 | The planned windows follow one another from the resumption point up to the horizon; the new watermark is where they end, within the file |
| Prefetch.PlanExactly | musefs-core/src/readahead.rs:472-503 | The plan's windows stand one after another from the watermark, or from the reader when the watermark is behind it or a window past `depth` windows ahead, and are exactly as many as cover those windows within the file |
| Prefetch.StartsApart | musefs-core/src/readahead.rs:492-503 | Planned windows do not overlap, start before the horizon, and end by the watermark |
| Prefetch.StepSound | musefs-core/src/facade.rs:550-560 | A load, a successful swap or a retry keeps the claims disjoint, before the end of file and below the watermark |
| Prefetch.RunSound | musefs-core/src/facade.rs:540-583 | So in every run of concurrent readers whose published positions do not decrease |
| Ledger.StepCurrent | musefs-core/src/readahead.rs:348-401 | Under exclusive locks no step makes stale a length some thread took off a buffer before changing it |
| Ledger.StepBalanced | musefs-core/src/readahead.rs:76-201 | So every atomic step, each charging by the lengths its thread took, keeps charged plus what is still to be charged congruent to the bytes of all buffers modulo 2^64 |
| Ledger.StepInv | musefs-core/src/readahead.rs:76-201 | Every step keeps balance, current lengths and mutual exclusion of every lock |
| Ledger.RunInv | musefs-core/src/readahead.rs:412-449 | So in every interleaving of reads, stores, evictions, releases, recoveries and panics |
| Ledger.ExactWhenQuiet | musefs-core/src/readahead.rs:137-145 | With every change charged and none lost, charged is exactly the bytes of all buffers |
| Ledger.ExactOverRegistered | musefs-core/src/readahead.rs:137-145 | Then charged is the bytes of the registered buffers if and only if no unregistered buffer holds any |
| Ledger.StoredAfterRelease | musefs-core/src/readahead.rs:433-449 | A run from a registered buffer: the release moves the epoch on, a job is dispatched after that, the buffer leaves the registry, and the job passes the epoch test and stores; the run ends quiet, with bytes charged and no registered buffer |
| Ledger.NoCycle | musefs-core/src/readahead.rs:67-90 | Threads never wait for each other in a ring; this is a fact about the program points alone, by which locks each of them holds and awaits |
| LedgerOwners.StepKept | musefs-core/src/facade.rs:848-863 | Under the rules of the handles every step keeps each buffer that holds bytes registered, about to be, or about to be emptied, and each read and each current job on an open handle |
| LedgerOwners.ExactInLawfulRuns | musefs-core/src/readahead.rs:137-145 | In every run under those rules charged is the bytes of the registered buffers whenever nothing waits to be charged, registered or emptied |
| LedgerOwners.LateJobBreaksTheRule | musefs-core/src/facade.rs:851-863 | The late job is dispatched lawfully and no read is going at the release: the rule it breaks is that waiting jobs be stale |
| LedgerEpochs.StoredWhileCurrent | musefs-core/src/readahead.rs:433-449 | In every run a job that was dispatched for a buffer and holds it now may store if and only if neither a seek nor a release of the handle came in between |
| LedgerEpochs.EpochCounts | musefs-core/src/readahead.rs:690-731 | A buffer's epoch counts its seeks and releases |
| Ledger.SomeoneMoves | musefs-core/src/readahead.rs:114-201 | Whatever a thread that has begun something waits for, it or a holder on its chain of waits can go on with what it has begun |
| OggServe.PageCrcOk | musefs-core/src/ogg_index.rs:153-175 | True exactly for a whole page of the file whose CRC holds; a page that cannot be read is a no, a head that cannot be read an error |
| OggServe.ScanBackward | musefs-core/src/ogg_index.rs:110-148 | Finds a valid page of the window within 64 CRC checks, and when every read succeeds the rightmost, failing only because there is none |
| OggServe.NearStart | musefs-core/src/ogg_index.rs:110-148 | On a region of valid pages, whatever page the scan settles on starts a page no later than the target |
| OggServe.FindPageStart | musefs-core/src/ogg_index.rs:79-148 | The head of the region, the memo's page or the scan's, in that order, with each one's errors |
| OggServe.LocatedExactly | musefs-core/src/ogg_index.rs:110-148 | On a region of valid pages without false ones, the scan finds the last page that starts four bytes or more before the target, exactly when it is within one maximum page and 64 look-alikes |
| OggServe.AffordableExactly | musefs-core/src/ogg_index.rs:119-148 | Affordable means that fewer than 64 capture patterns with version 0 and a header type below 8, as far as these lie before the target, stand behind the page's start |
| OggServe.MemoCoversExactly | musefs-core/src/ogg_index.rs:94-110 | A memo of a true page answers for a target exactly when that page is the last to start at or before it |
| OggServe.ReachableEverywhere | musefs-core/src/ogg_index.rs:110-118 | Every offset is reachable if and only if every page with a successor is at most 65,304 bytes |
| OggServe.EveryWindowFindable | musefs-core/src/ogg_index.rs:79-148 | With such pages and few look-alikes, every window can be served, with or without a memo |
| OggServe.WalkPages | musefs-core/src/ogg_index.rs:219-310 | From a page start at or before the window, walking page by page appends the slice of the patched stream and ends with the entry of a true page |
| OggServe.ServeOggWindow | musefs-core/src/ogg_index.rs:189-318 | On a region of valid pages, whatever the ring and the memo hold and whichever reads fail: success appends exactly that slice of the patched stream, failure on a sound device means no start can be found, and the memo is left naming a true page |
| OggPages.StreamPage | musefs-core/src/ogg_index.rs:176-188 | Each page stands in the patched stream at its own offset, patched header then payload |
| OggPages.LastStart | musefs-core/src/ogg_index.rs:79-148 | The page of a tiling that covers an offset is the last to start at or before it |
| OggPages.PatchedPageStands | fuzz/fuzz_targets/ogg_page.rs:38-81 | Under the contract of the patch, a patched page is a valid page of the same length and payload with the new sequence number |
| OggPages.StreamTiled | fuzz/fuzz_targets/ogg_page.rs:38-81 | So the served stream is itself tiled by valid pages |
| OggPages.StreamResequenced | musefs-core/src/ogg_index.rs:255-262 | Every served page has its old length and carries a number that exceeds its old one by the delta, modulo 2^32 |
| OggPages.StreamBytes | musefs-core/src/ogg_index.rs:255-276 | Every other byte of a served page, but the four of the checksum, is the byte of the file |
| OggLayout.WrittenReads | musefs-core/src/ogg_index.rs:234-245 | A page written field by field is read back: it has a header, its length, its number and its payload, and looks like a page |
| OggLayout.LaidTiled | musefs-core/src/ogg_index.rs:219-245 | Pages written one behind another, each with a right checksum, are a tiling, wherever they stand |
| OggLayout.LargestPage | musefs-core/src/ogg_index.rs:27 | The maximum page is a full segment table of full segments, 65,307 bytes |
| OggLayout.Le32Digits | musefs-core/src/ogg_index.rs:255-257 | Four bytes stand for a number exactly when they are its digits in base 256, least significant first |
| Reader.ReadSegmentsInto | musefs-core/src/reader.rs:516-617 | A read of present segments that succeeds appends the clamped slice of their concatenation, whatever the ring and memo hold; on a sound device it succeeds when the Ogg scan can find a page from every offset |
| Reader.ReadSegment | musefs-core/src/reader.rs:543-609 | One segment's window, when the read succeeds, is the slice of its content; for Ogg, of any region of valid pages |
| Reader.ContentBytes | musefs-core/src/reader.rs:543-609 | When a segment has content, and which byte of its source each byte of it is |
| Reader.ReadEncoded | fuzz/fuzz_targets/b64.rs:39-58 | Encoding only the covering input window gives the slice of the full base64 encoding |
| Reader.SegmentStands | musefs-core/src/reader.rs:516-542 | Each segment's content stands in the file at the sum of the lengths before it |
| Reader.SynthesizedLength | musefs-core/src/reader.rs:516-542 | The file is as long as its segments together |
| Reader.AdjacentReads | musefs-core/src/reader.rs:516-617 | Two reads of adjacent ranges, then one of both, through the same ring and memo as each leaves them: the pieces join to the whole |
| Walk.Walker.CollectFrom | musefs-core/src/scan.rs:456-482 | Over any finite graph, cycles included, the walk ends; it expands each reachable directory exactly once, collects each file identity below it under a supported name exactly once and every unstattable one, and nothing else; the components of every collected path are those of the root and then the names that lead to the entry |
| Walk.SpellComponents | musefs-core/src/scan.rs:519 | A path spelled from a root and names has the components of the root, but for an empty last one, and then the names |
| Walk.SupportedExactly | musefs-core/src/scan.rs:428-444 | A name is supported exactly when it is a stem, a dot and one of eight extensions in any casing |
| Walk.GivesExactly | musefs-core/src/scan.rs:519-602 | What an entry gives: the identity of a regular file or of a link's target, or the bare entry when it cannot be statted |
| Walk.LeadsExactly | musefs-core/src/scan.rs:519-602 | An entry leads to a directory when it is one that can be statted or a link to one |
| Walk.Walker.CollectAudio | musefs-core/src/scan.rs:484-602 | After a listing, everything it leads to is visited and everything it gives is found |
| Walk.Walker.Descend | musefs-core/src/scan.rs:604-652 | A directory identity is entered once; unvisited identities bound the recursion |
| Walk.Walker.PushFile | musefs-core/src/scan.rs:666-700 | A file is pushed unless its identity was pushed before |
| ByteBudget.StepInv | musefs-core/src/byte_budget.rs:34-59 | Every step, releases of whole batches and stray wakeups among them, keeps in-flight equal to the reservations, within the cap while open unless one nonzero reservation stands alone, and a parked thread's guard true |
| ByteBudget.TurnExactly | musefs-core/src/byte_budget.rs:34-47 | A turn reserves the whole weight when the budget is closed or idle or has room for it, and parks otherwise |
| ByteBudget.RunInv | musefs-core/src/byte_budget.rs:34-59 | So in every run |
| ByteBudget.ClosedParksNobody | musefs-core/src/byte_budget.rs:56-59 | Once closed nobody is parked and nobody parks |
| Pipeline.StepInv | musefs-core/src/scan.rs:2056-2397 | Every step of workers and writer keeps the accounting of files, bytes, events and shutdown order; until the writer aborts, the bytes in flight are within the cap or one nonzero reservation makes them up; the channel holds no more units than it has room for, and a batch that is not being flushed is below 256 files and below the cap |
| Pipeline.AcquireExactly | musefs-core/src/scan.rs:2132 | A worker about to acquire is enabled exactly when the budget is closed or idle or has room for its whole weight |
| Pipeline.AdmitsAsBudget | musefs-core/src/byte_budget.rs:34-47 | That is exactly when the byte semaphore does not make it wait |
| Pipeline.TakeFlushes | musefs-core/src/scan.rs:2308-2318 | A received unit joins the end of the batch, and the batch is flushed exactly when it has 256 files or weighs the cap |
| Pipeline.NoDeadlock | musefs-core/src/scan.rs:2294-2368 | Until the writer is done some worker or writer step is enabled |
| Pipeline.StepDescends | musefs-core/src/scan.rs:2093-2189 | Every step lowers the potential |
| Pipeline.RunsEnd | musefs-core/src/scan.rs:2056-2397 | Every run has at most 20 steps a file, one a worker, and 10 |
| Pipeline.RunInv | musefs-core/src/scan.rs:2056-2397 | The invariant holds throughout every run |
| Pipeline.SuccessCounts | musefs-core/src/scan.rs:2371-2396 | After a successful run every file is committed, failed or raced exactly once, the progress events are 1, 2, ..., total in order, and no byte is held |
| TemplateParse.ParseParts | musefs-core/src/template.rs:137-213 | The cursor loop computes the recursive specification, errors and position included |
| TemplateGrammar.ParseTemplate | musefs-core/src/template.rs:79-83 | A template parses exactly when it writes some parts, and then to those; an error is the one of the place where the cursor stops: a 65th bracket, a control character, a field that is never closed, the end of the text in a section |
| TemplateGrammar.ParsesExactly | musefs-core/src/template.rs:137-251 | The parser is exact for a grammar: a `$` stands for itself only where nothing else can be meant, a bare field takes in every field character, names are the pieces between bars in small letters, and a template writes at most one list of parts |
| TemplateGrammar.WrittenParses | musefs-core/src/template.rs:137-213 | Whatever the grammar writes is parsed back, inside sections and after pending text too |
| TemplateGrammar.ParseTraced | musefs-core/src/template.rs:137-251 | An error comes from a place that the cursor reaches by whole units, fields and brackets, where it can go no further for that reason |
| TemplateParse.ParseShape | musefs-core/src/template.rs:137-213 | Sections nest at most 64 deep, literals hold no control characters and every field has a name |
| Templates.RenderParts | musefs-core/src/template.rs:272-314 | The loop computes the rendering the lemmas speak of |
| Templates.NonInterference | musefs-core/src/template.rs:85-98 | Tag maps that agree on the referenced fields render identically |
| Templates.CheckedExactly | musefs-core/src/template.rs:111-130 | A checked render gives a path exactly when every top-level field resolves, and then the path of every default |
| Templates.SectionAppears | musefs-core/src/template.rs:295-309 | A section appears exactly when some field nested in it resolves |
| Templates.PathDepthBounded | musefs-core/src/template.rs:363-395 | The path has at most the slashes of the literals and 63 for each path field |
| Templates.SanitizePath | musefs-core/src/template.rs:378-395 | The first 64 components that name something, sanitized and joined |
| TemplateFacts.SanitizedExactly | musefs-core/src/template.rs:363-376 | The value, with an underscore for each slash and each control character |
| TemplateFacts.PathOfExactly | musefs-core/src/template.rs:378-395 | The components of a path value are its first 64 that name something, each sanitized |
| TemplateFacts.PlainExactly | musefs-core/src/template.rs:318-338 | A plain field takes its value from the fields, or from the fallbacks when the field has no text |
| TemplateFacts.PathExactly | musefs-core/src/template.rs:340-361 | A path field takes the fallback only when the field is absent, and has a value exactly when something of it remains |
| TemplateFacts.ResolvedExactly | musefs-core/src/template.rs:318-361 | The first candidate that has a value decides |
| TemplateFacts.PartShows | musefs-core/src/template.rs:272-314 | A literal shows as it is, a resolved field its sanitized value or its path, an unresolved one the sanitized default outside sections and nothing inside, a section what its parts show |
| TemplateFacts.RenderedConcat | musefs-core/src/template.rs:272-314 | Rendering two lists of parts one after another is rendering them together, and so for the fields they reference |
| TemplateFacts.ReferencedExactly | musefs-core/src/template.rs:253-265 | Exactly the names that some field has, however deep in sections |
| TemplateFacts.RenderAppends | musefs-core/src/template.rs:99-130 | A rendered path is its parts' texts, a dot and the extension |

## Left out

- VirtualTrees.VirtualTree.ApplyChanges: over an ambiguous vocabulary it says what the rebuilds are, not which marked directories are skipped as gone or covered, and nothing of the maps after an error in a rebuild but that they are consistent. Names so long that a rank suffix truncates them are outside every vocabulary.
- TreeLimits.CollisionDiverges: ambiguity only within directories below a name shaped like a rank, or only of a name reserved in the root with its own candidates there, is not shown to break agreement.
- TreeFolded.FoldedConsistent: a case-insensitive build is modelled on values, with folding as any function that keeps the ranks of a name apart, and the components of a path (for the inode keys); removal of single tracks is not, since such mounts are rebuilt in full.
- Sharing of allocations between maps, paths and the refresh snapshot.
- Overflow of the 64-bit inode counter and of the 32-bit rank; a canonical tree has fewer tracks than there are ranks.
- The changelog partition, snapshot and database phases of a refresh; `apply_changes` is taken with distinct added and changed ids, added ones not yet in the tree.
- SQLite, the file system, FUSE, signals, the CLI, metrics and progress drawing. The backing file is an immutable byte sequence shorter than 2^64 - 1, stored blobs are maps, and a device may fail any read.
- `musefs-format`: the page CRC, the algebraic header patch and base64 are functions that keep the promises of the fuzz targets.
- Reader.ReadSegmentsInto: at most one distinct Ogg audio segment in a file, as the layouts have, and a valid audio region is required for its content to be defined.
- Ledger.StepInv: epochs do not wrap; how much window a reader is permitted and which buffers it tries to evict are left open, since the balance holds for any choice; locks and atomics are sequentially consistent.
- The handle generation protocol of the facade, the prefetch worker queue and its draining.
- Prefetch.RunSound: one window size and depth throughout, and positions that do not decrease from claim to claim.
- Pipeline.StepInv: a flush is one atomic step that keeps or rejects each file of the batch, probing is a choice between its outcomes, and 64-bit saturation of the byte budget is not reached.
- ByteBudget.StepInv: outstanding reservations stay below 2^64 - 1.
- The walk without following symlinks, its skip and failure tallies and progress events; the directory graph does not change during a walk.
- Serialization of templates, display of their errors, and the ordinal bookkeeping of duplicates.
