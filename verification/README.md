# EasyVCS: a verified model

EasyVCS is a version-control engine over a content-addressed store. Revisions keep a stable random id
and point at immutable snapshots; a snapshot names a tree, its parents, a description and an author;
trees name blobs, subtrees and conflict objects. This project models the engine in Dafny and proves
what its operations promise. `dafny verify dfyconfig.toml` checks all of it.

The modules follow the program:

- `Objects`, `Paths`, `Prelude`: content-addressed trees, paths, leaf maps; sorting and loop helpers.
- `Merge`, `MergeLaws`, `TreeEdit`, `TreeDiff`, `Resolution`: the tree algebra on values. The recursive
  three-way merge is a pointwise three-way function on leaf maps; path writes, tree diff and conflict
  resolution have exact effects on every path.
- `History`, `Evolution`, `DropHistory`, `HistoryLaws`, `Outcomes`, `Runs`: revisions and snapshots as
  two tables, the operations on them as functions, the invariant every operation and every run keeps,
  what Drop, Squash, Revert, Rebase and Resolve do to whole histories, and the rows each operation leaves.
- `Store`, `SnapshotOwners`, `MergeStore`, `TreeStore`, `Descendants`, `Workspace`: the same operations
  as methods on a repository object whose tables they change row by row, each proved to leave exactly
  the state the functions describe.
- `IgnoreRules`, `IgnoreFilter`, `IgnoreHistory`: ignore layers, filtering one tree, and rewriting a
  whole ancestry.
- `Text`, `LineDiff`, `Hunks`, `Annotate`: line splitting, the LCS edit script, hunks as a patch, blame.
- `Graphs`, `Ancestry`, `Push`, `PushProtocol`, `PushCounter`, `Reading`, `Transfer`, `Fetch`: ancestor
  search, the push check and write, concurrent pushes under the repository lock, what stored objects
  read back as, delta transfer and selective fetch.
- `Varint`, `Codec`, `ObjectCodec`, `HashText`, `SnapshotText`, `Framing`, `Layouts`: byte-level formats
  and the texts that are hashed, with small values written out.

Three modelling choices run through everything. An object id is a free term over the object it is
the digest of: equal ids mean equal hashed values, and no digest is the zero id. This is the
property the engine relies on BLAKE3 for. The texts that are really hashed determine the value when
entry names, conflict labels, authors and revision ids hold no newline (`HashText`, `SnapshotText`);
what is proved about ids, in `MergeStore` or `Runs` say, is about such values. `Store.Repo.Valid` says
that ids are digests of the rows they name, that every snapshot's tree is stored with all its subtrees,
and that the revision and snapshot tables agree. Clock readings and random ids are parameters.

## Findings

Where a promise does not hold for all inputs, the exact condition is proved; for the hashed texts
the condition is sufficient, with a concrete collision when it fails.

- A merge discards a leaf where another side has a directory of that name. Squash yields the child's
  tree, Revert of the tip the parent's, and Rebase in place the same snapshot, exactly when no leaf
  clashes with a directory (`MergeLaws.AbsorbTheirs`, `HistoryLaws`); `MergeLaws.AbsorbLosesFile` is a
  concrete loss.
- Diff lists every differing path exactly when, besides, no conflict stands beside another leaf, or
  none, in a directory that both trees have (`TreeDiff.DiffCompleteIffVisible`). A file that became a
  conflict is listed as removed (`TreeDiff.ConflictShownAsRemoved`), also among the changed paths of a
  revision.
- `HasAnyMatchUnder` on the root answers from the root layer alone. A false answer is right for every
  choice of rules exactly when there is no layer at all or one layer sits at the root
  (`IgnoreRules.RootAnswer`, `IgnoreRules.RootAnswerIsNotConservative`); for every other directory a
  false answer is always right.
- `UnifiedDiff` is documented to return nothing when the contents are identical. It also returns
  nothing when they differ only in the newline that ends the file, and in no other case. Where lines are
  replaced, the new ones are listed before the old ones (`LineDiff.AddsFirst`).
- The `NewStart` of a hunk is wrong for exactly two shapes of a window that starts the file
  (`Hunks.NewStartRight`, `Hunks.NewStartWrong`). Patching needs only `OldStart`.
- A push may re-point a revision id the repository already knows, while the check resolves the id by
  the repository's row. Accepted pushes never lose a branch's tip exactly when known revisions are
  re-pointed forward only, to snapshots from which the old ones are reachable (`Push.RepointExact`,
  `PushCounter.RepointedBranchLosesHistory`). The guarantee over all runs is stated for such bundles.
- An empty blob, or one that starts with a magic header, does not survive `DecodeObject`; a tree
  survives exactly when map keys are entry names, a conflict exactly when labels hold no newline
  (`ObjectCodec.ObjectRoundTrip`). Hashed texts need newline-free entry names and a newline-free
  rendered author (`HashText.NameNewlineCollides`, `SnapshotText.AuthorNewlineCollides`).
- Objects are read through `DecodeObject` before they are sent. Collecting, and so a push, a fetch or a
  clone, fails exactly when a needed object is missing or does not decode, as an empty file does not
  (`Transfer.Collect`, `Transfer.EmptyFileStops`). When it succeeds, the destination is complete exactly
  when every needed object reads back as itself: a file that starts with a magic header arrives as
  something else (`Transfer.TransferComplete`, `Transfer.MagicFileLost`).
- A path that begins with a slash puts its file below an empty name at the root. Walks show it without
  the slash, like another file; every other path is shown as it was given (`Paths.SplitRender`,
  `Paths.RootSlashCollides`).
- A binary bundle survives its frame exactly when its metadata header and its payloads together are
  both shorter than 4 GiB (`Framing.FrameRoundTrip`).
- A selective fetch is not filtered at all exactly when the peer already has every revision it asks
  for: the change set is then empty (`Fetch.HandleFetch`, `Fetch.UnfilteredFetch`).

## Model

| member | source | states |
|---|---|---|
| `Merge.MergePointwise` | merge/merge.go:44-208 | for all well-typed trees the merged tree has at every path the textbook three-way merge of the three leaves there, except that a leaf is dropped where any side has a directory |
| `Merge.MergeCanonical` | merge/merge.go:44-75 | whatever the inputs, the merged tree has no empty directory |
| `Merge.MergeWellTyped` | merge/merge.go:44-208 | entries of the merged tree are digests of objects of the entry kind, at every depth |
| `Objects.CanonicalExtensional` | merge/merge.go:44-75 | two canonical well-typed trees with the same leaf map are the same tree, so a merge is determined by its leaves |
| `Objects.PrefixFreeIffNoClash` | merge/merge.go:93-119 | for canonical trees, prefix-free leaf paths and the absence of leaf/directory clashes are the same condition |
| `MergeLaws.AbsorbTheirs` | merge/merge.go:44-208 | merging with ours unchanged gives theirs if and only if no leaf of theirs sits where the base has a directory |
| `MergeLaws.AbsorbOurs` | merge/merge.go:44-208 | the mirror image for theirs unchanged |
| `MergeLaws.AbsorbLosesFile` | merge/merge.go:93-119 | a concrete merge with one side unchanged that loses the other side's new file |
| `MergeLaws.DisjointMerge` | merge/merge.go:44-208 | changes on disjoint path sets merge to both changes and no conflict |
| `MergeLaws.MergeSymmetric` | merge/merge.go:44-208 | swapping ours and theirs changes only conflict labels and the order of terms |
| `MergeLaws.MergeAtomsAreConflicts` | merge/merge.go:178-207 | on conflict-free inputs the reported conflicts equal, as a sequence, the conflicts a walk of the merged tree finds |
| `Resolution.MergeOutcome` | merge/merge.go:87-208 | for all well-typed trees, conflicts included, a merged path holds nothing where a tree has a directory, the side that changed where one did or both agree, and otherwise the conflict of the three leaves, term by term |
| `Resolution.MergedConflict` | merge/merge.go:178-207 | in a merge of conflict-free trees a conflict stands exactly where both sides changed the base and differ; it removes the leaf of the base, if any, and adds both sides, the present ones first and an absent one with the zero id |
| `MergeStore.Trees` | merge/merge.go:44-75 | the recursive store-writing merge returns exactly the value-level merge, tree and conflicts, only adds objects, and stores every subtree and conflict of its result |
| `MergeStore.MergeEntry` | merge/merge.go:87-208 | one name: the entry and conflicts of the value-level step, with everything it refers to stored |
| `TreeStore.MergeStored` | revision/revision_ops.go:343-356 | Merge on ids: the id of the merged tree, which is held by the store |
| `TreeEdit.FindIsLeaf` | revision/revision_ops.go:838-868 | findEntry returns exactly the leaf at the path, or a directory there |
| `TreeEdit.RewriteLeaf` | revision/revision_ops.go:871-932 | after a path write, the path holds the blob or nothing, every path above or below it is gone, and every other path is unchanged |
| `TreeEdit.RewriteCanonical` | revision/revision_ops.go:871-932 | path writes prune empty directories |
| `TreeEdit.RewriteWellTyped` | revision/revision_ops.go:871-932 | path writes keep trees well typed |
| `TreeEdit.ApplyEditsLeaf` | revision/commit_from_changes.go:67-92 | the effect of a whole batch of pairwise incomparable edits on every path |
| `TreeEdit.ApplyEditsOrderIndependent` | revision/commit_from_changes.go:67-92 | batches with the same pairwise incomparable edits in any order give the same tree |
| `TreeStore.FindEntry` | revision/revision_ops.go:838-868 | the loop over path components finds the entry the value-level lookup finds, and fails exactly when there is none |
| `TreeStore.RewriteStored` | revision/revision_ops.go:871-932 | the in-place path rewrite returns the value-level rewrite and stores every subtree of it |
| `TreeStore.ResolvePath` | revision/revision_ops.go:871-932 | resolvePath returns the id of the rewritten tree, held by the store |
| `Paths.SplitRender` | revision/revision_ops.go:16-21 | splitting a joined path gives back its components if and only if no component holds a slash and nothing lies below an empty name at the root |
| `Paths.RootSlashCollides` | revision/revision_ops.go:16-21 | the path "/b" names a file below an empty name at the root, which is shown like the file "b" |
| `Paths.SplitPath` | revision/revision_ops.go:871-890 | the splitting loop computes the components |
| `TreeDiff.DiffExact` | revision/revision_ops.go:655-697 | for all well-typed trees the diff walk lists, each path once, exactly the differences it can see, with the right status and ids; it does not see a leaf where the other tree has a directory, nor a conflict in a directory that both trees have |
| `TreeDiff.DiffCompleteIffVisible` | revision/revision_ops.go:655-697 | the list contains every differing leaf path if and only if no leaf of either tree sits where the other has a directory and no conflict stands beside another leaf, or none, in a directory that both have |
| `TreeDiff.ConflictShownAsRemoved` | revision/revision_ops.go:680-692 | a file that became a conflict is listed as removed, and two different conflicts are not listed at all |
| `TreeDiff.DiffSortedExact` | revision/revision_ops.go:603-612 | in conflict-free trees without clashes Diff is sorted, free of repetitions, and lists exactly the differing leaves |
| `TreeDiff.DiffAnySort` | revision/revision_ops.go:603-612 | in trees with valid paths every ascending arrangement of the walk is Diff, so the unstable sort has no choice |
| `TreeDiff.DiffInvertible` | revision/revision_ops.go:603-714 | applying the changes of a diff in any order turns the first tree into the second |
| `TreeDiff.DiffMirrored` | revision/revision_ops.go:603-714 | swapping the trees turns every change round: additions become removals, and old and new ids swap |
| `TreeStore.DiffTree` | revision/revision_ops.go:655-697 | the appending walk adds exactly the value-level list, prefixed |
| `TreeStore.FlattenTree` | revision/revision_ops.go:699-714 | the appending walk adds exactly the leaves of the tree, prefixed |
| `TreeStore.DiffStored` | revision/revision_ops.go:603-612 | Diff on ids equals the sorted value-level diff |
| `TreeStore.ConflictsInTree` | revision/revision_ops.go:502-528 | the walk returns the conflicts of the tree in order |
| `HistoryLaws.ChangedPathsAreDifferences` | revision/change.go:194-218 | with a stored first parent, in conflict-free trees without clashes, a path is among a commit's changed paths if and only if its leaf differs from the first parent's |
| `HistoryLaws.ChangedPathsAreVisible` | revision/change.go:194-218 | the same for all trees, conflicts and clashes included: a path is listed if and only if the diff walk sees different leaves there |
| `HistoryLaws.RootChangedPaths` | revision/change.go:194-218 | for a root, or a first parent that is not stored, a path is among the changed paths if and only if it holds a leaf |
| `Resolution.RewriteRemovesConflict` | revision/revision_ops.go:361-438 | overwriting or removing one conflicted path removes exactly that path from the list of conflicts |
| `Resolution.ResolveRemovesOne` | revision/revision_ops.go:361-438 | a successful resolve removes exactly one conflict and changes no other leaf |
| `Resolution.ResolveAllCounts` | revision/revision_ops.go:361-438 | a run of successful resolves of any tree leaves it conflict-free exactly when the run is as long as the list of conflicts |
| `Resolution.ResolveAllLeaves` | revision/revision_ops.go:361-438 | each choice of a successful run resolves a conflict of the first tree, no two the same one, and leaves there the term it picks from it; every other leaf is untouched |
| `Resolution.ResolvableIff` | revision/revision_ops.go:361-438 | some run of resolves reaches a conflict-free tree if and only if every conflict of the tree has a side |
| `Resolution.MergeResolvable` | revision/revision_ops.go:361-438 | after a merge of conflict-free trees a run of exactly as many resolves as the merge reported conflicts succeeds and leaves none |
| `Resolution.ResolvedLeaf` | revision/revision_ops.go:361-438 | after any successful run on such a merge each conflicted path the run chose holds the leaf of ours or of theirs, or nothing where that side has none, and every other path holds the leaf of the merge |
| `Resolution.NoConflictsIffFree` | revision/revision_ops.go:502-528 | the list of conflicts is empty if and only if the tree is conflict-free |
| `Resolution.ResolveRestoresSide` | revision/revision_ops.go:361-438 | resolving a merge conflict leaves that side's leaf, or its absence, under the side's label |
| `Resolution.ResolveByNumber` | revision/revision_ops.go:361-410 | resolving by number succeeds exactly at a conflict with a side of that number, writes that side or removes the path for an absent one, and keeps every other leaf |
| `Resolution.ResolveSide` | merge/merge.go:178-207 | a conflict of a merge has exactly the sides 0 and 1: 0 restores ours and 1 theirs, and where ours is absent 0 restores theirs and 1 removes the path |
| `Resolution.ConflictsExact` | revision/revision_ops.go:502-528 | the list holds every conflict of a tree with its object id, exactly once, in the order of a walk over sorted names |
| `Outcomes.ResolveChooses` | revision/revision_ops.go:361-410 | Resolve succeeds exactly for the number of a side of the conflict at the path; then the revision has that side there and every other leaf as before |
| `Outcomes.ResolveFollows` | revision/revision_ops.go:412-436 | each revision reachable forward with the very same conflict takes the same side there; every other revision keeps all its leaves |
| `Outcomes.RebasedConflict` | revision/revision_ops.go:121-128 | in a rebased revision side 0 of a conflict is the revision's own leaf and side 1 the new parent's; where it has none, side 0 is the new parent's and side 1 removes the path |
| `HistoryLaws.ResolveSettles` | revision/revision_ops.go:361-438 | Resolve rewrites the tree of the revision, which loses exactly one conflict |
| `HistoryLaws.ResolvePropagates` | revision/revision_ops.go:361-438 | every other revision keeps its tree, unless it is reachable forward and holds the same conflict object at the path: then it is settled by the same term |
| `Descendants.DescendantsFromSnapshot` | revision/revision_ops.go:458-499 | from any seed, owned or not, the breadth-first search over all parent edges finds exactly the revisions reachable forward, each once, in an order that respects reachability |
| `Descendants.SeedNotFound` | revision/revision_ops.go:458-499 | the revision that owns the seed is never reachable forward from it, so leaving it out loses nothing |
| `SnapshotOwners.OwnerMap` | revision/ignore_history.go:33-36 | the loop over the revisions indexes, for every current snapshot and no other, a revision that points at it |
| `Descendants.DescendantsOf` | revision/revision_ops.go:186-237 | the search over first parents finds exactly the descendants, parents before children |
| `DropHistory.LinearDescendants` | revision/revision_ops.go:186-237 | on a linear chain the descendants are the rest of the chain, in order |
| `DropHistory.RebaseChain` | revision/revision_ops.go:95-180 | rebasing a chain whose changes are disjoint from the moved paths gives each revision its old tree with those paths taken from the target |
| `DropHistory.DropLinear` | revision/revision_ops.go:243-265 | Drop on a linear chain succeeds; every descendant keeps its id and its place in the chain and has its old tree with the dropped revision's paths reset to the parent's |
| `DropHistory.MovedConflictFree` | revision/revision_ops.go:243-265 | no conflict appears in a descendant moved by such a Drop |
| `DropHistory.DroppedIsGone` | revision/revision_ops.go:243-265 | the dropped snapshot is no ancestor of any moved descendant |
| `HistoryLaws.SquashTakesChildTree` | revision/revision_ops.go:532-574 | Squash repoints the parent revision at a snapshot with the parent's own parents, whose tree is the child's if and only if no leaf clashes |
| `HistoryLaws.RevertTipRestoresParent` | revision/revision_ops.go:271-328 | reverting the tip onto itself gives the parent's tree if and only if no leaf clashes |
| `HistoryLaws.RevertDisjoint` | revision/revision_ops.go:271-328 | reverting a revision onto any snapshot that left its changes untouched gives exactly the changed paths the parent's leaf back, leaves every other path as it is there, and adds no conflict |
| `HistoryLaws.RebaseInPlace` | revision/revision_ops.go:95-153 | rebasing onto the current parent gives back the very same snapshot if and only if no leaf clashes |
| `Workspace.Workspace.Rebase` | revision/revision_ops.go:95-153 | the stored rows after Rebase are those of the value-level operation, the store stays valid |
| `Workspace.Workspace.RebaseMany` | revision/revision_ops.go:164-180 | the loop rebases each revision onto the one before and stops at the first failure; what it returns and leaves stored then is the outcome for the revisions before that one |
| `Workspace.Workspace.Drop` | revision/revision_ops.go:243-265 | Drop finds the descendants and carries out the value-level Drop for exactly them; on a failure half way the revisions before it are moved and returned |
| `Workspace.Workspace.Revert` | revision/revision_ops.go:271-328 | the rows after Revert are those of the value-level operation |
| `Workspace.Workspace.Resolve` | revision/revision_ops.go:361-438 | the rows after Resolve are those of the value-level operation for the forward closure of the old snapshot |
| `Workspace.Workspace.Squash` | revision/revision_ops.go:532-574 | the rows after Squash are those of the value-level operation |
| `Workspace.Workspace.Commit` | revision/change.go:148-189 | the rows after Commit are those of the value-level operation, changed paths included |
| `Workspace.Workspace.ChangedPathsBetween` | revision/change.go:194-218 | the changed paths are the diff against the first parent, or all paths of a root |
| `Workspace.Workspace.CommitFromChanges` | revision/commit_from_changes.go:32-137 | the rows after a batch commit are those of the value-level operation; an amend keeps the parents |
| `Workspace.Workspace.Derive` | revision/derive.go:31-88 | the rows after Derive are those of the value-level operation, or nothing changes on its errors |
| `Workspace.Workspace.SetDescription` | revision/derive.go:93-125 | the rows after SetDescription are those of the value-level operation |
| `Outcomes.CommitRecords` | revision/change.go:148-189 | Commit stores exactly the parents, tree, text, author and time it is given, writes only its own two rows, and keeps the creation time and fork origin of a known revision |
| `Outcomes.CommitPaths` | revision/change.go:194-218 | the committed row lists, each once and nothing else, the paths at which the diff walk sees a change against the first parent, or all leaves without one |
| `Outcomes.CommitFromChangesLeaf` | revision/commit_from_changes.go:42-92 | path by path, for overlapping changes too: the last change that touches a path decides it, the new content or nothing at its own path and nothing above or below; an untouched path keeps the parent's leaf |
| `Outcomes.CommitFromChangesRecords` | revision/commit_from_changes.go:32-137 | fails exactly for an unknown parent; the id, text, author, time and changed paths are as given, and the parents are the given one, or those an amended revision has |
| `Outcomes.DeriveRecords` | revision/derive.go:31-88 | when Derive fails, and that it copies tree, parents, author and changed paths, picks the text, and records source and time |
| `Outcomes.SetDescriptionRecords` | revision/derive.go:93-125 | only the text of the snapshot changes, and of the row only the hash |
| `Outcomes.RebaseRecords` | revision/revision_ops.go:95-153 | when Rebase fails, and that it changes only parents, tree, hash and changed paths |
| `Outcomes.RebaseLeaf` | revision/revision_ops.go:113-128 | every leaf of the rebased tree is the three-way merge over the old parent of the revision, as ours, and the new parent, as theirs |
| `Outcomes.RebasePaths` | revision/change.go:194-218 | the rebased row lists, each once and nothing else, the paths at which the diff walk sees a change against the new parent |
| `Outcomes.DropRecords` | revision/revision_ops.go:243-266 | Drop fails exactly without a stored first parent, and otherwise rebases the descendants onto it |
| `Outcomes.SquashRecords` | revision/revision_ops.go:532-574 | when Squash fails, and that the parent revision keeps its parents, text, author and row, with no commit time |
| `Outcomes.SquashLeaf` | revision/revision_ops.go:552-555 | every leaf of the squashed tree is the three-way merge over the parent of the parent itself and the child |
| `Outcomes.RevertRecords` | revision/revision_ops.go:271-328 | when Revert fails, and the parent, text, author and time of the new revision |
| `Outcomes.RevertLeaf` | revision/revision_ops.go:315-320 | every leaf of the reverted tree is the three-way merge over the revision of its parent, as ours, and the target, as theirs |
| `Outcomes.NewestIsNewest` | revision/file_history.go:223-234 | no revision was created later than the default target of a revert, and among those created at the same time it has the smallest id |
| `Evolution.ApplyKeeps` | revision/change.go:148-189 | every operation keeps the invariant (each revision points at a stored snapshot of its own id under its own canonical hash), loses no revision, and changes no stored snapshot's tree or parents |
| `Runs.RunKeeps` | revision/revision_ops.go:95-574 | the same between any two points of any run of operations and ignore rewrites, finished or failed half way, from the empty repository |
| `Runs.RunsNeverShare` | revision/revision_ops.go:95-574 | at every point of every run two revisions never share a snapshot |
| `Runs.RunsLoseNothing` | revision/revision_ops.go:95-574 | no revision id and no snapshot content is ever lost over a run |
| `Store.Repo.WriteObject` | store/centralstore.go:622-632 | inserting an object adds its row under its digest and leaves every other row alone |
| `Store.Repo.PutSnapshot` | store/centralstore.go:705-719 | upserts one snapshot row under its hash |
| `Store.Repo.PutRevision` | store/centralstore.go:756-762 | upserts one revision row under its id |
| `Store.Repo.PutRef` | store/centralstore.go:901-907 | upserts one ref row under its name |
| `Store.Repo.UpdateRevisionHash` | store/centralstore.go:857-864 | repoints exactly the named revision, and fails exactly when it is unknown |
| `Store.Repo.UpdateRevisionHashCAS` | store/centralstore.go:871-881 | repoints the revision exactly when it still has the expected hash |
| `IgnoreRules.Ignored` | ignore/ignore.go:91-119 | the loop over the layers computes the last applicable verdict |
| `IgnoreRules.IgnoredByLastWord` | ignore/ignore.go:91-119 | a path is ignored exactly when the last layer that says anything of it says so; a root layer is asked about the whole path, a nested one about the part below its directory, and no other |
| `IgnoreRules.HasAnyMatchUnder` | ignore/ignore.go:131-152 | the loop answers whether some layer touches the directory |
| `IgnoreRules.NoMatchMeansNothingIgnored` | ignore/ignore.go:131-152 | a false answer for a non-root directory means that nothing at or below it is ignored |
| `IgnoreRules.UnderAnswer` | ignore/ignore.go:121-152 | below the root the answer is yes exactly when some choice of rules in these directories ignores the directory or something below it |
| `IgnoreRules.RootAnswer` | ignore/ignore.go:135-151 | given the directories of the layers, a negative answer for the root is right for all choices of their rules if and only if there is no layer or some layer counts as the root |
| `IgnoreRules.RootAnswerIsNotConservative` | ignore/ignore.go:135-151 | a concrete nested layer that ignores a path although the root answers false |
| `IgnoreFilter.DropKeepsUnignored` | revision/ignore_filter.go:18-55 | a leaf is kept if and only if no nonempty prefix of its path is ignored; with the skip of untouched subtrees this takes a root without a directory of the empty name |
| `IgnoreFilter.FastPathSameTree` | revision/ignore_filter.go:18-55 | on canonical trees, without a directory of the empty name at the root, the skip of untouched subtrees gives the same tree as the full recursion |
| `IgnoreFilter.DropWellFormed` | revision/ignore_filter.go:18-55 | filtering keeps trees well typed and canonical |
| `IgnoreFilter.DropIgnored` | revision/ignore_filter.go:18-55 | the recursive rewrite stores and returns the filtered tree |
| `IgnoreHistory.RewriteIsomorphic` | revision/ignore_history.go:22-131 | the rewrite keeps ids and metadata, filters trees, moves each owned parent edge to the new hash and keeps unowned ones, and maps different snapshots to different hashes |
| `IgnoreHistory.RewriteDropsIgnored` | revision/ignore_history.go:96-118 | in every rewritten revision a path holds nothing when it or a directory above it is ignored, and the old leaf otherwise |
| `IgnoreHistory.AncestryLeast` | revision/ignore_history.go:33-60 | the revisions rewritten are the least set with the start and, with each revision, the owners of its parents |
| `IgnoreHistory.RewrittenRow` | revision/ignore_history.go:82-108 | each rewritten snapshot keeps revision, text and author; each parent that a revision owned becomes that revision's new snapshot, and any other stays |
| `IgnoreHistory.RewriteFrame` | revision/ignore_history.go:22-131 | revisions outside the ancestry keep their rows and the set of revisions stays |
| `IgnoreHistory.Visit` | revision/ignore_history.go:22-131 | the memoised recursion terminates and rewrites, parents first, only ancestors of the start |
| `IgnoreHistory.RewriteHistoryWithIgnores` | revision/ignore_history.go:22-131 | exactly the revisions of the ancestry are repointed, each to its new hash, and the count is the number of revisions that now have another hash; nothing happens when no layer reaches the root; after a failure half way the repointed revisions are a part of the ancestry closed under ancestors, and no revision and no content is lost |
| `Text.LinesOfSame` | revision/diff_content.go:61-85 | two contents have the same lines exactly when they are identical up to one terminal newline |
| `Text.JoinPieces` | revision/diff_content.go:61-73 | joining the pieces of a split gives the text back |
| `Text.LinesExact` | revision/diff_content.go:61-73 | no line holds a newline, joining the lines gives the content back but for a newline that ends it, and only the empty content has no lines |
| `LineDiff.ScriptOptimal` | revision/diff_content.go:89-138 | the edit script spells both files, no common subsequence is longer than its keeps, and no valid script has fewer deletions and additions |
| `LineDiff.AddsFirst` | revision/diff_content.go:109-136 | ties go to the deletion while walking backwards: in the script no deletion stands right before an addition |
| `LineDiff.FillTable` | revision/diff_content.go:89-108 | the table holds the length of a longest common subsequence of every pair of prefixes |
| `LineDiff.LcsOps` | revision/diff_content.go:89-138 | table, backtrack and in-place reversal produce the edit script |
| `LineDiff.Reverse` | revision/diff_content.go:133-136 | the swapping loop reverses |
| `Hunks.GroupChanges` | revision/diff_content.go:192-204 | the groups are ordered, more than six operations apart, cover every change, and hold no run of more than six keeps |
| `Hunks.WindowsDisjoint` | revision/diff_content.go:207-215 | hunk windows are ordered and pairwise disjoint |
| `Hunks.ChangeInOneWindow` | revision/diff_content.go:207-215 | every changed operation lies in exactly one window |
| `Hunks.BuildHunk` | revision/diff_content.go:216-256 | one hunk: OldStart, both counts and all lines match the operations of the window; NewStart is what the scan leaves |
| `Hunks.BuildHunks` | revision/diff_content.go:156-258 | one hunk per group, in order |
| `Hunks.PatchCorrect` | revision/diff_content.go:156-258 | replacing OldCount lines at OldStart by each hunk's context and added lines turns the old lines into the new ones, and each hunk's old side is found where it says |
| `Hunks.HunkShape` | revision/diff_content.go:192-215 | a hunk has three lines of context before its first change and after its last, fewer only at an end of the file, and between the two no six in a row |
| `Hunks.HunkGap` | revision/diff_content.go:192-204 | at least six old lines lie between the last change of a hunk and the first change of the next |
| `Hunks.ReplaceShown` | revision/diff_content.go:89-258 | changing the second of two lines gives one hunk: starts 1, counts 2, the context line, the new line, the old line |
| `Hunks.UnifiedDiff` | revision/diff_content.go:50-59 | the diff patches the old lines to the new ones over the optimal script, with the starts, counts and lines of its groups, and is empty exactly for contents that are equal up to a terminal newline |
| `Hunks.NewStartRight` | revision/diff_content.go:222-241 | NewStart is the number of the hunk's first new line if and only if the window has neither of two shapes |
| `Hunks.NewStartWrong` | revision/diff_content.go:222-241 | prepending one line to a one-line file gives NewStart 2 |
| `Annotate.ReplayOwnership` | revision/annotate.go:118-140 | the loop computes the owners after a transition |
| `Annotate.BlameLength` | revision/annotate.go:69-90 | after every segment there are as many owners as lines |
| `Annotate.BlameExact` | revision/annotate.go:69-140 | a line's owner is the one segment where it entered with this very text and since when every transition kept it |
| `Annotate.AnnotateSegments` | revision/annotate.go:69-114 | every line is attributed to its owner and the invalid-owner error never happens |
| `Ancestry.HashForRevision` | transfer/nonfastforward.go:83-107 | resolves an id, or a prefix of exactly one id, and fails otherwise |
| `Ancestry.IsAncestor` | transfer/nonfastforward.go:37-78 | fails exactly on empty or unresolvable revisions and otherwise decides reachability along parents, on any finite graph |
| `Ancestry.IsAncestorUnion` | transfer/nonfastforward.go:152-217 | terminates on any finite graph, cycles included, and answers true exactly when the target is reachable in the union of repository and bundle |
| `Push.CheckNonFastForward` | transfer/nonfastforward.go:120-146 | returns exactly the incoming branches whose new target does not descend from the old one, in order |
| `Push.ApplyTx` | transfer/transfer.go:313-349 | writes every object, snapshot, revision and ref of the bundle in order, or nothing when a payload does not decode |
| `Push.HandlePush` | server/server.go:372-385 | the critical section rejects exactly on conflicts and otherwise writes all or nothing |
| `Push.AppliedExactly` | transfer/transfer.go:313-349 | after the write each ref, tags included, each revision and each snapshot holds the last row the bundle has for it, every object of the bundle is stored, and every other row is as before |
| `Push.ConflictingMeans` | transfer/nonfastforward.go:120-146 | a tag, a new name and an unchanged target never conflict; any other ref does exactly when its old snapshot is not reachable from its new one |
| `Push.ListRefsOrdered` | store/centralstore.go:944-954 | refs are listed by name, each once |
| `Push.PushFastForward` | server/server.go:372-385 | an accepted push moves every branch forward or not at all: its old tip is reachable from its new one, also when the push re-points revisions forward |
| `Push.RepointExact` | transfer/nonfastforward.go:120-217 | whatever branches the repository has and the push moves, accepted pushes of given rows never lose a branch tip, if and only if the rows re-point known revisions only to snapshots from which their old snapshots are reachable |
| `PushProtocol.PushesMoveForward` | server/server.go:372-426 | over every run of interleaved pushes, accepted or rejected, the snapshot of every revision and the tip of every branch is reachable from what it has become at every later point |
| `PushProtocol.TipsMoveForward` | server/server.go:372-426 | the same for one branch: an earlier tip is reachable from every later tip |
| `PushProtocol.TargetsMoveForward` | server/server.go:372-426 | as long as it is not itself re-pointed, a branch target is an ancestor of or equal to every later target |
| `PushProtocol.MutualExclusion` | server/server.go:420-426 | at most one client is inside the critical section |
| `PushCounter.WithoutLockHistoryIsLost` | server/server.go:420-426 | without the lock two accepted pushes can move a branch off its history |
| `PushCounter.RepointedBranchLosesHistory` | transfer/nonfastforward.go:120-217 | a bundle that re-points a known revision off its history passes the check and the branch loses its old snapshot |
| `Transfer.Walk` | transfer/transfer.go:268-300 | the recursive walk adds exactly what is newly reached without passing a known object, emits what each object reads as, and fails only at one that is missing or does not decode |
| `Transfer.CollectObjects` | transfer/transfer.go:268-300 | emits, each id once, what the ids reachable without passing through a known object read as, and fails exactly when one of them is missing or does not decode |
| `Transfer.Collect` | transfer/transfer.go:209-243 | the bundle carries the rows of every revision the peer lacks and exactly what the objects their trees need read as; it fails exactly when one of those objects is missing or does not decode |
| `Transfer.SentOrdered` | transfer/transfer.go:209-243 | revisions are sent in listing order, each once |
| `Transfer.TransferComplete` | transfer/transfer.go:209-300 | a closed destination holds the tree of every transferred revision with everything reachable from it after the bundle is applied, if and only if every object that had to be sent reads back as itself; it is then closed again |
| `Transfer.DeltaTransferVerifies` | transfer/transfer.go:209-349 | after the bundle is applied verifyTree finds nothing missing for any transferred revision with a well-typed tree, if and only if every object that had to be sent reads back as itself |
| `Transfer.EmptyFileStops` | object/object.go:172-175 | a complete store with one empty file, whose collection fails |
| `Transfer.MagicFileLost` | object/object.go:176-184 | a file that starts with a magic header is collected and is not there after the transfer |
| `Transfer.VerifyTree` | revision/verify.go:66-91 | the count is the number of paths that lead to a directory that cannot be read or to a file that is not stored; it is zero exactly when everything the walk comes to is there |
| `Transfer.VerifiedIffComplete` | revision/verify.go:66-91 | in a well-typed tree verifyTree finds nothing missing exactly when everything reachable is stored |
| `Fetch.Visit` | server/server.go:443-461 | the recursive visit terminates, adds only what the peer lacks and is reached, and closes it under parents |
| `Fetch.ChangeSetWithAncestors` | server/server.go:428-466 | the change set is exactly the wanted revisions and their ancestors not behind one the peer has |
| `Fetch.FilterBundleWant` | transfer/transfer.go:173-195 | keeps exactly the wanted revisions, each with the last snapshot of its id, and everything else of the bundle |
| `Fetch.FilteredAncestorClosed` | server/server.go:428-466 | in a filtered bundle the owner of each parent of a kept revision is in the bundle or with the peer |
| `Fetch.HandleFetch` | server/server.go:316-342 | the reply carries exactly the selected revisions with their own snapshots and is ancestor-closed; it fails exactly when a needed object cannot be read; the selection is empty, and nothing is filtered, exactly when the peer has every revision it asks for |
| `Fetch.UnfilteredFetch` | transfer/transfer.go:173-195 | a concrete peer that has the root, asks for the root and is sent the child as well |
| `Varint.UvarintRoundTrip` | encoding/encoding.go:162-185 | reading inverts appending for every uint64 whatever follows, in at most ten bytes |
| `Varint.AppendUvarint` | encoding/encoding.go:162-168 | the loop appends the variable-length form |
| `Varint.ReadUvarint` | encoding/encoding.go:170-185 | on every input the loop returns the length of the first group and its value modulo 2^64 |
| `Layouts.VarintLayout` | encoding/encoding.go:162-168 | below 128 one byte; 300 is the bytes 172 and 2 |
| `Codec.EncodeSnapshotMeta` | encoding/encoding.go:41-55 | the buffer is the length-prefixed form of the fields |
| `Codec.DecodeSnapshotMeta` | encoding/encoding.go:58-92 | agrees with the decoding function on every payload and every content of the spare capacity behind it, errors and panics included |
| `Codec.MetaRoundTrip` | encoding/encoding.go:41-92 | snapshot meta decodes to what was encoded, whatever follows it |
| `Layouts.MetaLayout` | encoding/encoding.go:41-55 | the bytes of a snapshot meta with two parents: count, parents, name, e-mail, text, each after its length |
| `Codec.BodyRoundTrip` | encoding/encoding.go:95-118 | a revision body decodes to what was encoded, whatever follows it |
| `Layouts.BodyLayout` | encoding/encoding.go:95-101 | the bytes of a revision body: hash, then the fork origin after its length |
| `Codec.EncodeRevisionBody` | encoding/encoding.go:95-101 | the buffer is the 32-byte id and the length-prefixed fork origin |
| `Codec.DecodeRevisionBody` | encoding/encoding.go:104-118 | agrees with the decoding function on every payload |
| `Codec.AppendTree` | encoding/encoding.go:123-138 | entries are written in key order after their count |
| `Codec.DecodeTree` | encoding/encoding.go:141-160 | agrees with the decoding function on every payload; truncation is an error |
| `Codec.TreeRoundTrip` | encoding/encoding.go:123-160 | a tree decodes to what was encoded if and only if its keys are its entries' names |
| `Layouts.TreeLayout` | encoding/encoding.go:123-138 | the bytes of a tree with two entries: count, then by name each entry's name after its length, kind and id |
| `ObjectCodec.EncodeObject` | object/object.go:155-166 | the stored form: raw blob, or magic header and body |
| `ObjectCodec.DecodeObject` | object/object.go:172-185 | agrees with the decoding function on every payload, panics included; a truncated tree keeps its first entries |
| `ObjectCodec.ObjectRoundTrip` | object/object.go:155-232 | decoding inverts encoding if and only if a blob is nonempty and starts with no magic header, a tree is keyed by name, a conflict has newline-free labels |
| `Layouts.ObjectLayout` | object/object.go:155-166 | a blob is stored as it is, a tree after its magic |
| `ObjectCodec.DecodedSurvives` | object/object.go:155-232 | whatever is decoded, from whatever bytes, survives being encoded and decoded again |
| `ObjectCodec.EncodeConflictBytes` | object/conflict.go:59-72 | writes the lines of the conflict text |
| `ObjectCodec.DecodeConflictBytes` | object/conflict.go:75-103 | agrees with the decoding function on every payload: blanks, signs and overflow in a count line, and the panic on a count that no slice can have |
| `ObjectCodec.ConflictRoundTrip` | object/conflict.go:59-103 | a conflict decodes to what was encoded, whatever follows it, if and only if no label holds a newline |
| `Layouts.ConflictLayout` | object/conflict.go:59-72 | the lines of a stored conflict with one removed and one added term |
| `HashText.HashedTextInjective` | object/object.go:82-145 | the hashed text determines the object when names and labels hold no newline |
| `Layouts.TreeHashLayout` | object/object.go:82-145 | the hashed lines of a tree with two entries |
| `Layouts.ConflictHashLayout` | object/object.go:82-105 | the hashed lines of a conflict with one removed and one added term |
| `HashText.NameNewlineCollides` | object/object.go:140-145 | two different trees with a newline in a name and one hashed text |
| `SnapshotText.BuildText` | revision/change.go:252-264 | the builder writes the canonical text |
| `SnapshotText.CanonicalTextInjective` | revision/change.go:252-264 | the canonical text determines revision, tree, description, rendered author and parents, for descriptions of any number of lines |
| `Layouts.SnapshotLayout` | revision/change.go:252-264 | the hashed text of a snapshot with two parents |
| `SnapshotText.AuthorNewlineCollides` | store/store.go:46-56 | an author with a newline can pass for a parent |
| `Layouts.AuthorLayout` | store/store.go:78-83 | an author with an e-mail address is rendered with it in angle brackets, one without as the name |
| `Framing.MarshalBinary` | transfer/transfer.go:72-97 | the frame is magic, two 32-bit lengths, header and payloads |
| `Layouts.FrameLayout` | transfer/transfer.go:72-97 | the bytes of a frame: magic, the two lengths in little-endian order, header, body |
| `Framing.UnmarshalBinary` | transfer/transfer.go:101-150 | agrees with the decoding function on every input, compressed or not, errors and panics included |
| `Framing.FrameRoundTrip` | transfer/transfer.go:72-150 | a bundle survives the frame, whatever follows it, if and only if its header and its payloads together are both shorter than 4 GiB |
| `Framing.CompressedRoundTrip` | transfer/transfer.go:101-167 | the same for a compressed bundle, and a frame is never taken for a compressed one |

## Left out

- Filesystem walks, HTTP, compression, JSON, SQL migration, the git bridge, mirrors, the command line and the web API: no part of the algorithms modelled.
- BLAKE3 and the gitignore pattern engine: an abstract injective hash, and an arbitrary verdict function per ignore layer.
- Users, roles, tokens, merge-request records and package ownership: short case analyses.
- Garbage collection (revision/gc.go) and fork re-keying (store/centralstore.go:518-548): not modelled.
- Computing changes from a working directory (revision/scan.go): scanned subtrees are not stored; the diff-and-apply theorem is stated for Diff.
- Interleavings of UpdateRevisionHashCAS with other writers: rewrites run one at a time; only the push lock has an interleaving model.
- Commit times: carried, but part of no hash, as in the source.
- Error texts: operations agree with their functions on success, value and failure, not on the wording.
- The breadth-first order that RewriteHistoryWithIgnores computes and does not use.
- TreeStore.AllTreePaths: walks with the flatten walk, which visits the same entries in the same order as collectPaths.
- Transfer.CollectObjects: records are decoded objects and reading is a function on objects with the properties that ObjectCodec proves of the bytes; an error and a panic while decoding count alike.
- Transfer.VerifyTree: terminates when no object refers to itself through what it reads as, which digests ensure.
- Store.Repo.ReadObject: gives back the stored object. The semantic operations read trees and conflicts only, and both survive: the conflicts they write have labels without newlines.
- Objects.SnapshotDigest: in the source a snapshot hash is the id of a blob that holds the canonical text; the model keeps snapshot hashes and object ids apart, as no operation modelled compares the two.
- Push.ApplyTx: database failures inside the transaction are not modelled; a payload that does not decode is.
- ObjectCodec.DecodeConflictBytes: the scanner's limit of 2^30 characters a line, and running out of memory below the limit of the address space, are not modelled.
- Workspace.Workspace.Commit: the committed tree must be stored with all its subtrees; ids are terms over the trees they digest, so a tree that is missing from the store does not read as empty, as it does in the original.
- Framing.UnmarshalBinary: the JSON text of the metadata and the gzip format are parameters.
- Annotate.AnnotateSegments: starts from the collected contents of the file; finding the revisions that touch a path (FileHistoryOpt) is not modelled.
- Codec.DecodeSnapshotMeta: a byte is a char with a code below 256; decoding is defined on all chars and uses only the low bits a byte has.
- Fetch of conflict terms: closure is under tree edges, as in the source, which does not follow the terms of a conflict.
