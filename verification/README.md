# Varvig: verified model of merge, sync, codec, Git interop, diff and collection

A Dafny model of the parts of Varvig whose behaviour is hardest to see from one function at
a time, with proofs about whole runs, whole histories and all byte strings. Source paths are
relative to the repository root.

Check everything with `dafny verify dfyconfig.toml`.

## What is modelled

The components share one theory of objects (`Objects.dfy`, `Graph.dfy`, `Closure.dfy`): a
store maps ids to objects, each object links to others, and a `World` fixes which object
verifies under which id. An object here is what its bytes read as. Two facts are assumed of a
world, because every caller in the repository relies on them: no id verifies two objects, and
an object is hashed after what it links to, so links descend in rank. Of a store it is assumed
that its reads verify, as `varvig/internal/store/store.go:126-146` makes them. Many ids may
name objects that read alike, in one store too: bytes kept under another digest, signed and
unsigned copies, imported commits that differ in what no view shows. Missing and malformed
objects are error paths.

- **Merge** (`Diff3`, `Diff3Laws`, `MergeBases`, `Trees`, `TreeLaws`, `FlattenLaws`,
  `MergeDriver`, `PathLaws`, `ChangeMerge`, `MergeLaws`, `CrissCross`, `Remerge`). The line
  merge with its LCS table; the best common ancestors found with shared early-stopping visited
  sets; path maps flattened from and built into tree objects; the merge of one path, of trees
  and of changes; and the recursive virtual base of criss-cross histories, whose termination
  rests on best bases forming an antichain. `CrissCross` says path by path what the virtual
  base holds, `Remerge` what becomes of a merge that is merged again. Laws of the tree merge
  are over path to content id, since the merge compares ids and never modes
  (`varvig/internal/merge/merge.go:455-463`).
- **Sync** (`Refs`, `Sync`, `PushRuns`, `RefSync`, `RefSyncLaws`). Refs are cells moved by
  compare-and-swap under naming rules that are parameters. A transfer is a pruned walk at the
  sender and a verified receive at the receiver. `PushRuns` is a state machine of object
  receipts, pushes and other swaps in any interleaving. `RefSync` runs a fetch pass and a push
  pass between two peers; the push hook is an arbitrary veto.
- **Codec** (`Varint`, `Records`, `Codec`, `RawObjects`, `TypedViews`, `TreeViews`, `Vectors`).
  The VVG1 bytes as a bijection, edits in place, what a signature covers, the typed views of
  changes and trees, and the repository's frozen byte vectors. `Records` states once what every
  counted, ordered list shares; the cursor class is how the decoders walk bytes.
- **Git** (`Delta`, `Offsets`, `PackHeader`, `Pack`, `PackLaws`, `GitTree`, `CommitText`,
  `GitImport`, `GitExport`, `GitRoundTrip`, `NativeRoundTrip`, `GitLaws`). Git's delta
  instructions and offsets (gitformat-pack, "Deltified representation"); the fixpoint that
  resolves packs; tree bodies and their order; commit text; import and export with their memos,
  against recursions without them, in both directions. Here no collision-free hash is assumed
  beyond what is needed: Git oids are 20 bytes, and no other object has the oid of a stored
  one. The sort of tree entries is a parameter, since a directory `x` and a name that starts
  with `x/` compare equal and Go does not say how they end up.
- **Collection and diff** (`Gc`, `GcLaws`, `TreeDiff`). Mark and sweep from refs, reflogs and
  pool candidates; the tree diff that skips equal subtrees, as it walks entries of any kind,
  and when that is the plain comparison of the flattened maps.

Where the code and the obvious claim disagree, the code is kept, the exact condition is proved
and an input that fails is given: flattening undoes building if and only if no path starts with
a slash (`TreeLaws.RoundTripExactly`, `TreeLaws.LeadingSlashIsLost`); a merge keeps the modes
that `MergeLaws.ModeOfMerged` says, so a chmod made only by theirs is dropped
(`MergeLaws.ChmodByTheirsIsDropped`); a tree entry list re-encodes exactly if and only if no mode
exceeds 32 bits (`TreeViews.TreeReencodes`, `TreeViews.WideModeIsCut`); a change reads back whole
if and only if no optional id is empty (`TypedViews.ChangeRoundTrip`,
`TypedViews.EmptyProvenanceIsLost`); applyDelta panics exactly on negative result sizes and copies
cut short (`Delta.ApplyDelta`, `Delta.NegativeSizePanics`, `Delta.MissingOperandPanics`); an
imported commit exports exactly when its trees are faithful (`GitRoundTrip.CommitIdentity`,
`GitRoundTrip.GroupWritableFails`); and the tree diff is the plain comparison exactly when no
compared name has an entry of another kind, but for one harmless case (`TreeDiff.TreesExact`,
`TreeDiff.UnchangedOtherFails`).

Integers are unbounded except where the source's width matters: varints are bounded at 64 bits,
delta sizes and pack offsets wrap as int64, octal modes as uint32, timestamps are converted
between int64 and uint64. A panic is an outcome, written `None` or `Panics`.

## Model

| member | source | states |
|---|---|---|
| Diff3.LcsPairs | varvig/internal/merge/diff3.go:21-53 | The pairs are strictly increasing in both coordinates, match equal lines, and no alignment of the two inputs has more pairs |
| Diff3.LenIsMaximal | varvig/internal/merge/diff3.go:28-38 | The table entry at (i, j) bounds the length of every common alignment of the two suffixes |
| Diff3.WalkTable | varvig/internal/merge/diff3.go:39-52 | The walk over the filled table collects exactly the alignment that the length function prescribes |
| Diff3.EqualLines | varvig/internal/merge/diff3.go:107-117 | True exactly on equal line lists |
| Diff3.Merge3 | varvig/internal/merge/diff3.go:58-105 | Computes the merge defined by the aligned regions, whose number, content and output CutAtEveryKeptLine, MergeLosesNothing and OutputShowsEveryRegion determine |
| Diff3.MergeLosesNothing | varvig/internal/merge/diff3.go:58-105 | The regions concatenate back to ancestor, ours and theirs exactly; a clean region is one side, and differs from a side only where that side is the ancestor; a conflicting region holds both sides whole, one after the other |
| Diff3.MergeOursUntouched | varvig/internal/merge/diff3.go:58-105 | Merging (o, o, b) gives b without conflict, for all o and b |
| Diff3.MergeTheirsUntouched | varvig/internal/merge/diff3.go:58-105 | Merging (o, a, o) gives a without conflict, for all o and a |
| Diff3.MergeSidesEqual | varvig/internal/merge/diff3.go:58-105 | Merging (o, a, a) gives a without conflict, for all o and a |
| Diff3.MergeSymmetric | varvig/internal/merge/diff3.go:58-105 | Swapping the sides keeps the conflict flag, and the lines when there is no conflict |
| Diff3Laws.CutAtEveryKeptLine | varvig/internal/merge/diff3.go:59-78 | The inputs are cut at every ancestor line that both alignments keep, and nowhere else |
| Diff3Laws.OutputShowsEveryRegion | varvig/internal/merge/diff3.go:80-104 | The output shows region after region a side that has it or both between the marker lines, and after each the line it was cut at |
| Diff3Laws.CommonBeginning | varvig/internal/merge/diff3.go:58-105 | A common beginning of all three inputs is written once and changes nothing else: neither the rest of the merge nor whether it conflicts |
| Diff3Laws.TieSkipsFirstInput | varvig/internal/merge/diff3.go:41-51 | Of two longest alignments the walk takes the one that gives up lines of the first input first |
| Objects.IntactAgree | varvig/internal/store/store.go:126-146 | Two stores whose reads verify agree on every id that both hold |
| Objects.ChangeLinks | varvig/internal/object/links.go:30-52 | A change links to its tree, its parents, its artifacts, its intent and the intent it fulfills, and to nothing else |
| Objects.LeafLinks | varvig/internal/object/links.go:16-20 | Blobs and provenance link to nothing; links cannot be had exactly of what does not decode or has no view |
| Objects.TreeLinks | varvig/internal/object/links.go:21-29 | A tree links to exactly the ids of its entries |
| Objects.ObjectStore.Put | varvig/internal/store/store.go:59-86 | Stores under the hash, changes nothing else, and every id keeps naming what verifies under it |
| Objects.ObjectStore.PutVerified | varvig/internal/store/store.go:88-113 | Keeps an object under the id it came with exactly if it verifies there, whatever the digest and whether or not another id names it already; stores nothing otherwise |
| MergeBases.History | varvig/internal/merge/merge.go:371-384 | Parents of every change in an intact store have smaller rank and are not nil: the history is acyclic |
| MergeBases.ParentsAreRecorded | varvig/internal/merge/merge.go:371-384 | The history follows every parent a stored change records but nil ones, and nothing else |
| MergeBases.AncestorsThroughParents | varvig/internal/merge/merge.go:360-384 | What a change reaches is itself and what each of its recorded parents reaches |
| MergeBases.CollectAncestors | varvig/internal/merge/merge.go:360-369 | The visited set that stops the walk early is shared between calls: each call adds exactly the ancestors not yet there, whatever calls are still open above it |
| MergeBases.MarkStrictAncestors | varvig/internal/merge/merge.go:316-325 | Adds exactly the strict ancestors of one change to a set that is closed under parents |
| MergeBases.FindMergeBases | varvig/internal/merge/merge.go:293-337 | The sorted list of all common ancestors that are no strict ancestor of another common ancestor, over all recorded parents (AncestorsThroughParents), and nothing without two ids |
| MergeBases.BestIsAntichain | varvig/internal/merge/merge.go:288-292 | No base is an ancestor of another |
| MergeBases.BestCovers | varvig/internal/merge/merge.go:288-292 | Every common ancestor lies below some base, so related changes have one |
| MergeBases.MergeBasesSymmetric | varvig/internal/merge/merge.go:293-337 | The list does not depend on the order of the two changes |
| MergeBases.BestOfAncestor | varvig/internal/merge/merge.go:293-337 | Where one change is an ancestor of the other, it is the only base |
| MergeBases.SeveralBasesAreOlder | varvig/internal/merge/merge.go:202-234 | Two or more bases are strict ancestors of both changes and of smaller rank than either |
| Trees.FlattenInto | varvig/internal/merge/tree.go:33-56 | Adds to the shared map exactly the files of the tree under the prefix, and fails exactly when some object on the way is no readable tree |
| Trees.Flatten | varvig/internal/merge/tree.go:22-31 | The files of a tree, none for a nil tree |
| Trees.FlatTreeGrows | varvig/internal/merge/tree.go:33-56 | A readable tree has the same files in every larger store |
| Trees.SplitPath | varvig/internal/merge/tree.go:61-71 | One path goes either to the files of this level or, without its first segment, to one subdirectory; the split of the map seen so far stays exact |
| Trees.NewTreeOfCollected | varvig/internal/object/tree.go:34-42 | NewTree panics exactly when a name is both a file and a directory; otherwise the order in which entries were collected is forgotten |
| Trees.PrefixFreeLevels | varvig/internal/merge/tree.go:58-84 | No path is a directory of another exactly when that holds at this level and in every subdirectory |
| Trees.BuildTree | varvig/internal/merge/tree.go:58-84 | Panics exactly when some path is also a directory; otherwise the id depends on the map alone, not on iteration order, and the built objects are in the store |
| TreeLaws.FlattenUndoesBuild | varvig/internal/merge/tree.go:22-84 | Flattening the built tree gives the path map back |
| TreeLaws.RoundTripExactly | varvig/internal/merge/tree.go:22-84 | Flattening gives back exactly what was built if and only if no path starts with a slash |
| TreeLaws.LeadingSlashIsLost | varvig/internal/merge/tree.go:22-84 | The map that holds only "/a" comes back as the map that holds only "a" |
| FlattenLaws.FlatLeads | varvig/internal/merge/tree.go:33-56 | A flattened tree has a path exactly where a chain of entries leads, with a file that it leads to; every kind but 2 is a file |
| FlattenLaws.FlatExactly | varvig/internal/merge/tree.go:33-56 | Flattening fails exactly where a tree on the way is missing or is no tree |
| FlattenLaws.BuiltEntriesAre | varvig/internal/merge/tree.go:58-84 | The tree built for a directory has one entry of kind 1 for each file, with its mode and id, one of kind 2 and mode 040000 for each directory, and no other |
| MergeDriver.JoinOfLines | varvig/internal/merge/merge.go:495-502 | Splitting content into lines and joining them is the identity on all byte strings |
| PathLaws.LinesAreCut | varvig/internal/merge/merge.go:495-502 | Content is cut after every line feed and nowhere else, and joins back to itself |
| MergeDriver.UnionPaths | varvig/internal/merge/merge.go:504-518 | All paths of the three maps, sorted, each once |
| MergeDriver.ResolveConflict | varvig/internal/merge/merge.go:239-286 | A path that diverged becomes the regenerated, cleanly merged or marked content, stored as a blob; a read error changes nothing |
| MergeDriver.MergePath | varvig/internal/merge/merge.go:146-184 | The case taken for one path and the entry it leaves, by content ids |
| PathLaws.DivergedPath | varvig/internal/merge/merge.go:239-286 | A path that differs from the base on both sides becomes the joined merge3 lines of its three contents, or in a conflict the regenerator's content if it gives any; text, regenerated or conflicted accordingly |
| PathLaws.DivergedFails | varvig/internal/merge/merge.go:243-254 | Such a path fails exactly when one of the three contents cannot be read |
| PathLaws.TextMergesOnly | varvig/internal/merge/merge.go:256-263 | A path counted as a text merge is a blob of the joined merge3 lines of its three contents, which do not conflict |
| MergeDriver.MergeTrees | varvig/internal/merge/merge.go:128-192 | The result holds for every path its outcome and nothing else; each path is listed under how it was resolved; errors and the buildTree panic occur exactly as characterised |
| PathLaws.ListsArePaths | varvig/internal/merge/merge.go:146-186 | Each list holds exactly the paths resolved that way, in order |
| PathLaws.ReportedOnce | varvig/internal/merge/merge.go:118-192 | Every path of the three trees is listed under what became of it and nowhere else |
| MergeLaws.OursUntouched | varvig/internal/merge/merge.go:157-161 | With ours equal to the base the result is theirs, no conflict, over path to content id |
| MergeLaws.TheirsUntouched | varvig/internal/merge/merge.go:162-166 | With theirs equal to the base the result is ours, no conflict |
| MergeLaws.SidesAgree | varvig/internal/merge/merge.go:152-156 | Sides that agree merge to what they agree on, whatever the base |
| MergeLaws.MergeOfTreesSymmetric | varvig/internal/merge/merge.go:128-192 | Without a regenerator, a tree merge free of conflicts is free of conflicts the other way round and gives the same content ids |
| MergeLaws.ModeOfMerged | varvig/internal/merge/merge.go:152-182 | Each merged path has the mode of ours, unless ours lacks the path or has the base's content where theirs does not |
| MergeLaws.ChmodByTheirsIsDropped | varvig/internal/merge/merge.go:152-154 | The merge of one file whose mode only theirs changed keeps the old mode |
| ChangeMerge.DepthFalls | varvig/internal/merge/merge.go:202-234 | Every list of bases has a depth, and the bases of its first two have a smaller one: the recursion terminates on every acyclic history |
| ChangeMerge.FoldTurn | varvig/internal/merge/merge.go:213-233 | One turn merges one more base into the accumulated tree; only the first uses the virtual base of the first two, later turns an empty base |
| ChangeMerge.VirtualBaseTree | varvig/internal/merge/merge.go:202-234 | Terminates, and the tree found has the files of the recursive virtual base, which the CrissCross lemmas determine path by path, in the store it leaves and in every larger one; no answer means there are no such files |
| ChangeMerge.FindBase | varvig/internal/merge/merge.go:63-83 | The best bases of two changes and the tree of their virtual base |
| ChangeMerge.MergeIntoTree | varvig/internal/merge/merge.go:63-100 | The merged tree of two changes over that base |
| ChangeMerge.MergeChanges | varvig/internal/merge/merge.go:63-114 | The whole merge: a change is recorded exactly when nothing is left in conflict, with both sides as parents and the incoming intent |
| MergeLaws.FastForward | varvig/internal/merge/merge.go:63-114 | Merging a descendant of ours gives its files without conflict, and succeeds exactly if both changes can be read and its files form a tree |
| MergeLaws.AlreadyMerged | varvig/internal/merge/merge.go:63-114 | Merging an ancestor of ours changes nothing, and succeeds exactly if both changes can be read and our files form a tree |
| MergeLaws.SameFilesMerge | varvig/internal/merge/merge.go:63-114 | Two changes with the same files merge to those files, whatever their history, exactly if their virtual base can be had and the files form a tree |
| MergeLaws.MergeCommutes | varvig/internal/merge/merge.go:63-114 | A resolved merge of two changes is resolved the other way round, with the same files |
| CrissCross.FilesOfChange | varvig/internal/merge/merge.go:430-446 | The files of a change are those of its tree, none without a tree or for a nil id; a tree stands for itself; anything missing is an error |
| CrissCross.VirtualBaseOfTwo | varvig/internal/merge/merge.go:202-234 | Two bases are merged over their own virtual base: a path one of them left as it was there is as the other has it, one they agree on is as they have it, and one both changed holds their merged lines |
| CrissCross.VirtualBaseOfMore | varvig/internal/merge/merge.go:213-231 | A third or later base is merged over an empty base: what only one side has stays, and what both have differently holds their merged lines |
| CrissCross.VirtualBaseCommutes | varvig/internal/merge/merge.go:202-234 | The order of two bases does not matter to the content ids of their virtual base unless a path of theirs conflicts |
| CrissCross.MergeReconciles | varvig/internal/merge/merge.go:63-114 | A merge of two changes takes each path one side left as in the base from the other side, whatever the history |
| CrissCross.CrissCrossMerge | varvig/internal/merge/merge.go:63-234 | Over a criss-cross, a path that only one of the two bases changed, and one side still has as that base, is taken from the other side |
| Remerge.RecordedChange | varvig/internal/merge/merge.go:94-107 | A recorded merge has exactly the two sides as parents, the merged tree, no intent or artifacts of its own, and the intent that theirs fulfills |
| Remerge.RegeneratesIntent | varvig/internal/merge/merge.go:78-81 | A conflict is regenerated only if theirs records a readable intent, and the regenerator is given that intent and the three contents |
| Remerge.MergeReports | varvig/internal/merge/merge.go:83-95 | A merge lists every path of the three maps under what became of it, names a base exactly if there is one best base, and has no conflicts listed exactly if no path conflicts |
| Remerge.MergeThenBases | varvig/internal/merge/merge.go:63-114 | Once a merge is recorded, each side is the only best base of the merge change and itself |
| Remerge.MergeAgain | varvig/internal/merge/merge.go:63-114 | Merging theirs again into the recorded merge succeeds without conflict, with theirs as its base and the very same tree |
| Closure.HasClosure | varvig/internal/p2p/p2p.go:637-655 | True exactly when everything reachable is present and readable; terminates without a memo |
| Closure.CompleteNamed | varvig/internal/p2p/p2p.go:637-655 | A stored change is complete exactly if its tree, parents, artifacts, intent and fulfilled intent are, and then each is present; a tree exactly if every entry is |
| Closure.CompleteGrows | varvig/internal/p2p/p2p.go:637-655 | A complete closure stays complete, with the same members, as objects are added |
| Closure.MarkedExactly | varvig/internal/p2p/p2p.go:617-634 | Marking adds exactly the present objects reachable from the id |
| Sync.MarkClosure | varvig/internal/p2p/p2p.go:617-634 | The same as a step: what the call adds to the shared set, whatever calls are open |
| Sync.MarkAll | varvig/internal/p2p/p2p.go:148-152 | The prune set is exactly what the store holds of the closures of the haves |
| Sync.SendMissing | varvig/internal/p2p/p2p.go:153-189 | Terminates; sends no object twice, none that is pruned, and nothing the wants do not lead to, but everything of the wants that is not behind a pruned object; stops early only if a want's closure is incomplete |
| Sync.Receive | varvig/internal/p2p/p2p.go:191-200 | Stores each object under its verified id: the receiver holds what it had and what was sent |
| Sync.TransferCompletes | varvig/internal/p2p/p2p.go:143-189 | If the receiver holds the closure of each have, it ends with the closure of each want |
| Sync.SentIsNeeded | varvig/internal/p2p/p2p.go:143-189 | Nothing is sent that no want leads to or that some have leads to |
| Sync.Fetch | varvig/internal/p2p/p2p.go:431-461 | Success means every want's closure is present; with complete closures on both sides it always succeeds; nothing is lost, and all that is gained is what the peer had, some want leads to and no have does |
| Refs.RefStore.CompareAndSwap | varvig/internal/refs/refs.go:81-120 | Swaps exactly when the old value is the current one and name and value are well formed; then the ref has the new value or is gone; no other ref moves; the log gains the move |
| Refs.HonestAppend | varvig/internal/refs/refs.go:81-120 | A log whose entries each replaced the value they name stays so, and replays to the refs |
| PushRuns.StepKeepsInv | varvig/internal/p2p/p2p.go:191-238 | Every received object and every push, from any connection, keeps the invariant of pushed refs, of the log and of the store |
| PushRuns.PushesAreSafe | varvig/internal/p2p/p2p.go:203-238 | After every finite run, each ref last moved by a push names an object whose whole closure is present, and each logged push replaced exactly the value it named |
| PushRuns.PushLands | varvig/internal/p2p/p2p.go:203-238 | A push of a complete tip, with any steps of others between its check and its swap, moves the ref exactly if it then holds what the client expected and name and id are well formed; a veto moves nothing; either way it is over |
| PushRuns.IncompletePushRefused | varvig/internal/p2p/p2p.go:211-219 | A push whose closure is not all there changes nothing |
| PushRuns.ObjectLands | varvig/internal/p2p/p2p.go:191-200 | A received object is kept exactly if it verifies under its id |
| RefSync.Reaches | varvig/internal/p2p/refsync.go:241-266 | True exactly when the target is reachable from the start through the objects present |
| RefSync.SelectCandidates | varvig/internal/p2p/refsync.go:116-147 | Exactly the replicated refs whose advertised value differs are candidates, with the values wanted and held; bad names and ids are refused |
| RefSync.ApplyCandidates | varvig/internal/p2p/refsync.go:157-173 | Every candidate is created, advanced or reported as diverged; no other ref moves |
| RefSync.ReplicateRefsFetch | varvig/internal/p2p/refsync.go:102-176 | From any listing, honest or not: every ref ends as the advance rule says and the report lists exactly those that moved, diverged or were refused; a malformed name or id stops nothing else; a failed transfer moves no ref |
| RefSync.ServePush | varvig/internal/p2p/p2p.go:203-238 | A push is accepted exactly when the closure is present, the hook agrees and the swap succeeds |
| RefSync.Push | varvig/internal/p2p/p2p.go:467-524 | An accepted push replaced the value it expected and left a complete closure behind it |
| RefSync.PushRef | varvig/internal/p2p/refsync.go:200-229 | What the push pass does to one ref, and that it does not fail with complete closures and no veto |
| RefSync.ReplicateRefsPush | varvig/internal/p2p/refsync.go:185-231 | The peer's refs end as the push rule says, which PushOnlyAdvances determines, and the report lists exactly those that moved, diverged or were refused; a pass that fails has pushed our refs before the failing name and touched no other |
| RefSync.PassesConverge | varvig/internal/p2p/refsync.go:102-231 | After a fetch and a push pass each replicated ref is equal on both sides, or untouched on both with neither value reaching the other; no ref disappears |
| RefSync.SecondPassMovesNothing | varvig/internal/p2p/refsync.go:102-231 | Running both passes again, over any larger store, moves nothing |
| RefSync.FetchOnlyAdvances | varvig/internal/p2p/refsync.go:102-176 | A fetch pass moves a ref only to a value that reaches its old one, and drops none |
| RefSyncLaws.PushOnlyAdvances | varvig/internal/p2p/refsync.go:185-231 | A push pass by itself gives the peer our value exactly where the ref replicates and the peer has none or ours reaches it; it never takes a ref of the peer back, and a name reported as diverged or refused keeps its value |
| RefSyncLaws.PushAlone | varvig/internal/p2p/refsync.go:185-231 | A push pass run alone: every ref of the peer stays or moves to a value that reaches its old one, whether the pass succeeds or fails, and what is reported as diverged stays |
| RefSyncLaws.FailedPushOnlyAdvances | varvig/internal/p2p/refsync.go:224-226 | A push pass that fails has taken no ref back either, and moved none from the failing name on |
| RefSyncLaws.FetchMovesExactly | varvig/internal/p2p/refsync.go:102-176 | A fetch pass takes the advertised value exactly where it is well formed and we have none or it reaches ours; the names it reports as updated, diverged and refused are exactly characterised without its rule |
| RefSync.SyncPeers | varvig/internal/p2p/refsync.go:102-231 | The two passes run one after the other succeed and converge, keep every ref's closure complete on its side and every id well formed |
| RefSync.SyncTwice | varvig/internal/p2p/refsync.go:102-231 | The two passes run twice: the second round moves no ref on either side |
| Gc.CollectRoots | varvig/internal/gc/gc.go:53-103 | The roots are exactly the refs, the reflog ids that are not expired and the pool candidates |
| Gc.Mark | varvig/internal/gc/gc.go:114-140 | Adds exactly what is reachable through present objects; fails only when something it reaches cannot be read |
| Gc.MarkRoots | varvig/internal/gc/gc.go:141-145 | The live set is what the roots reach; fails exactly when part of it cannot be read |
| Gc.CollectFrom | varvig/internal/gc/gc.go:107-183 | Keeps exactly the live objects; changes nothing on a dry run or an error; scanned is kept plus deleted |
| Gc.Collect | varvig/internal/gc/gc.go:107-183 | The same from the roots of a repository: what is kept is live, which LiveExactly determines |
| Gc.CollectTwice | varvig/internal/gc/gc.go:107-183 | What a collection leaves is exactly what the same roots reach in it |
| Gc.CollectAgain | varvig/internal/gc/gc.go:107-183 | Two collections as run: the second succeeds if the first did, deletes nothing and keeps what the first kept |
| GcLaws.LiveExactly | varvig/internal/gc/gc.go:114-145 | Live are exactly the stored roots and what live objects link to |
| GcLaws.CollectKeepsNamed | varvig/internal/gc/gc.go:107-183 | With every change that is kept, its tree, parents, artifacts, intent and fulfilled intent are kept as far as stored; with every tree its entries |
| GcLaws.CollectSafely | varvig/internal/gc/gc.go:53-183 | Collect as run: every change left still has all it refers to that was stored, and nothing that a live ref, a log entry or a candidate names is gone |
| GcLaws.CollectKeepsRoots | varvig/internal/gc/gc.go:53-103 | The target of every ref whose pin has not run out, every id of a reflog entry, before or after, and every pool candidate survives a collection |
| GcLaws.CollectKeepsNothingElse | varvig/internal/gc/gc.go:53-183 | An object survives only as one of these or as a link of another survivor |
| Varint.AppendUvarint | varvig/internal/object/object.go:356-362 | Appends the minimal encoding of the value |
| Varint.ReadUvarint | varvig/internal/object/object.go:364-385 | Accepts exactly the minimal encodings of 64-bit values at the start of a string, and gives the value and its length |
| Varint.EncodePrefixFree | varvig/internal/object/object.go:356-385 | No encoding is a proper prefix of another |
| Varint.EncodeGroups | varvig/internal/object/object.go:356-362 | Byte i holds bits 7i to 7i + 6 of the value, and has its top bit set exactly if it is not the last |
| Records.Cursor.Uvarint | varvig/internal/object/object.go:336-343 | Advances by exactly one varint, or not at all and then none stands there |
| Records.Cursor.Take | varvig/internal/object/object.go:345-352 | Advances by exactly n bytes if there are as many |
| Records.EncodeListInjective | varvig/internal/object/object.go:4-28 | A counted list of ordered records is determined by its bytes |
| Codec.EncodeFields | varvig/internal/object/object.go:208-219 | The bytes of a type and a field list |
| Codec.Decode | varvig/internal/object/object.go:225-264 | Accepts exactly the encodings of objects with sorted unique fields, unknown tags and types included, and gives back the object encoded |
| Codec.EncodingInjective | varvig/internal/object/object.go:20-28 | Two objects with the same bytes are the same object: with Decode, encoding is a bijection onto the accepted strings |
| Vectors.PlainVectors | varvig/internal/conformance/vectors.json:11-14 | The frozen bytes of the empty blob, and of the object of unknown type |
| Vectors.UnmaterializedVector | varvig/internal/conformance/vectors.json:29-32 | The frozen bytes of a change without a tree |
| Vectors.SignedVector | varvig/internal/conformance/vectors.json:35-38 | The frozen bytes of a signed change, for any ids and signature of their lengths |
| Vectors.TreeVector | varvig/internal/conformance/vectors.json:17-20 | The frozen bytes of a list of two entries, for any ids of their length |
| Vectors.TreeObjectVector | varvig/internal/conformance/vectors.json:17-20 | The frozen bytes of the tree object around that list |
| RawObjects.RawObject.SetField | varvig/internal/object/object.go:178-187 | Sets one field, keeps every other one, and keeps the fields sorted and unique |
| RawObjects.RawObject.DeleteField | varvig/internal/object/object.go:190-196 | Removes one field, keeps every other one, and keeps the fields sorted and unique |
| RawObjects.RawObject.GetField | varvig/internal/object/object.go:166-173 | The value stored under a tag, if there is one |
| RawObjects.RawObject.EncodeWithout | varvig/internal/object/object.go:273-293 | The encoding of the object without one field |
| RawObjects.RawObject.SetSignature | varvig/internal/object/object.go:308-312 | Attaching a signature leaves the signed bytes unchanged |
| RawObjects.SignedAfterDelete | varvig/internal/object/object.go:295-306 | The signed bytes are the encoding after deleting the signature field |
| RawObjects.SignedBytesDecide | varvig/internal/object/object.go:295-306 | Signed bytes are equal exactly when type and all fields but the signature are equal |
| Vectors.SignedIsTheRest | varvig/internal/object/object.go:295-306 | What is signed is the object without its tag 7 |
| TypedViews.EncodeHashList | varvig/internal/object/change.go:200-208 | The count and length-prefixed ids of a list |
| TypedViews.DecodeHashList | varvig/internal/object/change.go:212-239 | Accepts exactly the encodings of strictly ascending id lists; encoding the result gives the exact bytes |
| TypedViews.DropRepeatedParents | varvig/internal/object/change.go:81-88 | Dropping repeats from a sorted slice in place leaves each id once, although the slice written is the slice read |
| TypedViews.DropRepeatedHashes | varvig/internal/object/change.go:248-255 | The same for the variant that compares with the last id kept |
| TypedViews.NewChange | varvig/internal/object/change.go:77-127 | Fields in tag order: sorted unique parents and artifacts, optional fields only where present |
| TypedViews.AsChange | varvig/internal/object/change.go:130-196 | The typed view of a change, and an error exactly when type, timestamp or a list is malformed |
| Vectors.TagsWritten | varvig/internal/object/object.go:68-76 | Tag by tag, the fields NewChange writes and no others |
| Vectors.ReadableChange | varvig/internal/object/change.go:130-196 | A change can be read exactly if its type is 3 and its timestamp and lists, where present, are well formed; no field is required |
| Vectors.TagsRead | varvig/internal/object/change.go:130-196 | Tag by tag, the single values AsChange reads: exactly the tree, intent and fulfilled intent that stand there, empty ids as none, an absent text as empty |
| Vectors.ListsRead | varvig/internal/object/change.go:130-196 | The lists and the timestamp AsChange reads: ascending ids, none where the tag is absent, an int64 time, 0 where it is absent |
| TypedViews.ChangeRoundTrip | varvig/internal/object/change.go:77-196 | A change reads back with lists sorted and deduplicated; nothing else differs if and only if no optional id is empty, and an absent tree stays apart from an empty one |
| TypedViews.EmptyProvenanceIsLost | varvig/internal/object/change.go:154-156 | A change with an empty provenance id reads back with none |
| TypedViews.WriteAndRead | varvig/internal/object/change.go:77-196 | NewChange, Encode, Decode and AsChange as run one after the other give the change back in canonical form |
| TypedViews.ChangeFieldsCanonical | varvig/internal/object/change.go:77-127 | The bytes ignore order and repetition of parents and artifacts |
| TypedViews.ChangeBytesDecide | varvig/internal/object/change.go:77-196 | Two changes have the same bytes exactly when they differ at most in the order and repetition of parents and artifacts |
| TreeViews.NewTree | varvig/internal/object/tree.go:34-53 | Panics exactly on a repeated name; otherwise encodes the entries sorted by name |
| TreeViews.TreeEntries | varvig/internal/object/tree.go:57-113 | Accepts exactly the encodings of entry lists with ascending names; modes are narrowed to 32 bits |
| Vectors.ReadableTree | varvig/internal/object/tree.go:57-113 | A tree can be read exactly if its type is 2 and its field 1 is there and holds an entry list, whose entries are shown with their modes cut to 32 bits |
| TreeViews.TreeRoundTrip | varvig/internal/object/tree.go:34-113 | A tree reads back as its entries sorted by name |
| TreeViews.TreeReencodes | varvig/internal/object/tree.go:57-113 | Encoding what was read gives the exact bytes if and only if every mode on the wire is below 2^32 |
| TreeViews.WideModeIsCut | varvig/internal/object/tree.go:57-113 | An entry of mode 2^32 reads back with mode 0, and its list is written back with other bytes |
| Delta.ReadSize | varvig/internal/gitobj/pack.go:286-301 | The size at a position, in int64 with its wrap-around, or no complete size stands there |
| Delta.CopyExpressed | varvig/internal/gitobj/pack.go:315-335 | Every 32-bit offset and 24-bit size has operands, 0x10000 being written as no size at all |
| Delta.ReadCopy | varvig/internal/gitobj/pack.go:315-331 | The operands present are exactly those flagged, least significant first; reading past the end is a panic |
| Delta.RunInstructions | varvig/internal/gitobj/pack.go:311-345 | Finds the instructions a byte string encodes and what they emit, or the one it stops at after those that run, and why |
| Delta.StopsOnce | varvig/internal/gitobj/pack.go:311-345 | Instructions can stop for one reason only, however they are read |
| Delta.ApplyDelta | varvig/internal/gitobj/pack.go:284-350 | Succeeds exactly on the deltas that fit the base, with what their instructions emit; panics exactly where both sizes are there, the first is the base's, and the second is negative or instructions in range are followed by a copy cut short |
| Delta.NegativeSizePanics | varvig/internal/gitobj/pack.go:310-310 | A well-formed delta with a declared result size of -2^63, on which the source panics |
| Delta.MissingOperandPanics | varvig/internal/gitobj/pack.go:315-321 | A copy that announces an operand byte and ends, on which the source panics |
| Delta.PatchedOfEncoded | varvig/internal/gitobj/pack.go:284-350 | Encoding in-range copies and inserts and applying them gives their concatenation; every success has the declared length |
| PackLaws.CopyBytes | varvig/internal/gitobj/pack.go:315-335 | The first byte of a copy and what its seven optional bytes add up to, byte by byte |
| PackLaws.SmallDelta | varvig/internal/gitobj/pack.go:284-350 | The delta 05 08 90 05 03 and three exclamation marks makes hello!!! of hello |
| PackLaws.WhyItStops | varvig/internal/gitobj/pack.go:311-345 | Which error an instruction gives: 0 is reserved, a literal needs its bytes, a copy its operand bytes and a range inside the base |
| Delta.DeltaInjective | varvig/internal/gitobj/pack.go:284-350 | A byte string is the encoding of at most one delta |
| Offsets.ParseOfsOffset | varvig/internal/gitobj/pack.go:248-264 | Reads the one complete encoding that starts a string, exactly for all distances in int64 range; length 0 exactly when there is none |
| Offsets.OfsInjective | varvig/internal/gitobj/pack.go:248-264 | Two complete encodings of one distance are the same bytes |
| Offsets.OfsRoundTrip | varvig/internal/gitobj/pack.go:248-264 | Every distance has a complete encoding that stands for it |
| PackLaws.OffsetBytes | varvig/internal/gitobj/pack.go:248-264 | The distances that one, two and three bytes stand for |
| PackHeader.ParseObjHeader | varvig/internal/gitobj/pack.go:226-245 | Reads the header that ends at the first byte without the continuation bit, its type and its size in int64; length 0 exactly when there is none; every shortest header of a size below 2^63 is read as written |
| PackHeader.HeaderRoundTrip | varvig/internal/gitobj/pack.go:226-245 | Every type and size has a complete header that says them |
| Pack.MeansUnique | varvig/internal/gitobj/pack.go:63-163 | A pack entry has at most one meaning, however its chain is followed |
| PackLaws.TypeCodes | varvig/internal/gitobj/pack.go:20-43 | Types 1 to 4 mean a commit, a tree, a blob and a tag with the inflated bytes as body; any other type that is no delta means nothing |
| PackLaws.OfsDelta | varvig/internal/gitobj/pack.go:112-131 | A type 6 entry means what its delta makes of the entry at its base offset in the same pack, and nothing else |
| PackLaws.RefDelta | varvig/internal/gitobj/pack.go:112-140 | A type 7 entry means what its delta makes of the object with its base oid, loose or in any pack, and nothing else |
| Pack.Resolve | varvig/internal/gitobj/pack.go:112-153 | One entry of a pass: its meaning, or no base yet, or proof that it has no meaning |
| Pack.Pass | varvig/internal/gitobj/pack.go:106-154 | One pass keeps everything resolved right; a pass without progress leaves only entries that wait |
| Pack.Stuck | varvig/internal/gitobj/pack.go:155-160 | Entries that wait when nothing progresses have no meaning: their chains are not grounded |
| Pack.LoadPacks | varvig/internal/gitobj/pack.go:63-163 | Terminates; succeeds exactly when every chain is grounded and every delta applies; the result is exactly the meanings of the entries |
| Pack.OrderIrrelevant | varvig/internal/gitobj/pack.go:63-163 | Renumbering the packs and reordering their entries changes neither whether everything resolves nor the objects it resolves to |
| GitTree.TreeLessIsLess | varvig/internal/gitobj/gitobj.go:98-122 | On names without '/' and NUL, treeLess is the lexicographic order of the names with '/' or NUL appended |
| GitTree.TreeLessTotal | varvig/internal/gitobj/gitobj.go:98-122 | And so a strict total order on names with their kind |
| GitLaws.DirectoryOrder | varvig/internal/gitobj/gitobj.go:98-122 | Around a directory a: a.b stands before it and a0 after it; a file a would stand before both |
| GitTree.DecodeTree | varvig/internal/gitobj/gitobj.go:125-150 | Accepts exactly the bodies made of entries, and gives those entries |
| GitTree.EncodeTree | varvig/internal/gitobj/gitobj.go:82-96 | The body of the entries as the sort arranges them, whatever it does with entries that compare equal |
| GitLaws.TreeWrittenOut | varvig/internal/gitobj/gitobj.go:82-96 | The body of a directory entry and a file entry, byte by byte |
| GitTree.EncodeAllInjective | varvig/internal/gitobj/gitobj.go:82-150 | A body is at most one list of entries: encoding and decoding undo each other |
| GitTree.SortedInGitOrder | varvig/internal/gitobj/gitobj.go:82-96 | Whatever sort is used, plain distinct names have one arrangement: the one that ascends in Git's order |
| GitTree.InsertionSortArranges | varvig/internal/gitobj/gitobj.go:82-96 | What is asked of the sort can be met: an insertion sort under treeLess does |
| CommitText.DecodeCommit | varvig/internal/gitobj/gitobj.go:164-194 | Tree, parents in order, identity line and message of a commit body; an error without a blank line or with a bad oid |
| CommitText.EncodeCommit | varvig/internal/gitobj/gitobj.go:217-228 | The body of a synthesized commit |
| CommitText.CommitRoundTrip | varvig/internal/gitobj/gitobj.go:164-228 | A synthesized commit decodes to the tree, parents, identity line and message it was written from if and only if the identity holds no line feed |
| CommitText.HexRoundTrip | varvig/internal/gitobj/gitobj.go:49-60 | Hex decodes to the bytes it was written from |
| GitLaws.HeaderLinesRead | varvig/internal/gitobj/gitobj.go:171-192 | How each kind of header line is read, and that any other line is skipped |
| GitLaws.CommitWritten | varvig/internal/gitobj/gitobj.go:217-228 | The text of a synthesized commit with one parent, line by line |
| GitLaws.HexRead | varvig/internal/gitobj/gitobj.go:52-60 | Hex is read in both cases, in whole bytes only |
| GitImport.ParseOctalLoop | varvig/internal/gitport/gitport.go:321-330 | The octal value of the leading digits, in uint32 |
| GitLaws.OctalDigits | varvig/internal/gitport/gitport.go:321-330 | A mode is read as the number its leading octal digits write, modulo 2^32, whatever follows them |
| GitImport.Importer.Object | varvig/internal/gitport/gitport.go:219-243 | With its memo, imports exactly what the recursion without one does; everything referred to is in the store; fails exactly when the recursion fails |
| GitImport.Importer.Tree | varvig/internal/gitport/gitport.go:245-268 | The tree object of a Git tree, children first; fails on a repeated name, a bad body or a child that fails |
| GitImport.Importer.Commit | varvig/internal/gitport/gitport.go:270-299 | The change of a commit with the commit's exact body attached |
| GitLaws.ImportedBlob | varvig/internal/gitport/gitport.go:228-229 | An imported blob is the blob of the same content |
| GitLaws.ImportedTree | varvig/internal/gitport/gitport.go:245-268 | The view of an imported tree: one entry for each Git entry, sorted by name, each with its name, its octal mode, its kind and the id its object is imported as |
| GitLaws.ImportedCommit | varvig/internal/gitport/gitport.go:270-299 | The view of an imported commit: the imported tree, exactly the imported parents, author and time, the message and fulfilled intent of its trailer, nothing else; and its exact body beside them |
| GitImport.SynthesizedReads | varvig/internal/gitport/gitport.go:134-150 | A native change's commit reads back whole if and only if its identity line holds no line feed, and then with its tree, its parents in order and its message |
| GitExport.Exporter.Object | varvig/internal/gitport/gitport.go:62-87 | With its memo, exports exactly what the recursion without one does; the export of the object and of everything it refers to is in the Git store |
| GitExport.Exporter.Tree | varvig/internal/gitport/gitport.go:89-103 | The Git tree of a tree object, children first |
| GitExport.Exporter.Change | varvig/internal/gitport/gitport.go:105-151 | An imported commit's own body if the tree still matches it, an error if not, and a synthesized commit for a native change |
| GitLaws.ExportedBlob | varvig/internal/gitport/gitport.go:71-75 | A blob is written with its content |
| GitLaws.ExportedNative | varvig/internal/gitport/gitport.go:105-151 | A change that was never in Git becomes a commit that decodes to the exported tree, the exported parents in order, its identity line and its message |
| GitRoundTrip.ModeRoundTrip | varvig/internal/gitport/gitport.go:307-330 | A mode survives import and export if and only if it is one of the four supported ones |
| GitRoundTrip.GitOrderedIsAscending | varvig/internal/gitobj/gitobj.go:82-96 | On plain names, sorting by name and then by Git's order gives the entries back exactly when they were in Git's order, whatever sort is used |
| GitRoundTrip.RoundTrip | varvig/internal/gitport/gitport.go:62-299 | For whatever was imported, the export succeeds exactly when every tree recorded by a commit is faithful, and gives the original oid exactly when the object is faithful too |
| GitRoundTrip.CommitIdentity | varvig/internal/gitport/gitport.go:121-132 | A commit comes back under its own oid or the export fails, and it is known which |
| GitRoundTrip.GroupWritableFails | varvig/internal/gitport/gitport.go:121-132 | A commit of a tree with a file of mode 100664 is imported and cannot be exported |
| GitRoundTrip.WellMadeIsFaithful | varvig/internal/gitport/gitport.go:89-151 | Where all trees have plain names, supported modes and Git's order, every import is exact |
| GitRoundTrip.ImportThenExport | varvig/internal/gitport/gitport.go:41-299 | Import and then Export as run, with both memos: the export succeeds exactly when the head is exportable and gives its oid exactly when it is faithful, which for a commit is the same |
| NativeRoundTrip.ModeSurvives | varvig/internal/gitport/gitport.go:307-330 | An entry's kind and mode survive export and import if and only if an import could have written them |
| NativeRoundTrip.NativeSurvives | varvig/internal/gitport/gitport.go:62-268 | The other way round: a tree of files that was exported imports under its own id if and only if all its objects have only their one field, its names hold no NUL and its modes are native |
| TreeDiff.PartOf | varvig/internal/affected/affected.go:40-63 | The files of a flattened tree split by first segment, each part being those of one entry |
| TreeDiff.Collect | varvig/internal/affected/affected.go:152-167 | Appends every file path under an entry, each once; any entry but a blob is walked as a tree, and fails exactly when it cannot be |
| TreeDiff.DiffEntry | varvig/internal/affected/affected.go:111-140 | One name against the same name, for entries of any kind: appends what the walk lists under it, or fails exactly when that is an error |
| TreeDiff.DiffInto | varvig/internal/affected/affected.go:96-150 | Appends what the walk of two trees lists, each path once, and fails exactly when one name does; subtrees with equal ids are not read |
| TreeDiff.DiffTrees | varvig/internal/affected/affected.go:85-94 | What the walk lists, sorted and none twice; an error exactly when the walk has one |
| TreeDiff.TreesExact | varvig/internal/affected/affected.go:85-167 | On trees that can be flattened, the walk lists exactly the added, content-changed and removed paths of the flattened maps if and only if no name it compares has an entry that is neither blob nor tree, save one both sides have with one id that names a tree without files |
| TreeDiff.DiffIsComparison | varvig/internal/affected/affected.go:85-167 | On trees of blobs and trees with plain names the diff never fails and is the plain comparison, file and directory switches included |
| TreeDiff.DiffSays | varvig/internal/affected/affected.go:40-94 | Path by path on such trees: added are those only the target has, removed those only the base has, modified those both have with other content ids |
| TreeDiff.UnchangedOther | varvig/internal/affected/affected.go:131-140 | An unchanged entry of another kind is an error unless its id is a readable tree, and then lists the paths of that tree as removed and as added |
| TreeDiff.UnchangedOtherFails | varvig/internal/affected/affected.go:131-140 | Two trees that differ in one added file and share an entry of kind 5 naming a blob: the diff is an error |

## Left out

- Files, sockets, zlib, wire framing, temporary files, locks: I/O. A store is a map and a ref a cell with compare-and-swap.
- Hash and signature algorithms: the hashes are parameters; signing is modelled as the bytes it covers.
- Ref-name and id validity rules and the set of replicated prefixes: parameters of the ref store.
- Reflog timestamps: the log of a ref store keeps who moved what; expiry is modelled in Gc with the time as a parameter.
- Pins: servePin checks only that the object is present, so pinned ids carry no closure guarantee and are not in the model.
- External artifact reports and capability checks of the transfer: they add messages, not objects.
- Hooks, regenerators and analyzers: an arbitrary veto and an arbitrary function; their WebAssembly runtime is not part of this model.
- Merge of three or more bases: modelled as the code does it, with an empty base for the later ones; what that gives is stated, not that it is the expected result.
- MergeBase and the command line, MCP, daemon, cache and graph layers: wrappers over what is modelled.
- Ancestor maps are keyed by id, not by its hex form, so the lookup that turns hex back into ids is folded away.
- Allocation limits of Go slices and maps; recursion depth.
- parsePack and inflation: Pack starts from the raw entries, whose offsets are distinct because they are read at increasing positions.
- Gc.CollectRoots: how often an id that several refs or log entries name is counted among the roots of the report.
- parseIdent, normalizeIdent and the Varvig-Fulfills trailer: parameters of GitImport.Port, since they use Unicode-aware trimming and number parsing; no claim that a trailer survives.
- Git refs, packed-refs and the repository layout around import and export.
- path.Join cleaning in the tree diff: names are required to be plain segments, on which it only joins.
- The listing a push pass takes is the peer's own: a peer that lies to a push pass has its swap refused, which is a failed push.
- Changes in the way Varvig, Git, Varvig: an imported commit always carries the body it was made from, which a native change does not, so only trees and blobs can come back as they were.
- Bytes of conflict markers glued to a line without a newline at the end of a file: the marker lines are as the code writes them, and no claim is made about reading them back.
