# A verified model of the backup library's core

This project models the core of the rustic backup library in Dafny and proves what the library is
for: a published snapshot is complete, the archived tree is the source tree, the traversal of trees
is exact, packs are well formed, merging, copying and searching do what they say. `dafny verify
dfyconfig.toml` checks all of it.

Each module follows one part of the library.

* `Repo` has the shared values: names, nodes, trees and blob ids. An id stands for the bytes it is the
  hash of, and bytes may be the serialization of a tree.
* `Publish` is the backup as a step system: walk, archivers, two packers with their duplicate checks
  and file writers, the shared indexer, and the order in which everything is finalised. Steps of
  different threads interleave freely and every stage may fail.
* `Progress` is about the runs of that system: none can get stuck, and what a run can lose when a condition
  of safety fails.
* `History` says what a run of that system stores, in terms of its steps: files with their chunks in order,
  the tree of the events, and no blob that is already known. `Backup` puts the pipeline and the walk
  together, and `BackupRuns` has a run for every source.
* `Streamer` is the traversal of trees with loader threads, a visited set and counters.
* `ListWalk` and `WalkTree` are the iterative directory walk, refined from the recursive one; `SourcePaths` says
  what the recursive one finds, path by path.
* `TreeBuild` and `PreOrder` turn entries into open and close events and these into trees.
* `Parent` and `ParentWalk` are the lookups in earlier snapshots with moving cursors; `ParentAnswers` says what
  they answer.
* `PackFormat` is the pack file and its header, `PackCheck` its checker, and `Packer` the packer with its
  32-bit sizes. `Coalesce` joins nearby reads and cuts them up; `Copy` is the closure of a copy and
  `CopyRun` the copy as a step system.
* `Merge` is the heap-driven merge of trees; `Search` and `Matching` are the memoised searches,
  and `SearchMeaning` is what they find.
* `Chunker` and `Polynomial` are the content-defined chunker and its arithmetic over F_2; `ChunkBoundaries` says
  where chunks end.
* `Escape`, with `EscapeSyntax`, and `OpenFile` are the file name codec and random access to file contents.
* `Retention`, with `RetentionRule`, and `HotCold` are the keep rules and the two-store backend.
* `NameOrder` is the order of names.

Code that updates fields or runs loops is modelled by classes and methods, each proved against a
function of its inputs or of the old state (`Enqueue`, `Next`, `Add`, `Step`, `AddItem`, `Cut`, ...);
what the library promises is then proved about that function or about all runs. What such a function computes is
stated once more without it, by paths, places, names and counts: a wrong test, a lost part or another order in it
contradicts some lemma.

Where a promise fails for some input the model keeps the code and says exactly when it holds:

* The duplicate check of the packer ignores the blob type. A backup is safe as long as no chunk it sends has
  the id of a tree it sends, and no tree is skipped for a matched parent that is not in the index
  (`Publish.PublishSafety`). Both are needed: a chunk whose id is only known as that of a tree is lost
  (`Progress.CollisionLosesData`), and so is a tree that is missed (`Progress.MissedTreeLoses`). A copy
  loses a tree whose id is also that of a copied data blob (`CopyRun.CopyCompleteIff`).
* `TreeIterator` ends if and only if the paths are chained (`TreeBuild.EndsIffChained`).
* `mulmod` shifts its left operand in 64 bits, which loses bit 63 (`Polynomial.MulModExact`).
* The content-defined chunker needs a minimum chunk size that covers the window of 64 bytes, and that is at
  least 4095 bytes or equal to the maximum (`Chunker.SafeIff`).
* `can_coalesce` adds in 32 bits (`Coalesce.CanCoalesceIff`), and packs are sound for packed blobs of at most
  20561484 bytes (`Packer.BoundIsExact`).
* The size at which packs are sent is computed in 32 bits and can overflow (`Packer.LimitIsMeant`).
* An empty blob under compression is not read back as it was (`PackCheck.ReadBackIff`), and a size hint for
  the header that exceeds the pack underflows (`PackFormat.HeaderFromFile`).
* A search for a path without names panics (`Search.FindNodesFromPath`).
* The config file is written to the cold store only and read from the hot one
  (`HotCold.ListedIsReadable`); a write and a remove of one file must not overlap (`HotCold.OverlapLoses`).

## Model

| member | source | states |
|---|---|---|
| `Publish.PublishSafety` | crates/core/src/archiver.rs:233-283 | at every point of every run of the pipeline, for every interleaving and every failure, a saved snapshot reaches only trees and data blobs that a saved index maps to a pack already in the backend; provided no chunk sent in the run has the id of a tree sent in it, and no tree is skipped for a matched parent that is neither indexed nor on its way |
| `Publish.StepKeeps` | crates/core/src/blob/packer.rs:259-289 | every step of the walk, the archivers, both packers, both file writers, the indexer and the end of the backup keeps the invariant (what the trees under construction refer to is stored or on its way, packs are written before they are indexed, snapshots are restorable) |
| `Publish.RunKeeps` | crates/core/src/archiver.rs:138-283 | hence every state of a run has that invariant |
| `Publish.PackingKeeps` | crates/core/src/blob/packer.rs:456-527 | the invariant is kept by the two duplicate checks of a packer, by packing and saving, and by a failing packer or writer |
| `Publish.WritingKeeps` | crates/core/src/blob/packer.rs:784-842 | the invariant is kept by writing a pack, by indexing it, and by saving an index file |
| `Publish.ChunkKeeps` | crates/core/src/archiver/file_archiver.rs:166-196 | the invariant is kept when a worker handles a chunk, skipped or sent (the content of the file is the matter of `History.ContentInOrder`) |
| `Publish.CloseDirKeeps` | crates/core/src/archiver/tree_archiver.rs:163-199 | the invariant is kept when a directory is finished, whether its tree is sent, known to the index or equal to its parent |
| `Publish.CloseRootKeeps` | crates/core/src/archiver/tree_archiver.rs:218-228 | the invariant is kept when the root tree is finished |
| `Publish.EndingKeeps` | crates/core/src/archiver.rs:264-276 | the invariant is kept by finalising data packer, tree packer and indexer in that order, and by giving up at any point |
| `Publish.SnapshotKeeps` | crates/core/src/archiver.rs:280-283 | the invariant is kept by saving the snapshot: everything its tree reaches is stored by then |
| `Progress.MoveWorks` | crates/core/src/blob/packer.rs:259-289 | the stages never block each other: in every state without a failure some step is possible that causes none and leaves less to do |
| `Progress.CanPublish` | crates/core/src/archiver.rs:233-283 | from every reachable state without a failure, whatever is in the channels, and for every parent of the root tree, some run drains the pipeline and publishes the snapshot |
| `Progress.CollisionLosesData` | crates/core/src/blob/packer.rs:264-281 | the condition on ids is needed: from every reachable state of the walk without a failure, for every id that the indexer knows and that is in no data pack, some run publishes a snapshot that lacks this chunk |
| `Progress.CollisionHappens` | crates/core/src/blob/packer.rs:264-281 | such a state is reached: by an empty directory and a file with the serialization of the empty tree |
| `Progress.MissingTreeLoses` | crates/core/src/archiver/tree_archiver.rs:178-198 | from every reachable state without a failure in which a step finishes a tree that is in no pack and that the archiver skips for its parent, or the packer for the index, some run publishes an incomplete snapshot |
| `Progress.MissedTreeLoses` | crates/core/src/archiver/tree_archiver.rs:178-183 | the condition on parents is needed: that holds for every tree that is missed in the sense of `Publish.PublishSafety` |
| `Progress.MissedTreeHappens` | crates/core/src/archiver/tree_archiver.rs:178-183 | and from the start a tree can be missed |
| `History.FilesAreWhole` | crates/core/src/archiver/file_archiver.rs:166-196 | in every state of every run the chunks handled and the chunks to come of each open file are, in order, the chunks of the file that was begun |
| `History.ContentInOrder` | crates/core/src/archiver/file_archiver.rs:173-196 | a file that is done goes to the tree archiver with exactly its chunks, in order, as content |
| `History.NodesConserved` | crates/core/src/archiver.rs:216-237 | every node handed over is in the tree archiver or waits for it: none is lost and none doubled |
| `History.TreeIsOfEvents` | crates/core/src/archiver/tree_archiver.rs:92-119 | in every state of every run the trees, finished and not, are what the plain archiver makes of the nodes added and the directories opened and closed so far |
| `History.PublishedIsTree` | crates/core/src/archiver.rs:264-283 | a snapshot is there if and only if a step saved one; it is then the tree of the events of the run, with exactly the nodes handed over |
| `History.OnlyNewIsPacked` | crates/core/src/archiver/file_archiver.rs:173-187 | every blob in a pack is a chunk of a file that was read or a tree that was finished, was not in the index at the start, and is in that pack once |
| `History.KnownIsNotRepacked` | crates/core/src/blob/packer.rs:259-289 | a blob that the indexer knows and the packer does not hold goes into no further pack, from any state of any run on |
| `Backup.BackupPublishesSource` | crates/core/src/archiver.rs:160-283 | from one root, for every interleaving: if the tree archiver took in the events of the walk, the snapshot is the source tree but for the contents of files, and its nodes are those that the workers handed over |
| `BackupRuns.BackupHappens` | crates/core/src/archiver.rs:160-283 | for every source, every index at the start and any chunks of the files, some run takes in exactly the events of the walk, each file with its chunks as content, and publishes |
| `Streamer.TreeStreamerOnce.AddPending` | crates/core/src/blob/tree.rs:736-752 | refines `Enqueue`: an id is queued and counted for its root only the first time |
| `Streamer.TreeStreamerOnce.Received` | crates/core/src/blob/tree.rs:779-807 | refines `Deliver`: all subtrees are queued before the counter of the root goes down, and a root with nothing left is finished once |
| `Streamer.InitInv` | crates/core/src/blob/tree.rs:689-718 | the constructor starts in a state with the invariant |
| `Streamer.StepKeeps` | crates/core/src/blob/tree.rs:664-810 | every action of the constructor, of any loader thread and of the caller keeps the invariant, in any order |
| `Streamer.RunKeeps` | crates/core/src/blob/tree.rs:664-810 | hence every run keeps it |
| `Streamer.CountersExact` | crates/core/src/blob/tree.rs:736-752 | in every reachable state the counter of each root is the number of its trees queued or in flight, no id is requested twice, and every yielded path leads from its root to its tree |
| `Streamer.EndIsExact` | crates/core/src/blob/tree.rs:759-763 | all roots count as finished if and only if no work is left |
| `Streamer.YieldsReachableOnce` | crates/core/src/blob/tree.rs:758-810 | an error-free run that ends has yielded every tree reachable from the roots exactly once, shared subtrees and repeated roots included |
| `Streamer.NeverBlocks` | crates/core/src/blob/tree.rs:765-777 | as long as the caller is not done some action is possible, and a caller that waits is waiting for a loader that can move |
| `Streamer.StepWorks` | crates/core/src/blob/tree.rs:664-810 | every action uses up some of the work that the roots and the reachable trees bound |
| `Streamer.RunsEnd` | crates/core/src/blob/tree.rs:664-810 | hence every run is finite |
| `ListWalk.ListAdapter.constructor` | crates/core/src/backend/list.rs:200-258 | starts with the whole recursive walk of the distinct roots ahead of it, each root where it first occurs |
| `ListWalk.ListDirChildren` | crates/core/src/backend/list.rs:372-435 | refines `Children`, the listing of one directory, which `SourcePaths.ChildrenIff` determines |
| `ListWalk.ListAdapter.ListPending` | crates/core/src/backend/list.rs:372-435 | listing the pending directory: its children go on the stack, or the error is reported |
| `ListWalk.ListAdapter.TakeChild` | crates/core/src/backend/list.rs:476-527 | one child: skipped, yielded, refused for its depth, or yielded and remembered for descending unless it was visited |
| `ListWalk.ListAdapter.Proceed` | crates/core/src/backend/list.rs:455-529 | one turn of the loop yields the next item of the recursive walk or makes progress towards it |
| `ListWalk.ListAdapter.Next` | crates/core/src/backend/list.rs:455-529 | each call gives the next item of the recursive filtered pre-order walk, and None when nothing is left |
| `ListWalk.ListAdapter.Collect` | crates/core/src/backend/list.rs:455-529 | the iteration ends, endless nesting included, with exactly the items and the directory listings of the recursive walk |
| `WalkTree.RootsOnce` | crates/core/src/backend/list.rs:233-243 | for any roots, nested in one another or not, no directory is listed twice |
| `WalkTree.WalkLists` | crates/core/src/backend/list.rs:372-529 | the walk of a directory is the pre-order listing of its filtered tree, siblings sorted by name |
| `WalkTree.TreeIsForest` | crates/core/src/backend/list.rs:372-435 | that tree has one node per name in strictly ascending order at every level |
| `WalkTree.BackupStoresSource` | crates/core/src/archiver.rs:160-250 | from one root: walk, tree iterator and tree archiver together store exactly the source tree, below the directories on the way to the root; nothing for an empty source |
| `SourcePaths.ChildrenIff` | crates/core/src/backend/list.rs:372-435 | nothing is listed if the first marker not absent is there, an error if its test fails or the directory cannot be read without a marker, else exactly the entries that have a name and pass the tests, as often as the source has them, in the order of names |
| `SourcePaths.InSourceIff` | crates/core/src/backend/list.rs:372-529 | a path is in the tree of the source if and only if every component is listed and wanted, the inner ones are directories, and it is within the depth limit; the node has name, type and metadata of the entry |
| `SourcePaths.ReportsIff` | crates/core/src/backend/list.rs:455-529 | the walk reports an error if and only if a directory that it enters cannot be listed or one lies beyond the depth limit |
| `NameOrder.SortSorts` | crates/core/src/backend/list.rs:433-434 | sorting the children gives a permutation in order, strictly ascending for distinct names |
| `NameOrder.LessIs` | crates/core/src/backend/list.rs:433-434 | a name is less if and only if at the first place where the two differ it has ended or has the smaller character |
| `TreeBuild.TreeIterator.Pop` | crates/core/src/archiver/tree.rs:43-57 | cuts the current path before its last named component; false if there is none |
| `TreeBuild.TreeIterator.NextEvent` | crates/core/src/archiver/tree.rs:83-123 | refines `Next`, the event of one call as a function of path and pending item |
| `TreeBuild.EndsIffChained` | crates/core/src/archiver/tree.rs:83-123 | the iterator ends if and only if every path starts with the unnamed components of the path before it (all absolute, or all relative); otherwise it yields close events for ever |
| `TreeBuild.TreeArchiver.AddEvent` | crates/core/src/archiver/tree_archiver.rs:92-119 | refines `Add`; an error exactly when a tree ends with none open |
| `TreeBuild.Rebuild` | crates/core/src/archiver/tree_archiver.rs:92-119 | fed with the events, the archiver never finds its stack empty and holds the entries and the missing ancestors, in order |
| `TreeBuild.TreeHoldsEntries` | crates/core/src/archiver/tree.rs:83-123 | for every chained list of entries the finished tree, read in pre-order, is the list with the missing directories put in |
| `TreeBuild.FlattenInjective` | crates/core/src/archiver/tree_archiver.rs:92-119 | a tree is determined by its rows, so the previous statement fixes the tree |
| `PreOrder.ListingRows` | crates/core/src/archiver/tree.rs:83-123 | for the listing of a forest no directory is made up in between and none is opened twice |
| `PreOrder.ListingRoundTrip` | crates/core/src/archiver/tree_archiver.rs:218-228 | archiving the pre-order listing of any forest gives back the forest below the directories of its root, and nothing for the empty forest |
| `Parent.ParentTrees.constructor` | crates/core/src/archiver/parent.rs:88-117 | one cursor at the start of each parent tree that can be loaded, with their ids; the others are ignored; nothing on the stack |
| `Parent.ParentTrees.SeekTree` | crates/core/src/archiver/parent.rs:128-146 | moves one cursor past the smaller names and answers the node of that name |
| `Parent.ParentTrees.IsParent` | crates/core/src/archiver/parent.rs:162-192 | the lazy search stops at the first match and leaves later cursors where they are |
| `Parent.ParentTrees.SetDir` | crates/core/src/archiver/parent.rs:203-237 | all cursors move, the distinct subtrees found are opened, and the old cursors go on the stack |
| `Parent.ParentTrees.FinishDir` | crates/core/src/archiver/parent.rs:245-250 | the outer cursors come back; an error if and only if the stack is empty |
| `Parent.ParentTrees.Process` | crates/core/src/archiver/parent.rs:272-311 | refines `Step` for every event; what it answers is the matter of `ParentAnswers.FileAnswer` and `ParentAnswers.DirAnswer` |
| `Parent.IdsOnce` | crates/core/src/archiver/parent.rs:219-221 | sorting and removing repetitions leaves each subtree id exactly once |
| `Parent.StepAgrees` | crates/core/src/archiver/parent.rs:272-311 | one event: same answer as the full lookup, cursors behind the names asked for |
| `Parent.CursorsAgree` | crates/core/src/archiver/parent.rs:128-311 | on every run in which the names of each directory come in order, the cursors give the answers of a full lookup by name in every parent tree, and no missing subtree is unwrapped |
| `Parent.OutOfOrderMisses` | crates/core/src/archiver/parent.rs:128-146 | a concrete pair of lookups out of order that the cursors miss |
| `Parent.StackEmptyIff` | crates/core/src/archiver/parent.rs:245-250 | the stack is found empty if and only if some prefix of the events closes more than it opens |
| `Parent.DirectoryRestores` | crates/core/src/archiver/parent.rs:234-250 | a directory with any balanced contents leaves the outer cursors exactly where its own lookup put them |
| `ParentAnswers.LookupMeans` | crates/core/src/archiver/parent.rs:162-192 | unchanged if and only if some parent tree has an unchanged namesake, then the one of the first such tree; not found if and only if none has the name; else changed |
| `ParentAnswers.FileAnswer` | crates/core/src/archiver/parent.rs:290-307 | a file counts as unchanged if and only if all content of that namesake is in the index, and gets exactly that content; otherwise the node stays as it is, and is not found if the name is new or content is missing |
| `ParentAnswers.UnchangedIsKept` | crates/core/src/archiver/file_archiver.rs:112-117 | an unchanged file may be passed on without being read: its content is in the index of the start, and it reaches the tree archiver with the content of its parent |
| `ParentAnswers.DirAnswer` | crates/core/src/archiver/parent.rs:279-285 | a directory gets the subtree of the first unchanged namesake |
| `ParentAnswers.OpensBelow` | crates/core/src/archiver/parent.rs:203-237 | inside a directory the lookups start in the trees of all its namesakes, unchanged or not, that can be loaded, and in no others |
| `ParentAnswers.StartTrees` | crates/core/src/archiver/parent.rs:88-117 | the lookups start in exactly the given trees that can be loaded |
| `ParentWalk.SortedMeansOrdered` | crates/core/src/archiver/parent.rs:272-311 | events that build sorted trees ask for names in order and never close too much |
| `ParentWalk.BackupFindsParents` | crates/core/src/archiver.rs:215-226 | in a backup from one root, against any parent snapshots: every lookup agrees with the full search, nothing panics and the stack never runs empty |
| `PackFormat.LeRoundTrip` | crates/core/src/repofile/packfile.rs:40-86 | four little-endian bytes give back the number |
| `PackFormat.EntryIs` | crates/core/src/repofile/packfile.rs:88-130 | the bytes of a header entry, one by one |
| `PackFormat.ParseHeader` | crates/core/src/repofile/packfile.rs:228-243 | refines `FromBinary`: offsets are the running sum of the lengths modulo 2^32 |
| `PackFormat.HeaderRoundTrip` | crates/core/src/repofile/packfile.rs:388-397 | a written header parses, to the blobs it was written for if and only if these tile the pack (modulo 2^32) |
| `PackFormat.LayoutTiles` | crates/core/src/blob/packer.rs:615-657 | the blobs of a pack lie one behind the other from offset 0, with the ids and type added, and the size of the pack is contents plus header plus length field |
| `PackFormat.RangeHoldsBlob` | crates/core/src/blob/packer.rs:615-657 | the added bytes lie in the pack behind those before them; the range in the index is where they are if and only if they start below 2^32 |
| `PackFormat.HeaderFromFile` | crates/core/src/repofile/packfile.rs:259-331 | the header read from the end of a pack below 4 GiB is its index for every guess of its size that fits the file, and a larger guess underflows |
| `PackFormat.FromFileIff` | crates/core/src/repofile/packfile.rs:259-331 | for any file and guess: blobs are read if and only if guess and length field fit the file, the header there decodes to these blobs, and the sizes computed from them are those of the file |
| `PackCheck.ReadBackIff` | crates/core/src/backend/decrypt.rs:478-506 | a processed blob is typed, carries its hash as id, and is read back as it was if and only if it is not compressed, or not empty, or compression turns nothing into nothing |
| `PackCheck.CheckOffsets` | crates/core/src/commands/check.rs:484-507 | refines `OffsetErrors`, with the 32-bit running offset |
| `PackCheck.OffsetsRightIff` | crates/core/src/commands/check.rs:484-507 | the loop reports nothing if and only if the blobs tile the pack from the start (modulo 2^32) and have one type |
| `PackCheck.CheckIsSound` | crates/core/src/commands/check.rs:718-811 | if the offset loop and the check of the file report nothing, the index range of every blob lies in the file and holds what decrypts, decompresses and hashes to the id of the blob |
| `PackCheck.CheckPackIff` | crates/core/src/commands/check.rs:718-811 | the check passes if and only if size and hash of the file are right, the length field is that of the header, the header decodes to the sorted index, and each blob is read back with its id |
| `PackCheck.PackPasses` | crates/core/src/commands/check.rs:718-811 | every pack of genuine blobs below 4 GiB passes the offset loop and the check of the file, down to the hashes of its blobs, whatever the sort does with ties |
| `PackCheck.PackPassesIff` | crates/core/src/commands/check.rs:718-811 | a pack of genuine blobs passes the check of the file if and only if its size fits 32 bits |
| `Packer.RootFits` | crates/core/src/blob/packer.rs:134-144 | the 32-bit cast of the integer square root loses nothing |
| `Packer.LimitIsMeant` | crates/core/src/blob/packer.rs:134-144 | the size at which a pack is sent is root times factor plus default, cut off at the limits, if and only if that fits 32 bits or what is left of it still reaches the limits |
| `Packer.LimitGrows` | crates/core/src/blob/packer.rs:134-144 | without overflow it grows with the repository and is at least the default or the limits |
| `Packer.RawPacker.constructor` | crates/core/src/blob/packer.rs:433-450 | an empty pack and nothing sent |
| `Packer.RawPacker.Has` | crates/core/src/blob/packer.rs:763-765 | true if and only if the pack under construction has the id |
| `Packer.RawPacker.WriteData` | crates/core/src/blob/packer.rs:589-601 | appends and adds the length modulo 2^32, or fails for data of 4 GiB |
| `Packer.RawPacker.Collect` | crates/core/src/blob/packer.rs:615-657 | an id that is there is ignored, any other blob is appended with its offset; the statistics count it |
| `Packer.RawPacker.TakeData` | crates/core/src/blob/packer.rs:748-761 | the finished pack is handed out, an empty one started, and the sizer learns the size that the index gives |
| `Packer.RawPacker.Save` | crates/core/src/blob/packer.rs:505-527 | what is sent is the pack of the collected items: contents, encrypted header, header length |
| `Packer.RawPacker.AddRaw` | crates/core/src/blob/packer.rs:479-492 | for every blob refines `AddItem`, in which sizes and offsets wrap around at 2^32; an error if and only if the blob is new and has 4 GiB |
| `Packer.RawPacker.Finalize` | crates/core/src/blob/packer.rs:456-464 | a started pack is sent; the statistics are handed out and cleared |
| `Packer.RoomForOne` | crates/core/src/blob/packer.rs:659-671 | behind any pack that is still open a blob of up to 20561484 bytes, in particular one of 16 MiB, fits below 2^32, header included |
| `Packer.FullestIsReached` | crates/core/src/blob/packer.rs:659-671 | a run with blobs that all fit reaches the fullest open pack |
| `Packer.BoundIsTight` | crates/core/src/blob/packer.rs:58-61 | behind the fullest open pack one byte more overflows 32 bits |
| `Packer.BoundIsExact` | crates/core/src/blob/packer.rs:58-61 | for every n: all packs of all runs with blobs of at most n bytes are sound if and only if n is at most 20561484 |
| `Packer.RunKeeps` | crates/core/src/blob/packer.rs:479-527 | every sequence of calls keeps packs sound and the open pack within its limits |
| `Packer.RunConserves` | crates/core/src/blob/packer.rs:615-657 | the packs hold, in order, the added blobs except those whose id was already there |
| `Packer.PacksAreSound` | crates/core/src/blob/packer.rs:456-527 | after any calls and the end: every pack has distinct ids and fits 32 bits, every added id is in a pack, every packed blob was added |
| `Packer.PacksAreFilled` | crates/core/src/blob/packer.rs:659-671 | unless it expires, every pack sent before the end has the largest number of blobs or at least the size that default and limits demand |
| `Packer.ExpiredIsSent` | crates/core/src/blob/packer.rs:659-671 | an expired pack is sent with the next blob; any other stays open while there is room |
| `Packer.SizerCounts` | crates/core/src/blob/packer.rs:191-193 | in every run the sizer has grown by the sizes of the packs sent |
| `Packer.GoodPackPasses` | crates/core/src/commands/check.rs:718-811 | each such pack of genuine blobs passes the checker and is read back from its own header |
| `Coalesce.CanCoalesceIff` | crates/core/src/blob.rs:185-190 | for reads below 4 GiB the 32-bit test is the meant one, except that nothing is joined to a read ending in the last 256 KiB |
| `Coalesce.NoOverflow` | crates/core/src/blob.rs:185-196 | for reads below 4 GiB one addition can overflow, and does if and only if the first read ends in the last 256 KiB below 2^32; otherwise the test is the meant one |
| `Coalesce.AppendGood` | crates/core/src/blob.rs:192-196 | joining keeps a read inside its pack, within 40 MiB, with ordered blobs and holes of at most 256 KiB |
| `Coalesce.CopyRead` | crates/core/src/blob/packer.rs:970-1007 | every slice of a read is in bounds and holds exactly the bytes of its blob |
| `Coalesce.CopyReadsAll` | crates/core/src/commands/copy.rs:150-173 | after joining, each request is in the reads exactly as often as it was made, all reads are good, and no read could take in the next blob |
| `Coalesce.NoByteTwice` | crates/core/src/commands/copy.rs:155-159 | sorted requests that do not overlap give reads that do not overlap |
| `Copy.FindNeeded` | crates/core/src/commands/copy.rs:70-91 | the loop collects the roots and subtrees, and the file contents, that the destination does not have |
| `Copy.NeededIsReachable` | crates/core/src/commands/copy.rs:70-91 | roots and subtrees of the streamed trees are all the reachable trees |
| `Copy.StreamedAreTrees` | crates/core/src/commands/copy.rs:77-79 | whatever is streamed is a tree |
| `Copy.NeededCompleteIff` | crates/core/src/commands/copy.rs:51-91 | with exactly the needed blobs that the source index has, less the trees with the id of a data blob, the snapshots are complete if and only if all missing data is there and no such tree exists |
| `Copy.CompleteMeans` | crates/core/src/commands/copy.rs:70-91 | complete means: every root has its tree in the index, and so have, at every level below, all directories their trees and all files their contents |
| `CopyRun.SavedExactly` | crates/core/src/commands/copy.rs:93-137 | for every interleaving of workers, packer, writer and indexer: once the index is saved, exactly the data blobs, and exactly the trees whose id is not that of a copied data blob, are in indexed packs that are written |
| `CopyRun.CopyCompleteIff` | crates/core/src/commands/copy.rs:51-147 | after a run of stream and copy to the end every copied snapshot is complete in the destination if and only if the source index has all missing data blobs and none of them has the id of a missing tree; only missing reachable blobs are added |
| `CopyRun.CopyCanEnd` | crates/core/src/commands/copy.rs:93-147 | from every reachable state without a failure some run ends with the index saved |
| `Merge.FillHeap` | crates/core/src/blob/tree.rs:852-864 | the heap holds the first node of every nonempty tree |
| `Merge.MaxBy` | crates/core/src/blob/tree.rs:948 | the last of the largest nodes |
| `Merge.LoadTrees` | crates/core/src/blob/tree.rs:853-856 | all trees, or the first failure; a failure if and only if one of them cannot be read |
| `Merge.GroupIsAll` | crates/core/src/blob/tree.rs:880-912 | a group is merged only when it has all nodes of its name |
| `Merge.MergeNodes` | crates/core/src/blob/tree.rs:934-959 | the winner of a name; a winning directory holds the merge of all candidate directories; the summary counts each file and directory in it once, a directory as unmodified if and only if its tree is one of those merged; a failure names a tree that cannot be read, or is one of saving |
| `Merge.MergeTrees` | crates/core/src/blob/tree.rs:826-919 | whatever the heap does with equal names: without a failure a strictly sorted tree with one winner per name of the union, at every level, saved with everything below it, and totals equal to the files and directories of the result, unmodified and changed ones each; a failure to load names a tree that cannot be read |
| `Merge.MergeSnapshots` | crates/core/src/commands/merge.rs:95-142 | the same for any list of stored trees, with a fresh summary |
| `Merge.MergeIsStored` | crates/core/src/blob/tree.rs:826-921 | a merge of stored trees is itself sorted and readable at every level |
| `Merge.MergeOfOne` | crates/core/src/blob/tree.rs:826-921 | merging a tree with itself, however often, gives the tree |
| `Search.NodeFromPath` | crates/core/src/blob/tree.rs:177-215 | refines `WalkPath`, component by component |
| `Search.PathIsWalk` | crates/core/src/blob/tree.rs:177-215 | that is the walk along the names, refused if and only if there is a `.` or `..` and the walk up to it finds a node |
| `SearchMeaning.WalkIs` | crates/core/src/blob/tree.rs:177-215 | the walk along names ends at a node if and only if a trail of first namesakes leads there, and otherwise for the reason that holds where the trail ends: no such name, not a directory, or a tree that cannot be loaded |
| `SearchMeaning.LeadingIs` | crates/core/src/blob/tree.rs:177-215 | the names walked are those of the components before the first `.` or `..` |
| `Search.NodeFinder.FindComponent` | crates/core/src/blob/tree.rs:224-274 | an error exactly where the plain walk fails for another reason than a missing name, else the number of the node it reaches, cached or not |
| `Search.FindNodesFromPath` | crates/core/src/blob/tree.rs:217-313 | for each root what the plain walk along the names gives; node numbers dense and without repetition; an error if and only if the path has a `.` or `..` or a walk fails for another reason than a missing name; a path without names and any root panics |
| `Matching.MatchFinder.InsertResult` | crates/core/src/blob/tree.rs:331-337 | path and node get a number, a new one if they have none |
| `Matching.MatchFinder.FindTree` | crates/core/src/blob/tree.rs:341-383 | the numbers stand for what the plain recursion finds, cached or not |
| `Matching.FindMatchingNodes` | crates/core/src/blob/tree.rs:315-405 | an error if and only if the plain recursion has one; else its results (those of `SearchMeaning.HitsAre`) tree by tree and in order; path and node numbers dense and without repetition |
| `SearchMeaning.HitsAre` | crates/core/src/blob/tree.rs:341-383 | what is found below a tree are exactly the nodes that lie below it and match, with their paths |
| `SearchMeaning.SearchFailsIff` | crates/core/src/blob/tree.rs:341-383 | the search fails if and only if the tree cannot be loaded or some directory below it has none that can |
| `SearchMeaning.HitsInOrder` | crates/core/src/blob/tree.rs:341-383 | results come in the order of the trees, what is inside a directory before the directory |
| `SearchMeaning.EachHitOnce` | crates/core/src/blob/tree.rs:341-383 | with distinct names no path is found twice, and no directory before something inside it |
| `Chunker.ChunkIter.FillMinimum` | crates/core/src/chunker/rabin.rs:115-147 | left-over and new bytes up to the minimum size, fewer only at the end |
| `Chunker.ChunkIter.Extend` | crates/core/src/chunker/rabin.rs:149-188 | for any sizes: the loop over the buffer stops at the first split or at the maximum, whatever the reader returns, and its turns are a run of `Loop` |
| `Chunker.ChunkIter.Next` | crates/core/src/chunker/rabin.rs:110-191 | the next chunk is the prefix that the pure function `Cut` of the remaining bytes gives (its end is that of `ChunkBoundaries.CutIsLeast`), for every fragmentation and interruption |
| `Chunker.ChunkIter.Collect` | crates/core/src/chunker/rabin.rs:110-191 | all chunks are the function `Chunks` of the bytes |
| `Chunker.ChunksConcat` | crates/core/src/chunker/rabin.rs:110-191 | the chunks concatenate to the input |
| `Chunker.ChunkSizes` | crates/core/src/chunker/rabin.rs:110-191 | all chunks are nonempty and at most the maximum, all but the last at least the minimum |
| `Chunker.SharedPrefix` | crates/core/src/chunker/rabin.rs:110-191 | inputs with a common prefix share every chunk that ends inside it |
| `Chunker.SharedSuffix` | crates/core/src/chunker/rabin.rs:110-191 | after a boundary the chunks depend only on the bytes that follow |
| `ChunkBoundaries.CutIsLeast` | crates/core/src/chunker/rabin.rs:110-191 | for any hash: a chunk ends at the first place, from the minimum on, that is the maximum, the end of the bytes, or a split of the hash filled with the 64 bytes before the minimum and moved on from there |
| `ChunkBoundaries.RollingCut` | crates/core/src/chunker/rabin.rs:149-188 | for a rolling hash that is the first place whose 64 bytes before it are a place to split at, the maximum, or the end |
| `ChunkBoundaries.Resynchronises` | crates/core/src/chunker/rabin.rs:149-188 | where the same bytes follow different beginnings, a split inside them ends the chunk in the second input at the same byte, unless its chunk is not yet long enough, too long, or split before |
| `Chunker.SmallMinimumUnderflows` | crates/core/src/chunker/rabin.rs:119-125 | for every minimum below 4095 and below the maximum there are a hash and a reader with which the loop leaves more bytes in the buffer than the minimum, so the next subtraction underflows |
| `Chunker.SafeIff` | crates/core/src/chunker/rabin.rs:119-188 | no run of the loop leaves more bytes than the minimum, whatever the hash and the reader, if and only if the minimum is at least 4095 or equal to the maximum |
| `Chunker.FixedSizeChunkIter.Next` | crates/core/src/chunker/fixed_size.rs:41-70 | the next block of the input, for every fragmentation |
| `Chunker.BlocksShape` | crates/core/src/chunker/fixed_size.rs:41-70 | fixed-size blocks concatenate to the input and all but the last have the size |
| `Polynomial.MulMod` | crates/core/src/chunker/rabin.rs:278-297 | refines `MulModSpec`, the 64-bit shift written out, with a result of smaller degree than the modulus |
| `Polynomial.MulModCorrect` | crates/core/src/chunker/rabin.rs:278-297 | the carry-less product reduced by the modulus, if bit 63 of the left operand is clear |
| `Polynomial.MulModExact` | crates/core/src/chunker/rabin.rs:278-297 | with bit 63 set it is right if and only if the modulus divides x^64 times the upper part of the right operand |
| `Polynomial.MulModWrongOnTopBit` | crates/core/src/chunker/rabin.rs:278-297 | concrete operands for which the result is wrong |
| `Polynomial.Qp` | crates/core/src/chunker/rabin.rs:305-316 | x^(2^p) + x modulo g |
| `Polynomial.GcdIsGreatest` | crates/core/src/chunker/rabin.rs:258-272 | the result divides both arguments, and a polynomial divides it if and only if it divides both |
| `Polynomial.ModUnique` | crates/core/src/chunker/rabin.rs:278-297 | a remainder is determined by its degree and its class |
| `Escape.FromUtf8` | crates/core/src/backend/node.rs:460-470 | the longest valid prefix and the reason why it ends |
| `Escape.EscapeFilename` | crates/core/src/backend/node.rs:439-485 | refines `Escaped`, and ends |
| `Escape.UnescapeFilename` | crates/core/src/backend/node.rs:494-592 | refines `Unescaped` |
| `Escape.RoundTrip` | crates/core/src/backend/node.rs:611-618 | unescaping the escaped bytes gives them back, for every byte string |
| `Escape.EscapedInjective` | crates/core/src/backend/node.rs:439-485 | different names are stored under different strings |
| `Escape.TextIsKept` | crates/core/src/backend/node.rs:439-485 | valid text is escaped character by character and otherwise stored as it is |
| `EscapeSyntax.AsciiEscapes` | crates/core/src/backend/node.rs:439-485 | how each character below 128 is stored |
| `EscapeSyntax.StrayBytes` | crates/core/src/backend/node.rs:439-485 | a byte that begins no character is stored as `\x` and its two hexadecimal digits, in small letters |
| `EscapeSyntax.LettersRead` | crates/core/src/backend/node.rs:494-592 | what each letter after a backslash is read as |
| `EscapeSyntax.UnicodeEscapes` | crates/core/src/backend/node.rs:494-592 | four or eight hexadecimal digits stand for the character with that number, or are an error if there is none |
| `EscapeSyntax.WrongEscapes` | crates/core/src/backend/node.rs:494-592 | a backslash at the end, or before any other character, is an error |
| `Escape.DecodeEncode` | crates/core/src/backend/node.rs:460-470 | decoding finds every encoded character (UTF-8 syntax of section 4 of RFC 3629) |
| `OpenFile.FromSizes` | crates/core/src/vfs.rs:551-568 | the start of every blob and a last entry; an error if and only if a size is missing |
| `OpenFile.ComputeStartFinds` | crates/core/src/vfs.rs:570-580 | the blob that holds an offset and the place in it |
| `OpenFile.ReadAt` | crates/core/src/vfs.rs:516-543 | the slice of the concatenated blobs, clipped to the end, for every content list, empty blobs and offsets past the end included |
| `Retention.Keeper.Matches` | crates/core/src/commands/forget.rs:438-550 | the reasons of one snapshot, and every counter that was used goes down |
| `Retention.Apply` | crates/core/src/commands/forget.rs:570-620 | an error if and only if no keep option is given, else the decision of the rule for every snapshot, newest first |
| `Retention.DecidesByRule` | crates/core/src/commands/forget.rs:534-550 | kept if and only if the rule keeps it; a count reason if and only if it is evaluated, starts a period and fewer newer evaluated snapshots start one than the limit; a within reason likewise |
| `Retention.CountsExactly` | crates/core/src/commands/forget.rs:534-550 | a limit N gives its reason to exactly N snapshots, or to all that start a period |
| `RetentionRule.StartsIsNewest` | crates/core/src/commands/forget.rs:534-550 | if the snapshots of a period are next to each other, one starts its period if and only if it is the newest in it or the oldest of all |
| `RetentionRule.MarksDecide` | crates/core/src/commands/forget.rs:590-610 | a mark on a snapshot decides before all options; an unmarked one that repeats the next older is given up, one with a wanted id or tag is kept |
| `Retention.DecisionsPermute` | crates/core/src/commands/forget.rs:590-620 | the decisions are a permutation of the input |
| `Retention.RaisingKeeps` | crates/core/src/commands/forget.rs:534-550 | raising any limit never turns kept into forgotten |
| `HotCold.HotColdBackend.WriteBytes` | crates/core/src/backend/hotcold.rs:86-91 | hot store first, then cold, stopping at the first failure |
| `HotCold.HotColdBackend.Remove` | crates/core/src/backend/hotcold.rs:93-100 | cold store first, then hot |
| `HotCold.SuccessMeansDone` | crates/core/src/backend/hotcold.rs:86-100 | success is reported if and only if every store touched reports it; then a written file is in every store that it belongs to, with its contents, a removed one in none, and other files stay |
| `HotCold.RunKeeps` | crates/core/src/backend/hotcold.rs:86-100 | in every run, with any step failing with or without effect, whatever belongs into both stores and is in the cold one is in the hot one |
| `HotCold.ListedIsReadable` | crates/core/src/backend/hotcold.rs:44-65 | a listed file can be read in full if and only if it belongs into both stores, and in part if and only if it is not the config file |
| `HotCold.StepsAreOp` | crates/core/src/backend/hotcold.rs:86-100 | the two steps of an operation without another in between are the operation |
| `HotCold.ListedWhileRunning` | crates/core/src/backend/hotcold.rs:44-100 | at every point of every run of overlapping operations in which no write of a file overlaps a remove of it, a listed file that belongs into both stores is read |
| `HotCold.OverlapLoses` | crates/core/src/backend/hotcold.rs:86-100 | whenever a write and a remove of one file overlap and both succeed, in whatever order they end, the file is listed and cannot be read |
| `HotCold.MixedFlagsLoseHotCopy` | crates/core/src/backend/hotcold.rs:86-100 | any pack called cacheable once and not another time can be listed and be missing from the hot store |

## Left out

- Encryption, hashing, compression and JSON: ids are ideal hashes, decryption undoes encryption and adds 32 bytes, serialization is the tree itself. Ids are compared as the values they stand for.
- Backends, network, files and processes: a backend is a set or map of files; reading may fail. The on-disk cache and its locks are not modelled.
- Gitignore and glob matching: an opaque test per entry; errors on loading an ignore file are not modelled. Symbolic links and device nodes are one kind of node.
- Comparison of metadata with the parent: an opaque test; nothing is claimed about the inode and ctime options.
- Calendar periods of the keep rules: opaque tests, and so are the matching of ids and tags; the names of the reasons are numbers of rules.
- The rolling hash of the chunker: an opaque hash with an initial value from a window and one step per byte. The reader's size hint only sizes buffers and is not modelled.
- The irreducibility test and random polynomials: the arithmetic under it is modelled, not the finite-field argument.
- Dry runs, progress, error texts, statistics of the archivers, snapshot metadata, path mapping on backup (`as_path`), Windows path prefixes.
- Backup.BackupPublishesSource: that the parallel map hands items on in the order in which it takes them is the promise of its library and a hypothesis here.
- ChunkBoundaries.RollingCut: that the hash of the library is a rolling one is a hypothesis; the hash itself is not part of this model.
- Entry names with separators in them, and names that are not text, on which a directory's own entry is recognised.
- Overlapping roots in the claim that the archived tree is the source tree: that claim is for one root; that no directory is listed twice is for any roots.
- Streaming after an error: all callers stop at the first one.
- Prune, repair, restore, mount, check of the whole repository, index lookup by binary search, configuration.
- Chunker.ChunkIter.Next: for the chunk sizes under which no subtraction in the source underflows: a minimum of at least 64 bytes that is also at least 4095 or equal to the maximum.
- Integer overflow is wrap-around, as in builds without overflow checks; builds with them panic instead.
- OpenFile.ReadAt: for files and offsets that fit the machine's address size, as the types of the source demand.
- PackFormat.ParseHeader: an entry that breaks off is an error and only the end of the input ends the header; the reading library's own treatment of a broken last entry is not part of this model.
- Packer.RawPacker.Collect: the 64-bit totals of the statistics are unbounded numbers.
- Merge.MergeTrees: for trees sorted by the key the merge compares, directories with a subtree, and a comparison that is a total preorder; the tree sizes added up are those the saving function reports. The parameter `h` is a ghost bound on the height; `Merge.MergeSnapshots` is without it.
- CopyRun.CopyCompleteIff: subtrees hang on directories only, and the trees were loaded through the source index.
- Packer.PacksAreSound: blobs are not empty, since encryption adds 32 bytes.
- HotCold.ListedIsReadable: what is written for an id is always the same, and packs are called with the same flag every time.
