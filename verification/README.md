# LoomDB: a verified model of its record store

LoomDB keeps typed records in branches that fork, diverge and merge. This project models the five mechanisms its
guarantees rest on, and proves what each of them is for.

- **The record tree.** `BTree.Tree` is the transaction of `tree.rs`: a map of pages under a dirty overlay, remembered
  page sizes, splits, removal, a full scan and a pruned prefix scan. Its specification is a plain map of records. The
  proof carries a ghost shape of the tree and counts how often each page occurs in it, so no page is ever shared or
  lost. The size a record encodes to is an arbitrary function.
- **Merge and the commit graph.** `Merge.PlanMerge` plans a three-way merge from changed pages only; `MergeMeaning` says
  what is right at a key for every kind of record, and `MergeAnswers` what a whole merge must answer. `CommitDag` finds
  ancestors and merge bases. `Repo` gives branch, write, merge, reindex and rewind as steps over commits, trees and
  refs; `RepoGraph`, `RepoOrder` and `RepoMerges` prove what every step and run keeps and leaves, `RepoTrust` which
  commits' history nothing changes any more, `RepoCounting` that merges count once, `RepoProvenance` that provenance
  never conflicts, `RepoHistory` that each claim written gains a version, and `RepoLimits` where the graph's promises
  end. `WriteExtras` is what a write adds for the index and for claims, `WriteMeaning` what a whole write must leave.
  `Loom.Loom` is the session object that carries the steps out on pages, with a ref store underneath.
- **The ref store.** `RefLog.FileRefStore` is a snapshot and a framed log that is appended to and compacted, against
  `RefLog.MemRefStore`. Crashes cut an append or a truncate at any byte.
- **The search index.** `Hnsw.Hnsw` is the graph in memory, `HnswLinks` what an insert links, `HnswStore` the search of
  the exported image, `SearchCounts` how many records a search answers, `AnnFold` the rebuild of the graph inside a
  tree, `AnnWrite` the indexed half of a write, `SearchAnn` the union of graph and buffer, `SearchTree` the search of
  one tree and what it reads, `LiveTree` and `FreshSearch` the state writes and folds keep a tree in and what a search
  of it answers, `IndexRaces` writers and folds racing on branch heads under one lock and a compare-and-set, and
  `IndexReads` what is read meanwhile.
- **Claim history and provenance.** `ClaimStore` appends versions of claims in the tree; `ClaimHistory` says how their
  known intervals tile time; `Keyspace` keeps the engine's families of keys apart.

Assumed of what lies outside: a page store is a map from page numbers to decoded nodes, whose fork is a snapshot;
committing the content of a commit again gives that commit back; a crash keeps a byte prefix of an append, and all or
nothing of an atomic write; encoders have decoders; distances are real numbers, with the level of an id arbitrary.
`Codecs` and `StoreCodecs` exhibit codecs as assumed, and `FreshSearch.SpaceExists` such distances. Components of stored
vectors and confidences are the bits of their floating-point words.

Where a property the documentation suggests is false of the code, the code is kept, one input is named and the exact
condition is proved. The rows marked *Finding* are those.

## Model

| member | source | states |
|---|---|---|
| `BTree.Tree.Insert` | crates/loom-branch/src/tree.rs:288-436 | Inserting updates the map the tree stands for, and nothing else, through leaf, internal and root splits that keep the tree ordered, of uniform depth and with every allocated page in it exactly once. A leaf left unsplit encodes within the fill limit. Inserting a record already held leaves the pages as they were if and only if its leaf is within the limit. |
| `BTree.Tree.Remove` | crates/loom-branch/src/tree.rs:438-458 | Removing takes just that key out of the map, reports whether it was there, and frees or takes no page. |
| `BTree.Tree.Lookup` | crates/loom-branch/src/tree.rs:269-285 | Descending by separators finds what the map holds under the key, and nothing where it holds nothing. |
| `BTree.Tree.Scan` | crates/loom-branch/src/tree.rs:461-481 | A scan lists the whole map in strictly ascending key order, as many records as the metadata page counts. |
| `BTree.Tree.ScanPrefix` | crates/loom-branch/src/tree.rs:484-525 | The pruned scan gives exactly the full scan's records whose key starts with the prefix, in order, for every prefix, the empty and the all-0xFF ones included. |
| `BTree.PrefixRange` | crates/loom-branch/src/tree.rs:602-612 | A key lies between a prefix and the bound computed from it exactly when it starts with the prefix. |
| `BTree.ShapeUnique` | crates/loom-branch/src/tree.rs:150-180 | A snapshot of pages stands for one tree only, so what it holds is a function of its pages. |
| `PageSize.InsertOverCounts` | crates/loom-branch/src/tree.rs:315-345 | Charging a new entry its cost keeps the running estimate at or above the leaf's real encoded size. |
| `PageSize.ReplaceOverCounts` | crates/loom-branch/src/tree.rs:315-345 | So does charging a replacement, although the subtraction saturates: it clamps only in a leaf of one entry. |
| `PageSize.LeafBytes` | crates/loom-branch/src/tree.rs:895-929 | A leaf is twelve bytes and eight more than key and record for each entry, and an entry is charged sixteen more than it takes: the sizes the repository's tests pin. |
| `Merge.PlanMerge` | crates/loom-branch/src/merge.rs:197-252 | Planning from the keys in changed leaf pages only gives the same writes and the same conflicts, in the same order, as deciding every unreserved key of all three sides. |
| `Merge.PrefilterComplete` | crates/loom-branch/src/tree.rs:527-551 | A key in no changed leaf of any side reads the same on all three: the page diff never drops a record. |
| `MergeMeaning.DecideIsRight` | crates/loom-branch/src/merge.rs:265-375 | At a key the rules do the right thing and nothing else is right: nothing where the target alone moved; the source's record where it alone moved, of any kind; for two sets that moved apart every item of either, for two counters both changes as near as 64 bits come, for two claims true at different times the later and for two true at once the one of the better method, then of the higher confidence; and otherwise what the caller's policy says. |
| `MergeMeaning.PlanIsRight` | crates/loom-branch/src/merge.rs:197-252 | A plan writes exactly what is right, each key once and in order, reports exactly the undecided keys with their three records, and counts what the rules decided. |
| `RepoMerges.MergeIsRight` | crates/loom-branch/src/session.rs:1805-1938 | After a merge the target's head holds what is right under every caller's key, for every kind of record. |
| `MergeAnswers.AnswersAreRight` | crates/loom-branch/src/session.rs:1805-1938 | The answer is right, told by the three sides alone: a report of just the undecidable keys; a refusal at the first write the policy of the day bars; or the merge, with how many of the caller's records it wrote. |
| `MergeRules.CounterMergeExact` | crates/loom-branch/src/merge.rs:265-348 | Merging a counter adds the source's change to the target if and only if the change is additive: not two equal moves on both sides, and no 64-bit overflow. |
| `MergeRules.ConflictSymmetric` | crates/loom-branch/src/merge.rs:265-330 | Whether a key conflicts does not depend on which branch is merged into which. |
| `MergeRules.TargetKeyKept` | crates/loom-branch/src/merge.rs:280-330 | No merge under any policy takes away a key the target holds: a deletion on the source is not carried over. |
| `MergeRules.SingleValueNeverConflicts` | crates/loom-branch/src/merge.rs:265-330 | Where only one value was ever written, a merge neither conflicts nor asks the policy. |
| `MergeRules.ConvergentIncrementsCountOnce` | crates/loom-branch/src/merge.rs:273-279 | *Finding.* Two branches that both move a counter from 10 to 13 merge to 13, where the repository's README says 16. `CounterMergeExact` gives the condition. |
| `CommitDag.FullAncestors` | crates/loom-branch/src/session.rs:2010-2035 | The stack loop ends, on any graph, with exactly the commits the head reaches over recorded parents, or manifest parents where none are recorded. |
| `CommitDag.MergeBases` | crates/loom-branch/src/session.rs:1976-2007 | The bases are exactly the common ancestors that no other common ancestor descends from. |
| `CommitDag.BasesUnrelated` | crates/loom-branch/src/session.rs:1976-2007 | No merge base is an ancestor of another. |
| `CommitDag.BaseBelow` | crates/loom-branch/src/session.rs:1976-2007 | On an acyclic graph a merge base lies at or below every common ancestor, so one exists whenever history is shared. |
| `RepoOrder.GraphAlwaysAcyclic` | crates/loom-branch/src/session.rs:1615-1650 | In every run from the root of branches, writes, merges, reindexing, and rewinds to any stored commit, no commit becomes its own ancestor, merges that change nothing included; so heads that share history have a merge base. |
| `RepoLimits.NoOpMergeKeepsParents` | crates/loom-branch/src/session.rs:1624-1648 | *Finding.* A merge that commits nothing keeps every parent of the target's head if and only if that head is recorded, or its manifest names no parent, or names the source's head; otherwise it takes the place of that manifest parent. |
| `RepoLimits.MergeOrphaned` | crates/loom-branch/src/session.rs:1624-1648 | *Finding.* After a merge of X into T, an index build on T that is not published, a rewind of T to it and the same merge again, the first merge commit is no longer an ancestor of T's head. |
| `RepoLimits.OrphanedFromRoot` | crates/loom-branch/src/session.rs:1624-1648 | *Finding.* The input, a run of five steps from a new database. |
| `RepoTrust.StepTrusted` | crates/loom-branch/src/session.rs:618-640 | In any step at all, a set of commits closed under parents, each recorded or a root, whose merged-from records name ancestors, stays so, with the commits made on top of it, and no ancestry among them changes. |
| `RepoTrust.RunHeadsIn` | crates/loom-branch/src/session.rs:618-640 | Every head lies in such a set throughout every run that rewinds within it, so from any head a branch can be forked off whose merges count once. |
| `RepoCounting.NoDoubleCounting` | crates/loom-branch/src/session.rs:1805-1938 | Over any run of writes, branches, folds, merges and rewinds elsewhere and merges of X into T, X and T themselves not rewound, T's counter ends at its start plus T's own changes plus X's change between the first base and the last, each once, and the merge base is always X's head at the last merge. Each merge's change must be additive at that counter. |
| `RepoCounting.MergeAddsOnce` | crates/loom-branch/src/merge.rs:333-348 | One merge adds X's change since the last merge to T's counter if and only if that change is additive. |
| `RepoCounting.ForkTracks` | crates/loom-branch/src/session.rs:1083-1099 | Forking X from a T whose head is in a trusted set starts such a run, the fork point its first base. |
| `RepoCounting.RemergeBringsNothing` | crates/loom-branch/src/session.rs:1901-1928 | Merging X into T again at once leaves every record of T as it was, and X's head stays the merge base, whether or not the pages come out the same. |
| `RepoCounting.RemergeIsNoOp` | crates/loom-branch/src/session.rs:1901-1928 | *Finding.* It leaves the whole repository as it was, with no new commit and no new edge, if and only if the pages come out the same; the comment at 1836-1838 promises it always. `Loom.Loom.MergeChecked` says exactly when they do: an over-full leaf is split again by rewriting a record it holds, and the re-merge is then a commit of its own. |
| `Loom.OversizeNeverFits` | crates/loom-branch/src/tree.rs:315-364 | *Finding.* Such leaves exist: a record that by itself encodes past the fill limit lies in an over-full leaf, in whatever tree holds it. |
| `Loom.AloneInLeaf` | crates/loom-branch/src/tree.rs:345-364 | A tree with that one record has it alone in its leaf: splitting a leaf of one entry only sets an empty one aside. |
| `Loom.Loom.MergeChecked` | crates/loom-branch/src/session.rs:1805-1938 | On pages and refs a merge does what the run step says, answers what `AnswersAreRight` says, and leaves on the target's head what `MergeIsRight` says; several bases answer as ambiguous with their number, a missing branch as an error. A merge that writes only the record already held repacks a page if and only if the leaf holding that record is over the fill limit. |
| `Loom.Loom.WriteAll` | crates/loom-branch/src/session.rs:1351-1541 | A write commits its tree on the head, records its edge and moves the head, or changes nothing on a missing branch; and the tree is as `WrittenIsRight` says. |
| `WriteMeaning.WrittenIsRight` | crates/loom-branch/src/session.rs:1351-1541 | A write leaves the batch's last record under each caller's key and the old one under every other; a derivation node for each record, found by number, under each of its sources and as its key's latest; the entry and buffered vector of each hinted observation and claim with evidence, and no other; and one version more in a history for each claim of its name. |
| `WriteMeaning.WrittenIsVisible` | crates/loom-branch/src/session.rs:1475-1524 | A hinted observation, or claim with evidence, that has an embedding is searched at it as soon as it is written. |
| `RepoHistory.RunAsserts` | crates/loom-branch/src/session.rs:1526-1533 | Over any run that does not rewind a branch, of writes, merges into it, folds and whatever happens elsewhere, each NUL-free history on it gains one version for each claim of its name, in order, and nothing else. |
| `Loom.Loom.WriteMerge` | crates/loom-branch/src/session.rs:1615-1650 | A merge's write also records the second parent, on a fresh commit or on the old head when nothing changed; its tree is as `WrittenIsRight` says. |
| `Loom.Loom.FindBase` | crates/loom-branch/src/session.rs:1850-1866 | The base used is the one merge base, the source head where no history is shared, and none where there are several. |
| `Loom.Loom.BuildAnnIndex` | crates/loom-branch/src/session.rs:681-730 | Publishing a rebuilt graph is a step that changes the index's own keys only; on a missing branch or an entry that does not decode nothing changes. |
| `RepoProvenance.ProvenanceNeverConflicts` | crates/loom-branch/src/session.rs:1415-1470 | In every run without rewind, whatever three commits a merge looks at, a derivation-node key never conflicts and is decided alike under every policy. |
| `RepoProvenance.NodesNeverOverwritten` | crates/loom-branch/src/session.rs:1415-1470 | A node key once held keeps its one value, in every commit that has it, for the rest of such a run. |
| `RepoProvenance.RewindReusesKeys` | crates/loom-branch/src/session.rs:2042-2052 | *Finding.* Write, branch off, rewind, write: the second write reuses the sequence number, and merging the two branches conflicts at that node key exactly when the nodes differ. |
| `Keyspace.NodeKeyInjective` | crates/loom-core/src/provenance.rs:234-260 | Two node keys are equal exactly for the same branch and sequence number, for names of any length, although only sixteen bits of the length are stored. |
| `Keyspace.NodeKeysAppend` | crates/loom-core/src/provenance.rs:234-260 | A branch's node keys sort by sequence number. |
| `Keyspace.BuilderRegions` | crates/loom-core/src/provenance.rs:219-265 | Each family of engine keys lies in a region of its own, told from the key's first bytes. |
| `Keyspace.BookkeepingSpelled` | crates/loom-core/src/provenance.rs:263-330 | The prefixes of merge records, counters and latest nodes spell what they are documented to. |
| `Keyspace.IndexSpelled` | crates/loom-core/src/hnsw_store.rs:351-393 | So do those of the index. |
| `Keyspace.HistoriesApart` | crates/loom-core/src/history.rs:42-60 | A history's prefix matches its own versions and no other history's, for NUL-free names. |
| `Keyspace.NulMixesHistories` | crates/loom-core/src/history.rs:42-60 | *Finding.* The input: with a NUL inside a name two different histories share every key. |
| `Keyspace.OwnKeysIff` | crates/loom-core/src/history.rs:42-60 | *Finding.* The condition: a history shares a key with no other history, at any numbers, if and only if neither of its names has a NUL in it. |
| `Refs.ReplayNoOp` | crates/loom-branch/src/refs.rs:166-193 | Replaying edits changes nothing exactly on refs that absorbed them. |
| `Refs.ReplayTwice` | crates/loom-branch/src/refs.rs:166-193 | Replaying a whole log on its own result changes nothing, re-recorded commits followed by merge edges included. |
| `Refs.PrefixReplay` | crates/loom-branch/src/refs.rs:509-513 | *Finding.* Replaying a proper prefix of an old log on the new snapshot is harmless exactly when the rest respects what the prefix wrote; the comment says always. |
| `Refs.PrefixReplayMovesHeadBack` | crates/loom-branch/src/refs.rs:509-513 | *Finding.* The input: a branch moved twice, whose first move alone takes its head back. |
| `RefLog.FileRefStore.Load` | crates/loom-branch/src/refs.rs:456-500 | What the three files load as, told from them alone: the snapshot with the log's edits on top, whatever the legacy file holds; the legacy file with them where there is no snapshot; with neither just the edits, or nothing; and corrupt if the first file present does not decode. The log may end in bytes that do not read. |
| `RefLog.FrameLayout` | crates/loom-branch/src/refs.rs:253-270 | A frame is the payload's length with the least byte first, the payload, and eight bytes of checksum. |
| `RefLog.TornDecode` | crates/loom-branch/src/refs.rs:256-298 | Any byte prefix of encoded edits decodes to exactly the edits whose frames are whole, with nothing assumed of the checksum but its length. |
| `RefLog.AppendAfterTear` | crates/loom-branch/src/refs.rs:401-428 | *Finding.* A torn tail is not cut on opening: wherever the tear, inside the length bytes included, and whatever is appended next, the log decodes to the edits before it if and only if the spliced bytes are shorter than a header or than the frame it announces, fail the checksum, or do not decode. |
| `RefLog.FileRefStore.Apply` | crates/loom-branch/src/refs.rs:559-593 | On a clean log a batch whose edits a frame can hold is applied to the state, whether or not compaction fires; only an unreadable snapshot makes compaction fail. |
| `RefLog.StartedStoresAgree` | crates/loom-branch/src/refs.rs:548-625 | Once there is a state, the file store's steps and the in-memory store's agree after any run of saves and batches. |
| `RefLog.RunBoth` | crates/loom-branch/src/refs.rs:548-625 | So the two stores themselves hold the same refs after any run, compactions included, from a clean log on. |
| `RefLog.FreshStoresAgree` | crates/loom-branch/src/refs.rs:548-625 | *Finding.* From a brand-new store their steps agree on every run except a non-empty one of empty batches alone. |
| `RefLog.CrashLoadsPrefix` | crates/loom-branch/src/refs.rs:477-593 | A crash at any byte of an append, or between the new snapshot and the cut, loads the old refs with a prefix of the batch: the whole of it once the append is whole. |
| `RefLog.CrashInTruncate` | crates/loom-branch/src/refs.rs:526-545 | *Finding.* A crash that leaves a prefix of the old log over the new snapshot loads the same refs exactly when the lost rest respects what survived. |
| `RefLog.CrashInSave` | crates/loom-branch/src/refs.rs:526-557 | *Finding.* A crash between a save's snapshot and its cut loads the saved refs exactly when they had absorbed the old log. |
| `RefLog.PlainWriteReloads` | crates/loom-branch/src/session.rs:609-640 | After a crash at any byte of a plain write's append, every head the store reloads has its edge recorded; a write that commits nothing, whose batch is the head move alone, included. |
| `RefLog.TruncatedReloads` | crates/loom-branch/src/refs.rs:526-545 | *Finding.* After a crash inside the truncate heads may have moved back, and every loaded head still has its edge recorded, wherever the crash, if and only if every head the log ever set is recorded by its end. |
| `Codecs.RefCodecExists` | crates/loom-branch/src/refs.rs:256-298 | Codecs as the rows above assume exist, under which a first write's edits fit their frames. |
| `IndexRaces.AckedNeverLost` | crates/loom-branch/src/session.rs:1403-1541 | Whatever writes, failing appends and folds are interleaved, every acknowledged write's commit stays in its branch's history. |
| `IndexReads.AckedRecordsRead` | crates/loom-branch/src/session.rs:1403-1541 | An acknowledged record is read from its branch until it is written over, whatever writes under other keys and on other branches, failing writes, forks and folds are interleaved. |
| `IndexReads.CommitsRight` | crates/loom-branch/src/session.rs:1403-1541 | What such a write commits is what `WrittenIsRight` says of its head's tree. |
| `IndexRaces.LockNeverLost` | crates/loom-branch/src/session.rs:1544-1550 | At any time the lock is free, or held by a process that can end its turn, and whatever ends a turn gives it back: no write that failed and no fold that lost leaves it behind. |
| `IndexRaces.HeadsMoveToChildren` | crates/loom-branch/src/session.rs:705-730 | Every move of a head, by a write or a published fold, is to a child of the head it replaced. |
| `LiveTree.WriteIndexed` | crates/loom-branch/src/session.rs:1415-1536 | Of the live index a tree stands for, a whole write, records, provenance and claims included, changes what its hints say, and the stored graph not at all. |
| `LiveTree.FoldFresh` | crates/loom-branch/src/session.rs:736-803 | A rebuild of a fresh tree succeeds and leaves a fresh tree, which stores exactly the graph it built. |
| `IndexRaces.HeadsAlwaysFresh` | crates/loom-branch/src/session.rs:1475-1524 | Under any interleaving of writes and folds of trees, over vectors of one dimension that have a direction, every head's tree is fresh: every indexed record is searched at its current vector. |
| `IndexRaces.HeadsSearchCurrent` | crates/loom-branch/src/session.rs:842-910 | So a search at any head of any such run, for any query and k, never fails to decode what it reads, and answers indexed records only, each at the distance of its current vector if it still has one. |
| `IndexRaces.FoldAloneWins` | crates/loom-branch/src/session.rs:705-730 | A fold nobody races, of entries that decode, publishes the rebuilt tree at its first attempt. |
| `LiveIndex.FoldFreshIff` | crates/loom-branch/src/session.rs:736-803 | A fold leaves every indexed vector searchable if and only if all of them have a direction and one dimension. |
| `LiveIndex.FoldShows` | crates/loom-branch/src/session.rs:736-803 | *Finding.* After a fold a record is visible exactly if its vector has a direction and the fold's dimension; a buffered vector of another kind is lost. |
| `LiveIndex.WithdrawnStaysVisible` | crates/loom-branch/src/session.rs:1475-1524 | *Finding.* A hint that takes an embedding away leaves the old vector visible until the next fold. |
| `AnnFold.RebuildGraph` | crates/loom-branch/src/session.rs:736-803 | The new pages hold the graph built from the tree's entries in scan order, its nodes and bookkeeping, an empty buffer, and every other record as it was; it fails exactly on an entry that does not decode. |
| `AnnFold.FoldedTableIs` | crates/loom-branch/src/session.rs:736-803 | That fixes the rebuilt table: there is one, and only one, with those records. |
| `AnnSearch.RebuildElsewhere` | crates/loom-branch/src/session.rs:736-803 | A rebuild changes no record outside the index's own keys. |
| `AnnSearch.RebuildFolds` | crates/loom-branch/src/session.rs:736-803 | The rebuilt tree stands for the folded live index, which is fresh exactly when the vectors have a direction and one dimension. |
| `AnnSearch.RebuiltSearchSame` | crates/loom-branch/src/ann.rs:72-126 | Searching the rebuilt tree's stored graph gives the ids, distances and order of searching the graph in memory. |
| `AnnWrite.HintsIndexed` | crates/loom-branch/src/session.rs:1475-1524 | Writing each hint's entry and buffered vector into the tree turns the live index it stands for into the hinted one, and keeps it decodable. |
| `SearchAnn.LiveSearch` | crates/loom-branch/src/session.rs:856-910 | The answer has no record twice, is the closest k of all found, takes each comparable buffered vector over the graph's, and has k records whenever the graph returned all it was asked for. |
| `SearchTree.Search` | crates/loom-branch/src/session.rs:856-910 | Buffer, bookkeeping and nodes are read from one tree, which is left as it was; it fails exactly on a buffered vector, bookkeeping or a node it looks up that does not decode. |
| `SearchTree.ReadsDecide` | crates/loom-core/src/hnsw_store.rs:177-302 | A search of the stored graph reads only the nodes it traverses: any store that answers alike for those gives the same answer, and is read at the same ids. |
| `FreshSearch.SearchIsCurrent` | crates/loom-branch/src/session.rs:842-910 | A search of a fresh tree never fails, scores each answered record at its current vector, and passes over no comparable buffered vector for a farther one: a vector is searchable as soon as it is written. |
| `SearchCounts.TableCounts` | crates/loom-branch/src/session.rs:856-910 | A search of a tree answers k records, or every comparable buffered one and every one the graph reaches on its bottom layer from where the descent ended; and the closest of all of those, while the graph reaches at most sixty-four. |
| `SearchCounts.StoredCounts` | crates/loom-core/src/hnsw_store.rs:178-201 | A search of the stored graph answers k, or exactly what can be reached; the closest of it if no more can be than the search is wide. |
| `SearchCounts.RamCounts` | crates/loom-core/src/hnsw.rs:168-203 | So does the graph in memory, until its epoch wraps. |
| `SearchCounts.DescentEnds` | crates/loom-core/src/hnsw_store.rs:190-235 | The descent ends no farther than it begins, and where no neighbour on the layer above the bottom is closer. |
| `Beam.SearchLayerExit` | crates/loom-core/src/hnsw.rs:280-344 | A layer's search ends with the ef closest of all nodes it met, nearest first, having seen every layer neighbour of each, and met nothing out of reach of its entries. |
| `Beam.FewerIsComponent` | crates/loom-core/src/hnsw.rs:280-344 | A fresh search that returns fewer than ef returned exactly the component its entries reach. |
| `Beam.GreedyStops` | crates/loom-core/src/hnsw.rs:258-277 | The greedy walk ends within reach, no farther than it began, where no neighbour is closer. |
| `Hnsw.Hnsw.Insert` | crates/loom-core/src/hnsw.rs:120-164 | The in-place insert and relink do what the specification does to the graph, keep its structure, and link as `InsertLinks` says. |
| `HnswLinks.InsertLinks` | crates/loom-core/src/hnsw.rs:379-433 | At every layer up to its own and the graph's, a node put in is linked to the nearest node a search two hundred wide found and to others, sixteen at most, none passed over with room left but for being nearer to a linked one; each links back, or was full and left it out for a nearer one or for want of room; every other list is as it was. A new node is linked to at least one at each. |
| `HnswLinks.InsertPlaces` | crates/loom-core/src/hnsw.rs:120-164 | A new node has the layers its level gives it, and becomes the entry point exactly if it is the first or reaches higher than any. |
| `HnswLinks.EntersNear` | crates/loom-core/src/hnsw.rs:379-392 | Linking enters no farther than the entry point, where no neighbour on the layer above is closer. |
| `HnswLinks.NextNearest` | crates/loom-core/src/hnsw.rs:428-431 | Each lower layer is searched from the nearest node the one above found. |
| `Hnsw.Hnsw.SearchLayer` | crates/loom-core/src/hnsw.rs:280-344 | The loop over two heaps and the epoch array is the specified search, which `SearchLayerExit` describes. |
| `HnswGraph.InsertKeeps` | crates/loom-core/src/hnsw.rs:120-164 | Every insert and replacement keeps links valid, distinct, never to the node itself and on layers both ends reach, degrees within 16 and 32, and an entry point on the top layer. |
| `HnswGraph.InsertStores` | crates/loom-core/src/hnsw.rs:120-164 | An insert stores the unit vector under its id and disturbs no other; it is refused, changing nothing, exactly for a vector without direction or of another dimension. |
| `HnswGraph.SelectSpread` | crates/loom-core/src/hnsw.rs:356-376 | The neighbours kept are spread out, and one is passed over only for being nearer to a kept one than to the base, or because the list was full. |
| `HnswGraph.FreshUntilWrap` | crates/loom-core/src/hnsw.rs:280-296 | *Finding.* A search starts with nothing seen until the 32-bit epoch wraps; the search that wraps takes every node no search has tagged for seen. |
| `HnswGraph.InsertTags` | crates/loom-core/src/hnsw.rs:379-433 | An insert uses up at most one epoch per layer, which bounds how many inserts come before a wrap. |
| `HnswStore.ExportedSearchSame` | crates/loom-core/src/hnsw_store.rs:178-302 | For every query with a direction, every k and every ef, the graph in memory and its exported image give the same ids at the same distances in the same order. |
| `HnswStore.SearchesAgree` | crates/loom-core/src/hnsw_store.rs:178-201 | *Finding.* For a query without direction memory answers nothing and the store answers something; the two agree exactly on all other queries and those stopped by entry, dimension or k. |
| `ClaimHistory.VersionsAre` | crates/loom-branch/src/session.rs:2376-2437 | After any run of assertions there is one version for each, numbered in order; one asserted open and followed by another is superseded and known up to the first start a later one gives, and nothing else of it ever changes. |
| `ClaimHistory.HistoryIs` | crates/loom-branch/src/session.rs:2376-2437 | With every start given, version i is known from its own start up to the next one's and superseded, but for the last, which is the only open one. |
| `ClaimHistory.OneOpenIff` | crates/loom-branch/src/session.rs:2376-2437 | An open assertion leaves exactly one open version exactly when its known start is given or nothing was open. |
| `ClaimHistory.PartitionIff` | crates/loom-core/src/time.rs:82-110 | Every instant from the first start on lies in exactly one known interval if and only if no start goes back from beyond the first; so always for non-decreasing starts. |
| `ClaimStore.AppendAsserts` | crates/loom-branch/src/session.rs:2376-2437 | Appending in the table closes what was open and adds the next version of that claim's own history. |
| `ClaimStore.Append` | crates/loom-branch/src/session.rs:2376-2437 | On the tree, that is what scanning the history, rewriting the open versions and inserting the next one does. |
| `ClaimStore.OtherHistoryKept` | crates/loom-branch/src/session.rs:2376-2437 | It leaves every other NUL-free history as it was. |
| `ClaimStore.RunHolds` | crates/loom-branch/src/session.rs:2376-2437 | After any interleaving of assertions of NUL-free names, each history holds exactly the versions of its own assertions. |
| `StoreCodecs.StoreCodecsExist` | crates/loom-core/src/history.rs:62-71 | Codecs for versions of claims, and for the index's records, as the rows above assume exist. |
| `Time.OverlapsIffShared` | crates/loom-core/src/time.rs:82-110 | Two inhabited intervals overlap exactly when some instant lies in both. |
| `Floats.WordsInOrder` | crates/loom-core/src/value.rs:259-264 | Confidence words mean numbers in their own order, as binary64 of IEEE 754 has them. |

## Left out

- Tokens, signatures, actor keys, envelopes and tenancy: the modelled operations start after those checks.
- Disk and decoding errors of pages: a page is a decoded node, and reading an absent page gives an empty leaf.
- The bytes of records and nodes: a record's encoded size is an arbitrary function, so the fanout the repository's tests
  pin is not derived here.
- The fill factor: it is the integer `pageSize * 7 / 10`.
- The error for an oversize record (tree.rs:355-364): it cannot be reached, since a leaf of one entry splits into an
  empty and a full half first; the model splits likewise.
- Floating point: stored vectors and confidences are bit patterns and compared as such, so two NaNs of one pattern are
  equal here and the two zeros are not; distances are real numbers, and the rounding of products, of distances and of
  normalising is not modelled. The level hash is an arbitrary function, and nothing is claimed of recall.
- RefLog.FileRefStore.Apply: what a batch with an edit that encodes to 2^32 bytes or more leaves is not stated, since
  its length does not fit its frame.
- Text, citation lists and labels of index entries; whether a record has anything to cite decides, as in the code,
  whether it is indexed.
- `ann_insert`: it writes a vector to the graph alone, outside the freshness claim by design.
- `invalidate_and_deindex`, session read sets, backup, sleep and wake, garbage collection.
- Rewinds to commit ids that were never issued: such a head cannot be read afterwards. Rewinds inside the concurrent
  relation of `IndexRaces`: the code takes no lock for them.
- RepoProvenance.ProvenanceNeverConflicts: runs in which no branch counts past 2^64 - 1 nodes.
- Crashes between a merge's head move and its second parent, which are two appends: runs of merges are crash-free.
- The order of reads in a search: all stored nodes are read ahead here, where the code looks each one up as it comes
  across it; both fail on the same ones.
- `search_scan`: the exact scan over all entries.
- The provenance a merge carries over from both branches: a batch's nodes are an arbitrary function of its records.
- Wording of conflict reports; the model keeps the key and the three records.
