# Verified model of the lsm-tree read path, deletion gate and block codes

This project models, in Dafny 4.11, the parts of the lsm-tree storage engine whose
correctness is hardest to see from the code, and proves what they promise:

1. **Snapshot scans.** A scan merges sorted sources (memtables, tables, runs of
   tables), collapses the versions of each key with a merge operator, drops deleted
   keys and drops what a range tombstone suppresses, from both ends. Each stage is a
   class with the source's own fields; `Contents()` gives the items it still holds,
   and `Next`, `NextBack` and reseek act on them as on a deque as long as the stream
   below does. Over a steady stream (one window shrinking from both ends, or the heap
   merge) that is every list of calls: `Mvcc.MvccStream.Interleave`,
   `RtFilter.RangeTombstoneFilter.Interleave`. `CreateRange.Open` joins the stages over
   the merger of the read path: a scan's contents are, in key order, exactly the per-key
   meaning `Pipeline.ScanMeaning`, over every source and every tombstone, although
   tables are skipped and tombstones narrowed, sorted and deduplicated. `Snapshots`
   says what that is in terms of the tables and memtables alone: which entries and
   tombstones a snapshot sees, that the newest one of a key is shown, and what operands
   fold to.
   `CreateRange.ReadBothEnds` reads it with at most one change of direction, and
   `ScanRuns.ScanUpToOneTurn` proves that no other pattern of calls is served.
2. **Merging.** The two-tournament merger of the read path, with its vacated slots,
   parked leaves and handover between the directions, is a state machine on values
   (`SeekingSteps`), proved right on runs (`SeekingDeque`, `SeekingRuns`) and refined by
   the class `SeekingMergers.SeekingMerger` on arrays. `SeekingRuns.DequeUpToOneTurn`
   says exactly for which call patterns it is a deque of the one sorted merge. The
   double-ended heap merge is one for every interleaving.
3. **The deletion pause.** Acquire, enqueue, drop, drain, probe, punch, retry and
   hard-link are atomic steps of any number of threads. An invariant is proved over
   all runs: nothing queued is forgotten or deleted early, no call is refused under a
   pause, no shared file is punched, and every call, guard, name, drained job and reclaim
   is accounted for against the list of steps taken. `PauseProgress.EverythingCanFinish`
   proves that from every reachable state all of it can be brought to an end.
4. **Error-correcting codes.** The Hsiao (72, 64) code over a block, XOR parity
   recovery, and the enumeration of missing shards around Reed-Solomon recovery.
5. **Arithmetic with bounds.** The token bucket's guarantee over every window of every
   run, and that it holds nobody longer than their requests ask for; the backpressure
   verdict in terms of its thresholds; byte-string bounds.

## How things are represented

- A user key is its rank (`Core.Key`, an integer) under the comparator.
  `Comparator.RankEmbeds` proves that ranks order, and tell apart, any finite set of
  keys exactly as a strict total order does; `ByteStrings.LexicographicIsTotalOrder`
  proves that the default byte order is one.
- A merge operator is any function; `None` is its error. Other sources are error-free.
- A source of the merger is the sequence of what it has left; a pull takes its first or
  its last item (the coherent-cursor contract of src/range.rs:33-41). `Cursors.Cursor`
  is the same for the tables a run reader opens. `EntryStreams.EntryStream` is what the
  stages read: such a cursor, the heap merge or the two-tournament merger.
- `ScanSteps` is a scan over the two-tournament merger on values: lookahead slots,
  grouping and filters, with `Broken` where the merger faults. It exists because the
  stage classes may only be called where the merger below is fit to answer. Suppression
  is its one-line meaning there, which the sweeps of `RtFilter` are proved to decide.
- `SeekingSteps.Fault` is a read of an absent leaf: the debug assertion of
  `LoserTree::pop_min` and `replace_min`. A run ends there. Both tournaments are
  allocated with the merger; one that is not primed is empty.
- In a list of calls `true` is `next` and `false` is `next_back`;
  `SeekingRuns.Turns` counts the changes of direction.
- `MergeSpec.Merged` is the merge of some sources: ordered by key, then newest first,
  then source index. `MergeSpec.MergeUnique` proves there is only one.
- In the pause protocol each step is one atomic action of one thread, so memory is
  sequentially consistent. `pushed`, `taken`, `refused`, the guards noted in them and the
  ledger only record history; no step reads them. `DeletionPause.Times` counts how often
  a step was taken.
- A byte is an 8-bit vector, a 64-bit code word its eight little-endian bytes.
- Clocks are parameters (nanoseconds); so are the checksum oracle and the foreign
  Reed-Solomon decoder.

## Where the code and its documentation differ

The merger of the read path promises to be safe under mixed direction
(src/seeking_merger.rs:5-42, 226-241). It is not: a direction that takes over a leaf
empties that slot of the other direction's tournament with `LoserTree::take_slot`, and
the slot need not be the winner's.

- `take_slot` is documented to take any slot and leave a usable tree.
  `LoserTheory.TakeSlotExact` proves that taking an occupied slot keeps the tournament
  if and only if the slot is the winner's.
- `SeekingRuns.DequeUpToOneTurn` proves that a pattern of calls gets, on all sorted
  sources, what a deque of the merge would answer if and only if it changes direction at
  most once. `SeekingRuns.TwoTurnsFault` gives for every other pattern two sources on
  which it reads an absent leaf.
- `SeekingRuns.WrongItem`: on [a, b, d] and [c], `next`, `next_back`, `next` hand out a,
  d and c, with b still to come. `SeekingRuns.TurningElectsAbsent`: on [a] and [b, c, d],
  `next_back` and `next` leave an empty slot elected while c is there.
- The same holds one level up, although a scan looks one key ahead and so pulls more
  often than it is called: `ScanRuns.ScanUpToOneTurn` proves that a pattern of `next` and
  `next_back` on a scan gets the meaning of the keys from both ends, over all sorted
  sources and range tombstones, if and only if it changes direction at most once.
  `ScanRuns.TwoTurnsBreakScan` gives the sources for every other pattern.
- What does hold in every run is that no entry is handed out more often than the sources
  hold it: `SeekingHoldings.NothingTwice`.

The model follows the code.

## Model

| member | source | states |
|---|---|---|
| `Comparator.RankEmbeds` | src/comparator.rs:14-26 | Keys compare and coincide exactly as their ranks do, for any strict total order whose equality is identity |
| `RangeTombstones.SuppressionIsDownwardClosed` | src/range_tombstone.rs:79-89 | If a version is suppressed, so is every older version of the key, whatever mix of tombstones and cutoffs |
| `Peekable.DoubleEndedPeekable.Next` | src/double_ended_peekable.rs:120-137 | Removes exactly the first remaining item, with any items already peeked at either end, of any stream fit to be pulled forward |
| `Peekable.DoubleEndedPeekable.NextBack` | src/double_ended_peekable.rs:139-156 | Removes exactly the last remaining item, even when the front peek is the only item left |
| `Peekable.DoubleEndedPeekable.Peek` | src/double_ended_peekable.rs:73-84 | Shows the first remaining item and changes nothing observable |
| `Peekable.DoubleEndedPeekable.PeekBack` | src/double_ended_peekable.rs:112-118 | Shows the last remaining item and changes nothing observable |
| `Peekable.DoubleEndedPeekable.NextIf` | src/double_ended_peekable.rs:86-96 | Takes the first item if and only if it satisfies the condition; otherwise nothing is lost |
| `Peekable.DoubleEndedPeekable.Reseek` | src/double_ended_peekable.rs:51-66 | After repositioning, no stale peeked item is left at either end |
| `EntryStreams.EntryStream.PullEntry` | src/mvcc_stream.rs:16-40 | A pull of any of the three streams takes the end of what is left; the steady ones stay fit in both directions |
| `Mvcc.CollapseConcat` | src/mvcc_stream.rs:266-288 | Resolving versions distributes over any boundary between two keys |
| `Mvcc.CollapseLast` | src/mvcc_stream.rs:290-367 | The last run of equal keys resolves on its own, last: what reverse iteration relies on |
| `Mvcc.MvccStream.DrainKeyMin` | src/mvcc_stream.rs:234-248 | Skips exactly the rest of the key's run |
| `Mvcc.MvccStream.ResolveMergeForward` | src/mvcc_stream.rs:81-161 | Streaming resolution equals folding the unsuppressed operands oldest first onto the base, and consumes exactly the run |
| `Mvcc.MvccStream.ResolveMergeBuffered` | src/mvcc_stream.rs:165-231 | Buffered reverse resolution gives the same item as the streaming one |
| `Mvcc.MvccStream.PullRun` | src/mvcc_stream.rs:293-340 | Pulls the whole run of a key from the back, oldest first, and not one entry of another key |
| `Mvcc.MvccStream.ResolveTail` | src/mvcc_stream.rs:300-367 | The run pulled from the back resolves to the group's item |
| `Mvcc.MvccStream.Next` | src/mvcc_stream.rs:266-288 | Hands out the first resolved key and keeps the rest; over a steady stream nothing is asked of earlier calls |
| `Mvcc.MvccStream.NextBack` | src/mvcc_stream.rs:290-367 | Hands out the last resolved key and keeps the rest: no key twice, none lost |
| `Mvcc.MvccStream.Interleave` | src/mvcc_stream.rs:266-367 | Over a steady stream every list of calls is answered as by a deque of the resolved keys |
| `Mvcc.MvccStream.Reseek` | src/mvcc_stream.rs:251-264 | Continues with the resolution of the new position only |
| `ActiveTombstones.ActiveSet.Activate` | src/active_tombstone_set.rs:80-113 | Adds exactly one pending item with the tombstone's boundary and seqno if visible at its cutoff, also when an equal one is live, keeping expiry order, for either direction |
| `ActiveTombstones.ActiveSet.ExpireUntil` | src/active_tombstone_set.rs:117-138 | Retires exactly the tombstones the scan has passed; every retired one finds its counter |
| `ActiveTombstones.ActiveSet.MaxActiveSeqno` | src/active_tombstone_set.rs:142-148 | The greatest live seqno |
| `ActiveTombstones.ActiveSet.IsSuppressed` | src/active_tombstone_set.rs:150-152 | True if and only if some live tombstone is newer than the entry |
| `ActiveTombstones.ActiveSet.Clear` | src/active_tombstone_set.rs:67-71 | Nothing is live |
| `Sorting.SortSorts` | src/range.rs:678-679 | Sorting gives an ordered sequence of the same members |
| `Sorting.PartitionPoint` | src/range.rs:700-702 | The boundary of a monotone condition, by binary search |
| `TombstoneSkips.TombstoneSkip.Next` | src/range.rs:1036-1047 | The first remaining item that is no tombstone |
| `TombstoneSkips.TombstoneSkip.NextBack` | src/range.rs:1049-1060 | The last remaining item that is no tombstone |
| `TombstoneSkips.TombstoneSkip.Reseek` | src/range.rs:1062-1066 | Continues with the new position only |
| `RtFilter.SweepDecides` | src/range_tombstone_filter.rs:113-134 | After activating up to a key and expiring, the live set suppresses an entry if and only if some tombstone and cutoff suppress it |
| `RtFilter.Sweep.Covers` | src/range_tombstone_filter.rs:159-181 | The sweep's verdict on an entry is the one-line suppression test over all tombstones |
| `RtFilter.Sweep.EnsureInitialized` | src/range_tombstone_filter.rs:85-111 | Lazy sorting keeps the tombstones and their verdicts |
| `RtFilter.Sweep.ActivateUpTo` | src/range_tombstone_filter.rs:113-134 | Activates exactly the tombstones the scan has entered |
| `RtFilter.Sweep.Reset` | src/range_tombstone_filter.rs:144-153 | The sweep may start again anywhere |
| `RtFilter.RangeTombstoneFilter.Next` | src/range_tombstone_filter.rs:156-184 | Drops an item if and only if a tombstone suppresses it, and otherwise hands out the first |
| `RtFilter.RangeTombstoneFilter.NextBack` | src/range_tombstone_filter.rs:186-213 | The same from the back, with its own sweep |
| `RtFilter.RangeTombstoneFilter.Interleave` | src/range_tombstone_filter.rs:156-213 | Over a steady stream every list of calls is answered as by a deque of the surviving items |
| `RtFilter.RangeTombstoneFilter.Reseek` | src/range_tombstone_filter.rs:136-154 | Filters the new position from the start, in both directions |
| `RtFilter.CollapseAscends` | src/mvcc_stream.rs:266-288 | Resolved items come strictly ascending by key, as the sweep assumes |
| `MergeSpec.MergeUnique` | src/merge.rs:73-107 | A set of sorted sources has at most one merge |
| `MergeSpec.MergeExists` | src/merge.rs:73-107 | Every set of sorted sources has a merge with exactly their items, in order |
| `MergeSpec.MergeOrder` | src/seeking_merger.rs:84-131 | A merge comes by key, newest version first, and equal versions in the order of the sources |
| `MergeSpec.FilterMerge` | src/range.rs:681-725 | Filtering entries before or after the merge gives the same entries |
| `Pipeline.SuppressedTail` | src/mvcc_stream.rs:69-77 | Everything at or below a suppressed version is suppressed |
| `Pipeline.ScanIsLeading` | src/mvcc_stream.rs:81-161 | The streaming scan finds exactly the living leading operands and the version that ends them |
| `Pipeline.GroupMeaning` | src/range.rs:823-871 | What the stages make of one group is the meaning of its key |
| `Pipeline.DistinctKeysAscend` | src/range.rs:823-871 | The rows' keys are strictly ascending and none is missing |
| `Pipeline.ScanIsMeaning` | src/range.rs:823-871 | Collapse, tombstone drop and suppression over any ordered merge give exactly the per-key meaning, in key order |
| `Pipeline.MeaningIsNewest` | src/mvcc_stream.rs:266-288 | Without an operator a scan shows exactly the newest version of each key, where that is neither a tombstone nor suppressed |
| `Pipeline.ScanOfAlive` | src/range.rs:681-725 | A scan of the living entries alone gives the same rows |
| `Pipeline.SkippingSuppressed` | src/range.rs:681-725 | Leaving out any suppressed entries, in any number, changes no row |
| `Tables.RunSorted` | src/run_reader.rs:20-41 | The concatenation of disjoint sorted tables is sorted |
| `RunReaders.RangeOverlapIndexes` | src/version/run.rs:236-298 | Tables outside the window hold nothing of the range; tables strictly inside hold nothing else |
| `RunReaders.AdvanceFrontKeeps` | src/run_reader.rs:155-192 | Moving to the next table loses and repeats nothing, also when both ends meet |
| `RunReaders.AdvanceBackKeeps` | src/run_reader.rs:195-227 | The same from the back; the index never underflows |
| `RunReaders.RunReader.Culled` | src/run_reader.rs:74-93 | A reader over the overlapping tables holds exactly the run's entries in the range |
| `RunReaders.NewReader` | src/run_reader.rs:61-72 | No reader only if the run holds nothing in the range; otherwise one that holds exactly its entries in the range |
| `RunReaders.RunReader.Reseek` | src/run_reader.rs:102-125 | After repositioning it holds exactly the run's entries in the new range |
| `RunReaders.RunReader.Next` | src/run_reader.rs:155-192 | Hands out the first remaining entry in range, under any interleaving |
| `RunReaders.RunReader.NextBack` | src/run_reader.rs:195-227 | Hands out the last remaining entry in range, under any interleaving |
| `CreateRange.InternalBoundsExact` | src/range.rs:883-914 | Internal bounds select exactly the versions of the keys the user bounds select |
| `CreateRange.OverlapSuffices` | src/range.rs:172-191 | Tombstones that miss the bounds decide nothing inside them |
| `CreateRange.IsCovered` | src/range.rs:696-716 | Searching the sorted prefix finds a covering tombstone if and only if there is one |
| `CreateRange.CoveredIsSuppressed` | src/range_tombstone.rs:143-151 | Every entry of a covered table is suppressed |
| `CreateRange.DedupKeeps` | src/range.rs:840-854 | Each tombstone survives with the greatest cutoff it came with, and none is made up |
| `CreateRange.DedupDistinct` | src/range.rs:840-854 | No tombstone is left twice, and the order is kept |
| `CreateRange.DedupDecides` | src/range.rs:840-854 | Deduplication with the greatest cutoff decides every entry as before |
| `CreateRange.NothingVisible` | src/range.rs:856-863 | With no visible tombstone the filter passes everything, so leaving it out is sound |
| `Pipeline.PointPathAgrees` | src/range.rs:455-474 | The point-read closure gives the same rows as the two stages |
| `CreateRange.ScannedAgrees` | src/range.rs:823-871 | A scan depends only on what its tombstone lists decide about its entries |
| `CreateRange.OpenTables` | src/range.rs:681-725 | Tables that are skipped hold nothing alive in the range |
| `CreateRange.CollectTombstones` | src/range.rs:545-612 | The tombstones collected in two batches are exactly those meeting the bounds |
| `CreateRange.OpenSources` | src/range.rs:727-817 | The opened sources are those of the scan, newest first, less entries that are suppressed anyway |
| `CreateRange.Assemble` | src/range.rs:818-871 | The stages over the merger hold the collapsed, undeleted, unsuppressed items, with the filter left out when no tombstone is visible |
| `CreateRange.Open` | src/range.rs:481-873 | A scan's contents are the per-key meaning over every source and every tombstone, and neither direction has been used |
| `TreeIters.TreeIter.Interleave` | src/range.rs:158-170 | Every list of calls over a steady stream, and every list that changes direction at most once over the merger, is answered as by a deque of the contents, filtered or not |
| `CreateRange.ReadBothEnds` | src/range.rs:481-873 | Opening a scan and reading it from both ends, with at most one change of direction, answers as a deque of the per-key meaning over every source and tombstone, and as the value-level scan does |
| `Snapshots.SourcesHold` | src/range.rs:681-817 | The merged sources hold an entry if and only if its key is in bounds and a table or run holds it older than the snapshot, or a memtable older than its cutoff |
| `Snapshots.SourceOrder` | src/range.rs:727-822 | Newer memtables come before older ones, and all before tables and runs, each with exactly what the scan may see of it |
| `Snapshots.TombstonesHold` | src/range.rs:545-612 | A scan's tombstones are exactly those its tables, runs and memtables carry, each read at its source's cutoff |
| `Snapshots.SuppressedIsDeleted` | src/range_tombstone.rs:79-89 | An entry is suppressed if and only if a carried tombstone covers its key, is newer than it and older than its cutoff |
| `Snapshots.ShowsTheNewest` | src/range.rs:481-873 | Without an operator a scan shows an entry if and only if it may see it, sees no newer version, and it is not deleted |
| `Snapshots.ShowsTheFold` | src/mvcc_stream.rs:81-231 | With an operator each key shows its visible operands, oldest first, folded onto the newest version that is none |
| `Snapshots.ShowsEachKeyOnce` | src/range.rs:481-873 | Rows come in strictly ascending key order |
| `ScanRuns.GroupRight` | src/mvcc_stream.rs:266-367 | On values: the versions pulled at one end of a sound scan are the whole group of the key at that end |
| `ScanRuns.ScanNextRight` | src/range.rs:823-871 | On values: a call of a sound scan takes the end of the collapsed, undeleted, unsuppressed items |
| `ScanRuns.OneTurnScan` | src/range.rs:481-873 | On all sorted sources and tombstones, calls with at most one change of direction get what a deque of the per-key meaning would answer |
| `ScanRuns.TwoTurnsBreakScan` | src/range.rs:481-873 | Every pattern of calls with two changes of direction makes a scan of single versions meet an absent leaf on some sorted sources |
| `ScanRuns.ScanUpToOneTurn` | src/range.rs:158-170 | A pattern of calls is served by every scan as by a deque if and only if it changes direction at most once |
| `Mergers.MergeHeap.Push` | src/heap.rs:108-115 | Inserts in order |
| `Mergers.MergeHeap.PopMin` | src/heap.rs:117-123 | Removes the least entry |
| `Mergers.MergeHeap.PopMax` | src/heap.rs:125-130 | Removes the greatest entry |
| `Mergers.MergeHeap.ReplaceMin` | src/heap.rs:142-162 | One pass of swaps equals removing the least and inserting the new entry |
| `Mergers.MergeHeap.ReplaceMax` | src/heap.rs:173-188 | The mirror image for the greatest |
| `Mergers.HeapMinIsFirst` | src/merge.rs:73-107 | With every source's front out, the heap's least entry is the first of everything left, although back ends share the heap |
| `Mergers.HeapMaxIsLast` | src/merge.rs:109-134 | With every source's back out, the heap's greatest entry is the last of everything left |
| `Mergers.StepFront` | src/merge.rs:76-106 | Taking the least and refilling from its source leaves the rest of the merge and a valid heap |
| `Mergers.StepBack` | src/merge.rs:110-133 | Taking the greatest and refilling from its source leaves the rest of the merge and a valid heap |
| `Mergers.Merger.InitializeLo` | src/merge.rs:48-58 | Pulling the fronts, whether or not the backs are out, leaves as much as before |
| `Mergers.Merger.InitializeHi` | src/merge.rs:61-71 | Pulling the backs, whether or not the fronts are out, leaves as much as before |
| `Mergers.Merger.Next` | src/merge.rs:73-107 | Hands out the first of the remaining merge under any interleaving |
| `Mergers.Merger.NextBack` | src/merge.rs:109-134 | Hands out the last of the remaining merge under any interleaving |
| `LoserTheory.WinnerIsLeast` | src/loser_tree.rs:483-519 | If every node below holds the loser of its game, the winner loses to no present leaf below |
| `LoserTheory.ReplayFromWinner` | src/loser_tree.rs:525-557 | Replacing the winner's leaf by anything and replaying its path restores the whole tournament |
| `LoserTheory.TakeSlotExact` | src/loser_tree.rs:439-451 | Emptying an occupied slot and replaying keeps the tournament if and only if the slot was the winner's |
| `LoserTheory.NonWinnerOrphans` | src/loser_tree.rs:439-451 | From any other slot the replay elects a slot that loses to the winner still present |
| `LoserTheory.GamesToRoot` | src/loser_tree.rs:525-557 | A path from a leaf has one game per level |
| `LoserTrees.LoserTree.constructor` | src/loser_tree.rs:198-237 | Building plays every game: a tournament over the given leaves, padded to a power of two |
| `LoserTrees.LoserTree.BuildSubtree` | src/loser_tree.rs:483-519 | Plays every game of a subtree, returns its winner, and touches nothing else |
| `LoserTrees.LoserTree.RefillWith` | src/loser_tree.rs:271-290 | Refilling gives a tournament over the new leaves |
| `LoserTrees.LoserTree.Clear` | src/loser_tree.rs:246-262 | Every leaf is gone and the tree is usable |
| `LoserTrees.LoserTree.WinnerSlot` | src/loser_tree.rs:323-334 | The slot that no present leaf beats, or none exactly when the tree is empty |
| `LoserTrees.LoserTree.Replay` | src/loser_tree.rs:525-557 | Replays a path with exactly log2(capacity) games |
| `LoserTrees.LoserTree.ReplaceMin` | src/loser_tree.rs:377-395 | Swaps the least for a new item and keeps the tournament |
| `LoserTrees.LoserTree.PopMin` | src/loser_tree.rs:404-423 | Removes the least and keeps the tournament |
| `LoserTrees.LoserTree.TakeSlot` | src/loser_tree.rs:439-451 | Takes a slot's item; a valid tree stays valid if and only if there was none or the slot was the winner's |
| `LoserTrees.GamesStand` | src/loser_tree.rs:483-519 | Playing every game gives a tournament, whatever the tree held before |
| `SeekingSteps.StepOk` | src/seeking_merger.rs:460-666 | Every pull, also from a broken tournament, keeps slots, counts and tree shape and the priming of the other direction |
| `SeekingDeque.PickParkedRight` | src/seeking_merger.rs:167-224 | The cached choice is the best parked leaf and is claimed if and only if it goes ahead of the winner |
| `SeekingDeque.PrimedRight` | src/seeking_merger.rs:308-427 | Priming a direction, from the sources or from the other tournament, leaves as much as before, and its tournament stands |
| `SeekingDeque.StepRight` | src/seeking_merger.rs:460-666 | A pull in a direction whose tournament stands hands out the end of everything left, keeps it standing, and leaves the other usable if it was not primed |
| `SeekingRuns.OneTurnIsDeque` | src/seeking_merger.rs:460-666 | On all sorted sources, every run with at most one change of direction gets what a deque of the merge would answer |
| `SeekingRuns.TwoTurnsFault` | src/seeking_merger.rs:308-427 | Every pattern of calls with two changes of direction reads an absent leaf on some sorted sources |
| `SeekingRuns.DequeUpToOneTurn` | src/seeking_merger.rs:226-241 | A pattern of calls is served as by a deque on all sorted sources if and only if it changes direction at most once |
| `SeekingRuns.WrongItem` | src/seeking_merger.rs:373-427 | On any four ascending entries in two sources: the third call hands out a later item than the one due |
| `SeekingRuns.TurningElectsAbsent` | src/seeking_merger.rs:308-371 | Turning from the back to the front leaves the backward tournament electing an empty slot with a leaf present |
| `SeekingHoldings.StepConserves` | src/seeking_merger.rs:460-666 | In every state, standing or not, a pull hands out an entry the merger holds and drops exactly that one |
| `SeekingHoldings.NothingTwice` | src/seeking_merger.rs:5-12 | However the calls turn, no entry is handed out more often than the sources hold it |
| `SeekingMergers.Direction.PickParked` | src/seeking_merger.rs:167-224 | The cached rescan over arrays chooses as the value-level machine does |
| `SeekingMergers.SeekingMerger.constructor` | src/seeking_merger.rs:289-306 | Starts with nothing buffered; on sorted sources it holds their merge |
| `SeekingMergers.SeekingMerger.Prime` | src/seeking_merger.rs:308-427 | Collecting heads, migrating leaves and playing the games is the machine's priming |
| `SeekingMergers.SeekingMerger.Take` | src/seeking_merger.rs:500-570 | Claim, exhaustion, refill and vacating are the machine's pull, fault included |
| `SeekingMergers.SeekingMerger.PullEnd` | src/seeking_merger.rs:460-666 | A call in either direction is one step of the machine |
| `SeekingMergers.SeekingMerger.RunAll` | src/seeking_merger.rs:460-666 | Any list of calls gets exactly the machine's run, so the run theorems speak of the arrays |
| `SeekingMergers.SeekingMerger.Reseek` | src/seeking_merger.rs:430-458 | After repositioning nothing is buffered, both directions are unused and the contents are the merge of the new positions |
| `SeekingMergers.SeekingMerger.PullEntry` | src/seeking_merger.rs:460-666 | While a direction is fit a pull removes the end of the remaining merge, and an unused direction stays unused |
| `DeletionGate.StepKeepsInv` | src/deletion_pause.rs:179-209 | Every atomic step of acquire, enqueue and drop keeps the gate's invariant: no leak, no early batch, no refusal under a pause |
| `DeletionGate.StepKeepsCalls` | src/deletion_pause.rs:179-193 | No step loses a call of `try_enqueue` or answers it twice |
| `Reclaims.StepKeepsExclusive` | src/deletion_pause.rs:215-224 | Every step keeps punching files unshared, and link and mutation windows apart |
| `Reclaims.StepKeepsBalanced` | src/deletion_pause.rs:324-402 | Every step keeps each reclaim in one place, owed exactly what it was not given |
| `Reclaims.StepKeepsOrigins` | src/deletion_pause.rs:285-303 | A step adds exactly the items of a drained batch or a retained one, and never alters an item |
| `Reclaims.StepKeepsPaths` | src/deletion_pause.rs:288-297 | A file comes with its creation and goes with its removal, by a drain or by someone else |
| `DeletionPause.StepKeepsInv` | src/deletion_pause.rs:179-402 | Every step of the whole protocol keeps the joint invariant |
| `DeletionPause.Reachable` | src/deletion_pause.rs:179-402 | The invariant holds after every run of any number of threads |
| `DeletionPause.NothingLeaks` | src/deletion_pause.rs:241-283 | A non-empty queue means a live pause or a drop still due to look; at rest the queue is empty and everything queued was taken once, in order |
| `DeletionPause.DrainsAreCarriedOut` | src/deletion_pause.rs:275-303 | Over all runs the items given to workers are exactly the jobs taken from the queue, once and in order, with their file and action |
| `DeletionPause.NothingIsPremature` | src/deletion_pause.rs:263-283 | When a drain takes a batch, every guard alive at the push of any of its items is gone, even with a new generation racing in |
| `DeletionPause.NoneRefusedUnderPause` | src/deletion_pause.rs:148-193 | Whenever a caller is told to delete by itself, at the first look or the second, no guard is alive |
| `DeletionPause.CallsAreCounted` | src/deletion_pause.rs:179-193 | As often as a job was tried it is waiting for the lock, holding it, refused or pushed |
| `DeletionPause.GuardsAreCounted` | src/deletion_pause.rs:197-209 | The live guards are exactly those acquired and not dropped |
| `DeletionPause.OnlyTheLastLooks` | src/deletion_pause.rs:241-249 | Only a guard dropped as the last one alive goes to the queue |
| `DeletionPause.NamesAreCounted` | src/deletion_pause.rs:324-366 | A file has its own name and those checkpoints gave it and did not drop |
| `DeletionPause.PathsAreCounted` | src/deletion_pause.rs:285-297 | A file is in place if and only if it was created and neither a drain nor someone else removed it |
| `DeletionPause.RemovalRemoves` | src/deletion_pause.rs:285-297 | A drain's successful removal takes the file out of place with one link fewer |
| `DeletionPause.ProbeDecides` | src/deletion_pause.rs:324-366 | An answered probe starts punching if and only if the file is in place under one name, gives up if and only if it is gone, and else retains the whole item |
| `DeletionPause.RetainsAreCounted` | src/deletion_pause.rs:368-386 | Every reclaim a table retains is on the books, as often as it was retained |
| `DeletionPause.WindowsAreCounted` | src/deletion_pause.rs:211-224 | A link window is open if and only if one was entered and not left |
| `DeletionPause.Admits` | src/deletion_pause.rs:179-224 | Guards, calls and reclaims are admitted in every state, and a link window whenever no reclaim holds the gate |
| `DeletionPause.SharedFilesStayIntact` | src/deletion_pause.rs:324-366 | No run punches a file whose link count exceeds one |
| `DeletionPause.ReclaimsAreConserved` | src/deletion_pause.rs:324-402 | Over any retries the punched extents are a prefix of the list; at rest it is complete, or the file is gone, or exactly one retained item asks for exactly the rest |
| `PauseProgress.EverythingCanFinish` | src/deletion_pause.rs:179-402 | From every reachable state there are steps after which no guard, call, batch or retained reclaim is left and every item has ended |
| `Secded.BuildDataColumns` | src/secded.rs:118-140 | Exactly the first 64 bytes of odd weight at least three, ascending; the search ends before the last byte |
| `Secded.BuildTables` | src/secded.rs:145-165 | Each table entry is the sum of the columns of the bits set |
| `Secded.CheckByte` | src/secded.rs:170-180 | Eight lookups give the sum of the columns of all set bits of the word |
| `Secded.WordsMakeUp` | src/secded.rs:261-275 | The words make up the payload, followed by fewer than eight zero bytes |
| `Secded.SyndromeFlip` | src/secded.rs:210-215 | Flipping any of the 72 stored bits adds that bit's column to the syndrome |
| `Secded.ColumnsDiffer` | src/secded.rs:106-115 | All 72 columns, data and check, are distinct |
| `Secded.ColumnsAreOdd` | src/secded.rs:106-115 | All 72 columns have odd weight |
| `Secded.DecodeCorrects` | src/secded.rs:200-242 | A codeword, and one with any one of its 72 bits flipped, decodes to the original data |
| `Secded.DecodeDetects` | src/secded.rs:200-242 | A codeword with any two bits flipped is reported and left as it is |
| `Secded.Codec.DecodeWord` | src/secded.rs:200-242 | The power-of-two, parity and column tests equal nearest-codeword decoding |
| `Secded.Codec.EncodeBlockParity` | src/secded.rs:261-275 | One check byte for each word, the last zero-padded |
| `Secded.Codec.TryCorrectBlock` | src/secded.rs:291-320 | Decodes word by word in place, stops at the first word beyond repair, and refuses a short trailer untouched |
| `Secded.SingleFlipsHeal` | src/secded.rs:291-320 | At most one flip in each stored word: the payload comes back exactly, for every length, and `Clean` means nothing was wrong |
| `Secded.RoundTripHeals` | src/secded.rs:261-320 | Encoding a block, flipping at most one bit of each stored word and correcting it gives the block back |
| `Secded.DoubleFlipsDetected` | src/secded.rs:291-320 | Two flips in any word give `Uncorrectable`, whatever the other words hold |
| `Combinations.NextCombination` | src/ecc.rs:353-378 | Moves to the successor in place, or leaves the last combination and says so |
| `Combinations.BumpedIsNext` | src/ecc.rs:353-378 | Nothing lies between a combination and the one computed next |
| `Combinations.MaximalIsLast` | src/ecc.rs:353-378 | `false` is returned only at the last combination |
| `Combinations.VisitNext` | src/ecc.rs:333-348 | Stepping visits one more combination in order and misses none |
| `Combinations.TryMissingSets` | src/ecc.rs:333-348 | Terminates; tries every k-subset once in lexicographic order until one is not rejected; a rejection means all were |
| `Ecc.ShardsCover` | src/ecc.rs:70-77 | The shard size is the least even one whose shards hold the payload |
| `Ecc.ShardsMakeUp` | src/ecc.rs:120-132 | The shards make up the payload, followed by zero bytes |
| `Ecc.FillDataShard` | src/ecc.rs:120-132 | The shard's slice of the payload, zero-padded, also when it is all padding |
| `Ecc.EncodeXor` | src/ecc.rs:135-145 | The parity shard is the sum of all data shards |
| `Ecc.EncodeParity` | src/ecc.rs:103-117 | No parity for empty blocks and degenerate schemes; one shard is the sum of the data shards; more come from the engine |
| `Ecc.CarveDataShards` | src/ecc.rs:227-243 | Cuts the data into padded shards |
| `Ecc.JoinRestores` | src/ecc.rs:257-262 | Cutting a payload into shards, gluing and trimming is the identity |
| `Ecc.ParityRebuilds` | src/ecc.rs:272-284 | The parity and the other shards give back the missing one, whatever stands in its place |
| `Ecc.XorRecover` | src/ecc.rs:247-301 | The first accepted candidate: the data as found, then each shard rebuilt; none means none is accepted |
| `Ecc.OneShardRecovers` | src/ecc.rs:247-301 | Damage confined to one data shard or to the parity shard is undone exactly |
| `Ecc.RsRecover` | src/ecc.rs:305-349 | The result is that of some set of missing shards, and a rejection means every set was rejected |
| `Ecc.SearchFindsOriginal` | src/ecc.rs:305-349 | If one set of missing shards leads to the original and nothing else is accepted, it is recovered |
| `Ecc.TryRecover` | src/ecc.rs:185-224 | Refuses degenerate schemes and short inputs; otherwise the scheme's own recovery |
| `Ecc.RoundTripRecovers` | src/ecc.rs:103-224 | A block written with XOR parity and damaged in one data shard, or in the parity, is recovered exactly |
| `RateLimiters.RateLimiter.constructor` | src/rate_limiter.rs:107-118 | Starts with one full burst |
| `RateLimiters.RateLimiter.AcquireWait` | src/rate_limiter.rs:136-177 | Refill, cap, debit and wait as the functions that `ServedExactly` and the bounds are about, clamps included; rate 0 waits for nothing |
| `RateLimiters.WindowPaid` | src/rate_limiter.rs:136-177 | Since any request, grants and remaining budget stay within a burst and the accrual |
| `RateLimiters.GrantsAreBounded` | src/rate_limiter.rs:136-177 | In every window of every run without a clamp, the bytes granted stay within a burst and the rate's yield up to the release |
| `RateLimiters.TotalIsBounded` | src/rate_limiter.rs:136-177 | total * 1e9 <= burst * 1e9 + rate * (release + 1) for every request of such a run |
| `RateLimiters.SmallRunsAreUnclamped` | src/rate_limiter.rs:149-176 | A condition on the requests alone under which no clamp fires |
| `RateLimiters.WaitExact` | src/rate_limiter.rs:136-176 | The wait for any request, clamps and all, is that for the debt, the most debt the bucket can show, or the longest wait, whichever is least |
| `RateLimiters.WaitFallsShort` | src/rate_limiter.rs:163-176 | A request is let go before its debt is repaid if and only if the debt exceeds a limit computed from bucket and rate |
| `RateLimiters.ServedExactly` | src/rate_limiter.rs:136-176 | Without clamps a request finds what was left and what the time earned, up to a burst, and waits exactly for what it asks beyond that |
| `RateLimiters.WaitsAreEarned` | src/rate_limiter.rs:136-177 | A request that waits ends a window in which the requests exceeded a burst and the rate's yield by what the wait earns, but for rounding |
| `RateLimiters.ClampBreaksBound` | src/rate_limiter.rs:163-176 | A request that meets the clamps and exceeds the bound |
| `BackpressureVerdicts.Compute` | src/backpressure.rs:134-176 | The accumulating code gives the verdict that `VerdictExact` spells out |
| `BackpressureVerdicts.VerdictExact` | src/backpressure.rs:134-234 | In the thresholds alone: stop and slowdown exactly when an axis has reached its own, and the greater exact delay of the axes |
| `BackpressureVerdicts.ScaleIsFloor` | src/backpressure.rs:213-234 | The decomposed product is exactly floor(cap * num / den) |
| `BackpressureVerdicts.ScaleFits` | src/backpressure.rs:213-234 | Every intermediate is below 2^128 and the seconds below 2^64 |
| `BackpressureVerdicts.AxisDelayExact` | src/backpressure.rs:187-211 | Between its thresholds an axis delays by the exact fraction of the cap, rounded down |
| `BackpressureVerdicts.VerdictMonotone` | src/backpressure.rs:134-176 | More tables or pending bytes never give a milder tier or a shorter delay |
| `BackpressureVerdicts.DelayWithinCap` | src/backpressure.rs:134-176 | The delay never exceeds the cap |
| `ByteStrings.LexicographicIsTotalOrder` | src/comparator.rs:131-140 | The default comparator is a strict total order |
| `ByteStrings.PrefixUpperRange` | src/range.rs:69-88 | Increments the last byte below 0xFF and cuts there; unbounded exactly for all-0xFF prefixes |
| `ByteStrings.PrefixToRange` | src/range.rs:93-101 | The bounds contain a string if and only if it starts with the prefix |
| `ByteStrings.UpperBoundExclusive` | src/range_tombstone.rs:272-296 | The least string strictly above the input among those of at most 65535 bytes, or of the input's own length if that is longer; none exactly for an all-0xFF input of at least 65535 bytes |

## Left out

- CreateRange.OpenSources: runs and tables enter the merger as the sequences that `RunReaders.RunReader` is proved to hand out, not as reader objects.
- CreateRange.OpenTables: bloom filters and the tight-space restriction, which only narrow which tables are opened, are not modelled.
- Ecc.RsRecover: the Reed-Solomon decoder and the checksum oracle are one given function.
- RateLimiters.GrantsAreBounded: assumes that the clamps on debit, debt and wait do not fire; `ClampBreaksBound` shows why, and `WaitFallsShort` says exactly when a single request is let go early.
- RateLimiters.TotalIsBounded: the same assumption.
- RateLimiters.SmallRunsAreUnclamped: a bound on the bytes of the whole run, sufficient and not necessary.
- RateLimiters.WaitsAreEarned: for rates and clocks whose product the accrual counts without its clamp (`Countable`); past that the clamp only makes the limiter stricter.
- Snapshots.ShowsTheNewest: for sources that agree on each version (`VersionsUnique`); `SourceOrder` and `MergeOrder` say which source wins otherwise.
- Snapshots.ShowsTheFold: for sources that hold each entry once (`OneHome`); an operand held twice is folded twice.
- Reclaims.StepKeepsBalanced: a table's own immediate punch outside the queue, and the in-place heals that share the link gate, are not steps of the model.
- DeletionGate.StepKeepsInv: the pause counter is an unbounded integer, not 32 bits, and memory is sequentially consistent.
- ActiveTombstones.ActiveSet.Activate: ids and counters are unbounded, not 64 and 32 bits.
- Errors raised by sources while a scan runs, and the heap entry a merger discards on one.
- The readers of tables, blocks and memtables: a source is its sorted sequence of entries.
- `seek_to` and `seek_to_for_prev`, whose window clamp compares raw bytes under any comparator.
- The Reed-Solomon engine itself, checksums and encryption.
- Checkpoint I/O, durability order, reflink and copy fallbacks.
- Sleeping, the system clock and interruption of a wait.
- Compaction, version history, caches, ingestion, blob files. Their promises are that contents are kept across rewrites; what a snapshot reads from given contents, which is proved here, does not depend on them.
